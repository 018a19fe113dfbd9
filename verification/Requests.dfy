/** Requests and responses multiplexed over the Core's WebSocket. */
module Requests {
  import opened Options

  datatype Pending = Pending(id: nat, name: string)

  datatype Outcome = Resolved(code: int) | Refused(code: int) | TimedOut | NotSent | Dropped

  /** The end of one request, as its caller sees it. */
  datatype Settlement = Settlement(id: nat, outcome: Outcome)

  datatype State = State(socket: Option<nat>, requestId: nat, pending: seq<Pending>, timers: set<nat>,
                         settled: seq<Settlement>)

  datatype Event =
    | Opened(number: nat)
    | Request(name: string, sends: bool)
    | Message(reply: Option<nat>, code: int)
    | Timeout(id: nat)
    | Closed(number: nat)
    | Errored
    | Close

  const INITIAL: State := State(None, 1, [], {}, [])

  // ---------------------------------------------------------------------------
  // Steps
  // ---------------------------------------------------------------------------

  function Ids(pending: seq<Pending>): set<nat> {
    set p | p in pending :: p.id
  }

  predicate Waits(pending: seq<Pending>, id: nat) {
    exists i :: 0 <= i < |pending| && pending[i].id == id
  }

  function Remove(pending: seq<Pending>, id: nat): seq<Pending> {
    if pending == [] then []
    else if pending[0].id == id then Remove(pending[1..], id)
    else [pending[0]] + Remove(pending[1..], id)
  }

  function DroppedAll(pending: seq<Pending>): seq<Settlement> {
    seq(|pending|, i requires 0 <= i < |pending| => Settlement(pending[i].id, Dropped))
  }

  function Settle(s: State, id: nat, outcome: Outcome): State {
    s.(pending := Remove(s.pending, id), timers := s.timers - {id}, settled := s.settled + [Settlement(id, outcome)])
  }

  function RejectAll(s: State): State {
    s.(pending := [], timers := s.timers - Ids(s.pending), settled := s.settled + DroppedAll(s.pending))
  }

  function Issue(s: State, name: string): State {
    s.(requestId := s.requestId + 1, pending := s.pending + [Pending(s.requestId, name)],
       timers := s.timers + {s.requestId})
  }

  /** A timer that was cleared does not fire, and a message for a request that does not wait is ignored. */
  function Step(s: State, e: Event): State {
    match e
    case Opened(number) => s.(socket := Some(number))
    case Request(name, sends) =>
      if sends && s.socket.Some? then Issue(s, name) else Settle(Issue(s, name), s.requestId, NotSent)
    case Message(id, code) =>
      if id.None? || !Waits(s.pending, id.value) then s
      else Settle(s, id.value, if 200 <= code < 300 then Resolved(code) else Refused(code))
    case Timeout(id) => if id in s.timers then Settle(s, id, TimedOut) else s
    case Closed(number) => RejectAll(if s.socket == Some(number) then s.(socket := None) else s)
    case Errored => RejectAll(s)
    case Close => s.(socket := None)
  }

  function Run(s: State, events: seq<Event>): State {
    if events == [] then s else Step(Run(s, events[..|events| - 1]), events[|events| - 1])
  }

  // ---------------------------------------------------------------------------
  // The client
  // ---------------------------------------------------------------------------

  class CoreWebSocket {
    var socket: Option<nat>
    var requestId: nat
    var pending: seq<Pending>
    var timers: set<nat>
    var settled: seq<Settlement>

    ghost function View(): State
      reads this
    {
      State(socket, requestId, pending, timers, settled)
    }

    constructor ()
      ensures View() == INITIAL
    {
      socket, requestId, pending, timers, settled := None, 1, [], {}, [];
    }

    method OnOpened(number: nat)
      modifies this
      ensures View() == Step(old(View()), Opened(number))
    {
      socket := Some(number);
    }

    method IssueRequest(name: string, sends: bool)
      modifies this
      ensures View() == Step(old(View()), Request(name, sends))
    {
      var id := requestId;
      requestId := requestId + 1;
      timers := timers + {id};
      pending := pending + [Pending(id, name)];
      if !(sends && socket.Some?) {
        timers := timers - {id};
        pending := Remove(pending, id);
        settled := settled + [Settlement(id, NotSent)];
      }
    }

    method HandleMessage(id: Option<nat>, code: int)
      modifies this
      ensures View() == Step(old(View()), Message(id, code))
    {
      if id.None? || !Waits(pending, id.value) { return; }
      timers := timers - {id.value};
      pending := Remove(pending, id.value);
      if code < 200 || code >= 300 {
        settled := settled + [Settlement(id.value, Refused(code))];
      } else {
        settled := settled + [Settlement(id.value, Resolved(code))];
      }
    }

    method OnTimeout(id: nat)
      modifies this
      ensures View() == Step(old(View()), Timeout(id))
    {
      if id !in timers { return; }
      timers := timers - {id};
      pending := Remove(pending, id);
      settled := settled + [Settlement(id, TimedOut)];
    }

    method RejectPending()
      modifies this
      ensures View() == RejectAll(old(View()))
    {
      for i := 0 to |pending|
        invariant pending == old(pending) && socket == old(socket) && requestId == old(requestId)
        invariant timers == old(timers) - Ids(pending[..i])
        invariant settled == old(settled) + DroppedAll(pending[..i])
      {
        timers := timers - {pending[i].id};
        settled := settled + [Settlement(pending[i].id, Dropped)];
        assert pending[..i + 1] == pending[..i] + [pending[i]];
      }
      assert pending[..|pending|] == pending;
      pending := [];
    }

    method OnClosed(number: nat)
      modifies this
      ensures View() == Step(old(View()), Closed(number))
    {
      if socket == Some(number) { socket := None; }
      RejectPending();
    }

    method OnError()
      modifies this
      ensures View() == Step(old(View()), Errored)
    {
      RejectPending();
    }

    method StartClose()
      modifies this
      ensures View() == Step(old(View()), Close)
    {
      socket := None;
    }
  }

  // ---------------------------------------------------------------------------
  // Exactly once
  // ---------------------------------------------------------------------------

  function Count(settled: seq<Settlement>, id: nat): nat {
    if settled == [] then 0 else Count(settled[..|settled| - 1], id) + if settled[|settled| - 1].id == id then 1 else 0
  }

  /** The waiting requests stand in the order in which they were issued, and each has a running timer. */
  ghost predicate InOrder(pending: seq<Pending>, requestId: nat) {
    && (forall i :: 0 <= i < |pending| ==> 1 <= pending[i].id < requestId)
    && (forall i, j :: 0 <= i < j < |pending| ==> pending[i].id < pending[j].id)
  }

  /** Of the ids given out so far, those that wait have no end yet and all others have one; no other id has any. */
  ghost predicate Accounted(s: State) {
    forall id: nat :: Count(s.settled, id) == if 1 <= id < s.requestId && !Waits(s.pending, id) then 1 else 0
  }

  ghost predicate Sound(s: State) {
    s.requestId >= 1 && InOrder(s.pending, s.requestId) && s.timers == Ids(s.pending) && Accounted(s)
  }

  lemma CountAppend(settled: seq<Settlement>, x: Settlement, id: nat)
    ensures Count(settled + [x], id) == Count(settled, id) + if x.id == id then 1 else 0
  {
    assert (settled + [x])[..|settled|] == settled;
  }

  lemma {:induction false} RemoveExactly(pending: seq<Pending>, id: nat, requestId: nat)
    requires InOrder(pending, requestId)
    ensures InOrder(Remove(pending, id), requestId)
    ensures forall x: nat :: Waits(Remove(pending, id), x) <==> x != id && Waits(pending, x)
  {
    if pending != [] {
      var rest := pending[1..];
      RemoveExactly(rest, id, requestId);
      WaitsFirst(pending[0], rest);
      assert pending == [pending[0]] + rest;
      if pending[0].id != id {
        WaitsFirst(pending[0], Remove(rest, id));
        forall i | 0 <= i < |Remove(rest, id)| ensures pending[0].id < Remove(rest, id)[i].id {
          assert Waits(Remove(rest, id), Remove(rest, id)[i].id);
        }
      }
    }
  }

  lemma WaitsFirst(p: Pending, rest: seq<Pending>)
    ensures forall x: nat :: Waits([p] + rest, x) <==> x == p.id || Waits(rest, x)
  {
    var all := [p] + rest;
    forall x: nat ensures Waits(all, x) <==> x == p.id || Waits(rest, x) {
      if Waits(rest, x) {
        var i :| 0 <= i < |rest| && rest[i].id == x;
        assert all[i + 1].id == x;
      }
      assert all[0] == p;
    }
  }

  lemma WaitsLast(pending: seq<Pending>, p: Pending)
    ensures forall x: nat :: Waits(pending + [p], x) <==> x == p.id || Waits(pending, x)
  {
    var all := pending + [p];
    forall x: nat ensures Waits(all, x) <==> x == p.id || Waits(pending, x) {
      if Waits(pending, x) {
        var i :| 0 <= i < |pending| && pending[i].id == x;
        assert all[i].id == x;
      }
      assert all[|pending|] == p;
    }
  }

  lemma IdsWait(pending: seq<Pending>)
    ensures forall x: nat :: x in Ids(pending) <==> Waits(pending, x)
  {
    forall x: nat | Waits(pending, x) ensures x in Ids(pending) {
      var i :| 0 <= i < |pending| && pending[i].id == x;
      assert pending[i] in pending;
    }
  }

  lemma {:induction false} IssueSound(s: State, name: string)
    requires Sound(s)
    ensures Sound(Issue(s, name))
  {
    hide Waits, Ids;
    var p := Pending(s.requestId, name);
    WaitsLast(s.pending, p);
    IdsWait(s.pending);
    IdsWait(s.pending + [p]);
    NewId(s.pending, s.requestId);
    assert Issue(s, name).timers == Ids(s.pending + [p]);
  }

  lemma NewId(pending: seq<Pending>, requestId: nat)
    requires InOrder(pending, requestId)
    ensures forall x: nat :: Waits(pending, x) ==> 1 <= x < requestId
  {}

  lemma {:induction false} SettleSound(s: State, id: nat, outcome: Outcome)
    requires Sound(s) && Waits(s.pending, id)
    ensures Sound(Settle(s, id, outcome))
  {
    hide Waits, Ids, InOrder, Remove;
    RemoveExactly(s.pending, id, s.requestId);
    NewId(s.pending, s.requestId);
    IdsWait(s.pending);
    IdsWait(Remove(s.pending, id));
    assert Settle(s, id, outcome).timers == Ids(Remove(s.pending, id));
    forall x: nat { CountAppend(s.settled, Settlement(id, outcome), x); }
  }

  lemma AllButLast(pending: seq<Pending>, requestId: nat)
    requires InOrder(pending, requestId) && pending != []
    ensures var n := |pending| - 1; InOrder(pending[..n], requestId) && !Waits(pending[..n], pending[n].id)
  {}

  lemma {:induction false} CountDropped(settled: seq<Settlement>, pending: seq<Pending>, requestId: nat, id: nat)
    requires InOrder(pending, requestId)
    ensures Count(settled + DroppedAll(pending), id) == Count(settled, id) + if Waits(pending, id) then 1 else 0
  {
    hide Count, Waits, InOrder;
    if pending == [] {
      NobodyWaits();
      assert settled + DroppedAll(pending) == settled;
    } else {
      var n := |pending| - 1;
      var before := pending[..n];
      AllButLast(pending, requestId);
      CountDropped(settled, before, requestId, id);
      assert pending == before + [pending[n]];
      WaitsLast(before, pending[n]);
      assert settled + DroppedAll(pending) == (settled + DroppedAll(before)) + [Settlement(pending[n].id, Dropped)];
      CountAppend(settled + DroppedAll(before), Settlement(pending[n].id, Dropped), id);
    }
  }

  lemma RejectSound(s: State)
    requires Sound(s)
    ensures Sound(RejectAll(s)) && RejectAll(s).pending == []
  {
    hide Waits, Count;
    forall id: nat { CountDropped(s.settled, s.pending, s.requestId, id); }
    NewId(s.pending, s.requestId);
    NobodyWaits();
  }

  lemma NobodyWaits()
    ensures forall x: nat :: !Waits([], x)
  {}

  lemma {:induction false} StepSound(s: State, e: Event)
    requires Sound(s)
    ensures Sound(Step(s, e))
  {
    hide Sound, Settle, RejectAll, Issue;
    match e
    case Opened(number) => SocketAside(s, Some(number));
    case Close => SocketAside(s, None);
    case Errored => RejectSound(s);
    case Closed(number) =>
      SocketAside(s, None);
      RejectSound(if s.socket == Some(number) then s.(socket := None) else s);
    case Request(name, sends) =>
      IssueSound(s, name);
      IssuedWaits(s, name);
      if !(sends && s.socket.Some?) { SettleSound(Issue(s, name), s.requestId, NotSent); }
    case Message(id, code) =>
      if id.Some? && Waits(s.pending, id.value) {
        SettleSound(s, id.value, if 200 <= code < 300 then Resolved(code) else Refused(code));
      }
    case Timeout(id) =>
      TimerWaits(s, id);
      if id in s.timers { SettleSound(s, id, TimedOut); }
  }

  lemma SocketAside(s: State, socket: Option<nat>)
    requires Sound(s)
    ensures Sound(s.(socket := socket))
  {}

  lemma IssuedWaits(s: State, name: string)
    ensures Waits(Issue(s, name).pending, s.requestId)
  {
    WaitsLast(s.pending, Pending(s.requestId, name));
  }

  lemma TimerWaits(s: State, id: nat)
    requires Sound(s)
    ensures id in s.timers <==> Waits(s.pending, id)
  {
    IdsWait(s.pending);
  }

  lemma {:induction false} RunSound(events: seq<Event>)
    ensures Sound(Run(INITIAL, events))
  {
    hide Sound, Step;
    if events == [] {
      InitialSound();
    } else {
      RunSound(events[..|events| - 1]);
      StepSound(Run(INITIAL, events[..|events| - 1]), events[|events| - 1]);
    }
  }

  lemma InitialSound()
    ensures Sound(INITIAL)
  {}

  // ---------------------------------------------------------------------------
  // Over all runs
  // ---------------------------------------------------------------------------

  /** Whatever happens in whatever order, an issued request has ended exactly when it no longer waits, and then
      exactly once; nothing else ever ends. */
  lemma {:induction false} ExactlyOnce(events: seq<Event>, id: nat)
    ensures var s := Run(INITIAL, events);
      && Count(s.settled, id) <= 1
      && (Count(s.settled, id) == 1 <==> 1 <= id < s.requestId && !Waits(s.pending, id))
      && (Waits(s.pending, id) ==> 1 <= id < s.requestId && id in s.timers)
  {
    hide Run;
    RunSound(events);
    IdsWait(Run(INITIAL, events).pending);
    NewId(Run(INITIAL, events).pending, Run(INITIAL, events).requestId);
  }

  /** A response ends the request with its id, if that one still waits, and touches no other. */
  lemma ResponseSettlesItsOwn(events: seq<Event>, id: nat, code: int, other: nat)
    ensures var s := Run(INITIAL, events); var after := Run(INITIAL, events + [Message(Some(id), code)]);
      var end := Settlement(id, if 200 <= code < 300 then Resolved(code) else Refused(code));
      && after.settled == s.settled + (if Waits(s.pending, id) then [end] else [])
      && (Waits(after.pending, other) <==> other != id && Waits(s.pending, other))
  {
    hide Sound;
    var s := Run(INITIAL, events);
    assert (events + [Message(Some(id), code)])[..|events|] == events;
    RunSound(events);
    PendingInOrder(s);
    RemoveExactly(s.pending, id, s.requestId);
  }

  lemma PendingInOrder(s: State)
    requires Sound(s)
    ensures InOrder(s.pending, s.requestId)
  {}

  /** Every request gets a new id, also after any number of reconnects. */
  lemma {:induction false} IdsAreNew(events: seq<Event>, i: nat, j: nat)
    requires i < j < |events| && events[i].Request?
    ensures Run(INITIAL, events[..i]).requestId < Run(INITIAL, events[..j]).requestId
    decreases j
  {
    assert events[..j][..j - 1] == events[..j - 1] && events[..j][j - 1] == events[j - 1];
    if i < j - 1 { IdsAreNew(events, i, j - 1); }
  }

  /** After the socket closed or failed, nothing that was issued waits any longer, and each has ended once. */
  lemma NothingWaitsAfterLoss(events: seq<Event>, e: Event, id: nat)
    requires e.Closed? || e.Errored?
    ensures var s := Run(INITIAL, events + [e]);
      s.pending == [] && s.timers == {} && (1 <= id < s.requestId ==> Count(s.settled, id) == 1)
  {
    assert (events + [e])[..|events|] == events;
    RunSound(events + [e]);
    NobodyWaits();
  }

  /** The event that may end a request in this way, in the state before it. */
  ghost predicate Explains(e: Event, before: State, x: Settlement) {
    match x.outcome
    case Resolved(code) => e == Message(Some(x.id), code) && 200 <= code < 300
    case Refused(code) => e == Message(Some(x.id), code) && !(200 <= code < 300)
    case TimedOut => e == Timeout(x.id)
    case NotSent => e.Request? && x.id == before.requestId && !(e.sends && before.socket.Some?)
    case Dropped => (e.Closed? || e.Errored?) && Waits(before.pending, x.id)
  }

  lemma StepExplained(s: State, e: Event, x: Settlement)
    ensures s.settled <= Step(s, e).settled
    ensures x in Step(s, e).settled[|s.settled|..] ==> Explains(e, s, x)
  {
    if x in DroppedAll(s.pending) {
      var i :| 0 <= i < |s.pending| && s.pending[i].id == x.id;
    }
  }

  /** No request ends without an event of the run that accounts for it. */
  lemma {:induction false} EveryEndHasACause(events: seq<Event>, k: nat)
    requires k < |Run(INITIAL, events).settled|
    ensures exists i ::
      0 <= i < |events| && Explains(events[i], Run(INITIAL, events[..i]), Run(INITIAL, events).settled[k])
  {
    hide Explains, Step;
    assert events != [];
    var n := |events| - 1;
    var before, x := Run(INITIAL, events[..n]), Run(INITIAL, events).settled[k];
    StepExplained(before, events[n], x);
    if k < |before.settled| {
      EveryEndHasACause(events[..n], k);
      var i :| 0 <= i < n && Explains(events[..n][i], Run(INITIAL, events[..n][..i]), before.settled[k]);
      assert events[..n][..i] == events[..i] && events[..n][i] == events[i];
    } else {
      assert Run(INITIAL, events).settled[|before.settled|..][k - |before.settled|] == x;
    }
  }

  lemma RunOne(events: seq<Event>, e: Event)
    ensures Run(INITIAL, events + [e]) == Step(Run(INITIAL, events), e)
  {
    assert (events + [e])[..|events|] == events;
  }

  /** A new request waits exactly when there is a socket and it can be sent on it; otherwise it is rejected at once. */
  lemma {:induction false} RequestsWait(events: seq<Event>, name: string, sends: bool, other: nat)
    ensures var s, after := Run(INITIAL, events), Run(INITIAL, events + [Request(name, sends)]);
      && after.requestId == s.requestId + 1
      && (Waits(after.pending, other) <==>
          Waits(s.pending, other) || (other == s.requestId && sends && s.socket.Some?))
      && after.settled == s.settled + if sends && s.socket.Some? then [] else [Settlement(s.requestId, NotSent)]
  {
    hide Run, Remove;
    RunOne(events, Request(name, sends));
    RunSound(events);
    var s := Run(INITIAL, events);
    IssuedOnly(s, name, other);
    if !(sends && s.socket.Some?) { IssueSound(s, name); RemovedOnly(Issue(s, name), s.requestId, other); }
    NewId(s.pending, s.requestId);
  }

  lemma IssuedOnly(s: State, name: string, other: nat)
    ensures Waits(Issue(s, name).pending, other) <==> Waits(s.pending, other) || other == s.requestId
  {
    var pending := Issue(s, name).pending;
    if i :| 0 <= i < |s.pending| && s.pending[i].id == other { assert pending[i].id == other; }
    if i :| 0 <= i < |pending| && pending[i].id == other { assert i < |s.pending| ==> s.pending[i].id == other; }
    assert pending[|s.pending|].id == s.requestId;
  }

  lemma RemovedOnly(s: State, id: nat, other: nat)
    requires Sound(s)
    ensures Waits(Remove(s.pending, id), other) <==> other != id && Waits(s.pending, other)
  {
    PendingInOrder(s);
    RemoveExactly(s.pending, id, s.requestId);
  }

  /** A timeout rejects its request if that one still waits, and nothing else. */
  lemma {:induction false} TimeoutsReject(events: seq<Event>, id: nat, other: nat)
    ensures var s, after := Run(INITIAL, events), Run(INITIAL, events + [Timeout(id)]);
      && after.settled == s.settled + (if Waits(s.pending, id) then [Settlement(id, TimedOut)] else [])
      && (Waits(after.pending, other) <==> other != id && Waits(s.pending, other))
  {
    hide Run, Remove;
    RunOne(events, Timeout(id));
    RunSound(events);
    var s := Run(INITIAL, events);
    RemovedOnly(s, id, other);
    IdsWait(s.pending);
  }

  /** When the socket is lost everything that waits is rejected, in the order in which it was issued. */
  lemma {:induction false} LossRejects(events: seq<Event>, e: Event)
    requires e.Closed? || e.Errored?
    ensures var s, after := Run(INITIAL, events), Run(INITIAL, events + [e]);
      && |after.settled| == |s.settled| + |s.pending| && after.settled[..|s.settled|] == s.settled
      && (forall i :: 0 <= i < |s.pending| ==> after.settled[|s.settled| + i] == Settlement(s.pending[i].id, Dropped))
      && (forall i, j :: 0 <= i < j < |s.pending| ==> s.pending[i].id < s.pending[j].id)
  {
    hide Run, Sound, Explains;
    RunOne(events, e);
    RunSound(events);
    var s := Run(INITIAL, events);
    PendingInOrder(s);
    AllDropped(s, e);
  }

  lemma AllDropped(s: State, e: Event)
    requires e.Closed? || e.Errored?
    ensures Step(s, e).settled == s.settled + DroppedAll(s.pending)
  {}

  /** The socket is the one that was opened last, unless it was closed since, by its own end or on purpose. */
  lemma {:induction false} SocketIsExact(events: seq<Event>, e: Event)
    ensures var s, after := Run(INITIAL, events), Run(INITIAL, events + [e]);
      after.socket ==
        match e
        case Opened(number) => Some(number)
        case Closed(number) => if s.socket == Some(number) then None else s.socket
        case Close => None
        case _ => s.socket
    ensures e.Opened? || e.Close? ==>
      Run(INITIAL, events + [e]) == Run(INITIAL, events).(socket := Run(INITIAL, events + [e]).socket)
  {
    hide Run;
    RunOne(events, e);
  }
}
