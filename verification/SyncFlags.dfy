/** The flags and timers that decide when a Primary synchronizes. */
module SyncFlags {
  import opened Options

  datatype Config = Config(primary: bool, autoSync: bool)

  /** A synchronization under way: when it started, and the revision it started from. */
  datatype Sync = Sync(startedAt: nat, revision: nat, dryRun: bool, force: bool)

  /** A synchronization that ended by clearing the flag for pending changes. */
  datatype Clearing = Clearing(startedAt: nat, endedAt: nat)

  /** `clock` counts steps; `changes` are the times of the changes noticed since the last `Configure`, and
      `clearings` the synchronizations that cleared the flag. These three only record the past. */
  datatype State = State(config: Option<Config>, client: bool, pending: bool, syncing: bool, revision: nat,
                         trailing: bool, timer: bool, running: seq<Sync>, clock: nat, changes: seq<nat>,
                         clearings: seq<Clearing>)

  /** How a synchronization ends. */
  datatype End = Unchanged | UnknownPeer | Succeeded | PushFailed | Superseded | Broken

  datatype Event =
    | Changes
    | Reconnected
    | RetryWithoutSnapshot
    | TimerFires(loadAllowed: bool)
    | SyncNow(force: bool, dryRun: bool, reconcile: bool, loadAllowed: bool)
    | Finish(end: End)
    | Stop
    | Configure(next: Config)
    | Invalid

  const INITIAL: State := State(None, false, false, false, 0, false, false, [], 0, [], [])

  // ---------------------------------------------------------------------------
  // Steps
  // ---------------------------------------------------------------------------

  predicate Automatic(s: State) {
    s.config.Some? && s.config.value.primary && s.config.value.autoSync
  }

  function ScheduleEventSync(s: State): State {
    s.(timer := Automatic(s) && s.pending)
  }

  function Noticed(s: State): State {
    s.(revision := s.revision + 1, pending := true, changes := s.changes + [s.clock])
  }

  function StartOrDefer(s: State, force: bool, dryRun: bool, reconcile: bool, loadAllowed: bool): State {
    if s.config.None? || !s.client || !s.config.value.primary then s
    else if !dryRun && !force && !reconcile && !s.pending then s
    else if !dryRun && !force && !loadAllowed then ScheduleEventSync(s)
    else if s.syncing then (if dryRun then s else s.(trailing := s.trailing || s.pending))
    else s.(syncing := true, running := s.running + [Sync(s.clock, s.revision, dryRun, force)])
  }

  /** The flag after a synchronization, before the final bookkeeping. */
  function PendingAfter(s: State, sync: Sync, end: End): bool {
    match end
    case Unchanged => s.revision != sync.revision
    case UnknownPeer => s.pending
    case Succeeded => if sync.dryRun then s.pending else s.revision != sync.revision
    case PushFailed => if sync.dryRun then s.pending else true
    case Superseded => true
    case Broken => s.pending
  }

  /** An end that sets the flag to false. */
  predicate Clears(s: State, sync: Sync, end: End) {
    !sync.dryRun && (end.Succeeded? || end.Unchanged?) && s.revision == sync.revision
  }

  function Ended(s: State, sync: Sync, end: End): State
    requires s.running != []
  {
    s.(pending := PendingAfter(s, sync, end), syncing := false, running := s.running[1..],
       clearings := if Clears(s, sync, end) then s.clearings + [Clearing(sync.startedAt, s.clock)] else s.clearings)
  }

  /** A synchronization that was asked for in the meantime, or is needed for a later change, gets its timer. */
  function Trailing(s: State, sync: Sync): State {
    if !sync.dryRun && (s.trailing || s.revision != sync.revision) then ScheduleEventSync(s.(trailing := false)) else s
  }

  function FinishSync(s: State, sync: Sync, end: End): State
    requires s.running != []
  {
    Trailing(Ended(s, sync, end), sync)
  }

  /** Only a synchronization that is neither forced nor a preview ends because nothing changed, or gives up
      because the configuration changed again. */
  predicate MayEnd(s: State, sync: Sync, end: End) {
    && (end.Superseded? ==> !sync.force && !sync.dryRun && s.revision != sync.revision)
    && (end.Unchanged? ==> !sync.force && !sync.dryRun)
  }

  function StepAt(s: State, e: Event): State {
    match e
    case Changes => if Automatic(s) then ScheduleEventSync(Noticed(s)) else s
    case Reconnected => ScheduleEventSync(Noticed(s))
    case RetryWithoutSnapshot => ScheduleEventSync(s.(pending := true))
    case TimerFires(loadAllowed) =>
      if !s.timer then s
      else if s.syncing then s.(timer := false, trailing := true)
      else StartOrDefer(s.(timer := false), false, false, false, loadAllowed)
    case SyncNow(force, dryRun, reconcile, loadAllowed) => StartOrDefer(s, force, dryRun, reconcile, loadAllowed)
    case Finish(end) => if s.running != [] && MayEnd(s, s.running[0], end) then FinishSync(s, s.running[0], end) else s
    case Stop => s.(timer := false, trailing := false, client := false)
    case Configure(next) => s.(config := Some(next), client := true, pending := false, changes := [])
    case Invalid => s.(config := None, client := false, pending := false, changes := [])
  }

  function Step(s: State, e: Event): State {
    var after := StepAt(s, e);
    after.(clock := s.clock + 1)
  }

  function Run(events: seq<Event>): State {
    if events == [] then INITIAL else Step(Run(events[..|events| - 1]), events[|events| - 1])
  }

  // ---------------------------------------------------------------------------
  // The service
  // ---------------------------------------------------------------------------

  class RemoteSyncService {
    var config: Option<Config>
    var client: bool
    var pendingChanges: bool
    var syncing: bool
    var configurationRevision: nat
    var trailingSyncRequested: bool
    var eventSyncTimer: bool
    var running: seq<Sync>
    var clock: nat
    ghost var changes: seq<nat>
    ghost var clearings: seq<Clearing>

    ghost function View(): State
      reads this
    {
      State(config, client, pendingChanges, syncing, configurationRevision, trailingSyncRequested, eventSyncTimer,
            running, clock, changes, clearings)
    }

    constructor ()
      ensures View() == INITIAL
    {
      config, client, pendingChanges, syncing := None, false, false, false;
      configurationRevision, trailingSyncRequested, eventSyncTimer, running := 0, false, false, [];
      clock, changes, clearings := 0, [], [];
    }

    method Schedule()
      modifies this`eventSyncTimer
      ensures View() == ScheduleEventSync(old(View()))
    {
      eventSyncTimer := false;
      if config.None? || !config.value.primary || !config.value.autoSync || !pendingChanges { return; }
      eventSyncTimer := true;
    }

    method ConfigurationEvents()
      modifies this
      ensures View() == Step(old(View()), Changes)
    {
      if config.Some? && config.value.primary && config.value.autoSync {
        configurationRevision := configurationRevision + 1;
        pendingChanges := true;
        changes := changes + [clock];
        Schedule();
      }
      clock := clock + 1;
    }

    method OnReconnected()
      modifies this
      ensures View() == Step(old(View()), Reconnected)
    {
      pendingChanges := true;
      configurationRevision := configurationRevision + 1;
      changes := changes + [clock];
      Schedule();
      clock := clock + 1;
    }

    method OnRetryWithoutSnapshot()
      modifies this
      ensures View() == Step(old(View()), RetryWithoutSnapshot)
    {
      pendingChanges := true;
      Schedule();
      clock := clock + 1;
    }

    method Start(force: bool, dryRun: bool, reconcile: bool, loadAllowed: bool)
      modifies this
      ensures View() == StartOrDefer(old(View()), force, dryRun, reconcile, loadAllowed)
    {
      if config.None? || !client { return; }
      if !config.value.primary { return; }
      if !dryRun && !force && !reconcile && !pendingChanges { return; }
      if !dryRun && !force && !loadAllowed {
        Schedule();
        return;
      }
      if syncing {
        if !dryRun { trailingSyncRequested := trailingSyncRequested || pendingChanges; }
        return;
      }
      syncing := true;
      running := running + [Sync(clock, configurationRevision, dryRun, force)];
    }

    method RequestSync(force: bool, dryRun: bool, reconcile: bool, loadAllowed: bool)
      modifies this
      ensures View() == Step(old(View()), SyncNow(force, dryRun, reconcile, loadAllowed))
    {
      Start(force, dryRun, reconcile, loadAllowed);
      clock := clock + 1;
    }

    method OnEventTimer(loadAllowed: bool)
      modifies this
      ensures View() == Step(old(View()), TimerFires(loadAllowed))
    {
      if eventSyncTimer {
        eventSyncTimer := false;
        if syncing {
          trailingSyncRequested := true;
        } else {
          Start(false, false, false, loadAllowed);
        }
      }
      clock := clock + 1;
    }

    /** The rest of a synchronization, from its last wait on. */
    method Complete(end: End)
      requires running != [] && MayEnd(View(), running[0], end)
      modifies this
      ensures View() == Step(old(View()), Finish(end))
    {
      var sync := running[0];
      FinishNow(sync, end);
      clock := clock + 1;
    }

    method FinishNow(sync: Sync, end: End)
      requires running != []
      modifies `pendingChanges, `syncing, `running, `clearings, `trailingSyncRequested, `eventSyncTimer
      ensures View() == FinishSync(old(View()), sync, end)
    {
      hide Ended, Trailing;
      EndNow(sync, end);
      ScheduleTrailing(sync);
    }

    method EndNow(sync: Sync, end: End)
      requires running != []
      modifies `pendingChanges, `syncing, `running, `clearings
      ensures View() == Ended(old(View()), sync, end)
    {
      hide PendingAfter, Clears;
      ghost var cleared := Clears(View(), sync, end);
      SetPending(sync, end);
      syncing := false;
      running := running[1..];
      clearings := if cleared then clearings + [Clearing(sync.startedAt, clock)] else clearings;
    }

    method ScheduleTrailing(sync: Sync)
      modifies `trailingSyncRequested, `eventSyncTimer
      ensures View() == Trailing(old(View()), sync)
    {
      if !sync.dryRun && (trailingSyncRequested || configurationRevision != sync.revision) {
        trailingSyncRequested := false;
        Schedule();
      }
    }

    method SetPending(sync: Sync, end: End)
      modifies this`pendingChanges
      ensures pendingChanges == PendingAfter(old(View()), sync, end)
    {
      match end {
        case Unchanged => pendingChanges := configurationRevision != sync.revision;
        case Succeeded => if !sync.dryRun { pendingChanges := configurationRevision != sync.revision; }
        case PushFailed => if !sync.dryRun { pendingChanges := true; }
        case Superseded => pendingChanges := true;
        case _ =>
      }
    }

    method StopTimers()
      modifies this
      ensures View() == Step(old(View()), Stop)
    {
      eventSyncTimer, trailingSyncRequested, client := false, false, false;
      clock := clock + 1;
    }

    method UseConfiguration(next: Config)
      modifies this
      ensures View() == Step(old(View()), Configure(next))
    {
      config, client, pendingChanges := Some(next), true, false;
      changes := [];
      clock := clock + 1;
    }

    method RejectConfiguration()
      modifies this
      ensures View() == Step(old(View()), Invalid)
    {
      config, client, pendingChanges := None, false, false;
      changes := [];
      clock := clock + 1;
    }
  }

  // ---------------------------------------------------------------------------
  // Invariants
  // ---------------------------------------------------------------------------

  ghost predicate OneSync(s: State) {
    |s.running| <= 1 && (s.syncing <==> |s.running| == 1)
  }

  /** All recorded times lie in the past. */
  ghost predicate PastTimes(s: State) {
    && (forall i :: 0 <= i < |s.changes| ==> s.changes[i] < s.clock)
    && (forall i :: 0 <= i < |s.running| ==> s.running[i].startedAt < s.clock && s.running[i].revision <= s.revision)
    && (forall i :: 0 <= i < |s.clearings| ==> s.clearings[i].startedAt < s.clearings[i].endedAt < s.clock)
  }

  /** A change during a running synchronization shows in the revision, and keeps the flag set. */
  ghost predicate ChangesShow(s: State) {
    forall i, k :: 0 <= i < |s.running| && 0 <= k < |s.changes| && s.changes[k] >= s.running[i].startedAt ==>
      s.revision > s.running[i].revision && s.pending
  }

  /** The change at `time` was followed by the start of a synchronization that cleared the flag. */
  ghost predicate CoveredAt(s: State, time: nat) {
    exists c :: 0 <= c < |s.clearings| && time < s.clearings[c].startedAt
  }

  ghost predicate Covered(s: State) {
    !s.pending ==> forall k :: 0 <= k < |s.changes| ==> CoveredAt(s, s.changes[k])
  }

  ghost predicate Sound(s: State) {
    OneSync(s) && PastTimes(s) && ChangesShow(s) && Covered(s)
  }

  // ---------------------------------------------------------------------------
  // What a step changes
  // ---------------------------------------------------------------------------

  /** The event counts as a change of the configuration. */
  predicate Notices(s: State, e: Event) {
    e.Reconnected? || (e.Changes? && Automatic(s))
  }

  predicate Forgets(e: Event) {
    e.Configure? || e.Invalid?
  }

  predicate Ends(s: State, e: Event) {
    e.Finish? && s.running != [] && MayEnd(s, s.running[0], e.end)
  }

  predicate CanStart(s: State, force: bool, dryRun: bool, reconcile: bool, loadAllowed: bool) {
    && s.config.Some? && s.client && s.config.value.primary && !s.syncing
    && (dryRun || force || reconcile || s.pending) && (dryRun || force || loadAllowed)
  }

  /** The synchronization that the event starts, if it starts one. */
  function Started(s: State, e: Event): seq<Sync> {
    match e
    case TimerFires(loadAllowed) =>
      if s.timer && CanStart(s, false, false, false, loadAllowed) then [Sync(s.clock, s.revision, false, false)] else []
    case SyncNow(force, dryRun, reconcile, loadAllowed) =>
      if CanStart(s, force, dryRun, reconcile, loadAllowed) then [Sync(s.clock, s.revision, dryRun, force)] else []
    case _ => []
  }

  /** What the step from `s` to `r` does to every field but the timer and the trailing request. */
  ghost predicate Effects(s: State, e: Event, r: State) {
    && r.clock == s.clock + 1
    && r.revision == s.revision + (if Notices(s, e) then 1 else 0)
    && r.changes == (if Forgets(e) then [] else if Notices(s, e) then s.changes + [s.clock] else s.changes)
    && r.running == (if Ends(s, e) then s.running[1..] else s.running + Started(s, e))
    && r.clearings == (if Ends(s, e) && Clears(s, s.running[0], e.end)
                       then s.clearings + [Clearing(s.running[0].startedAt, s.clock)] else s.clearings)
    && r.syncing == (!Ends(s, e) && (s.syncing || Started(s, e) != []))
    && r.pending == (if Forgets(e) then false else if Notices(s, e) || e.RetryWithoutSnapshot? then true
                     else if Ends(s, e) then PendingAfter(s, s.running[0], e.end) else s.pending)
    && (Started(s, e) != [] ==> !s.syncing && !Ends(s, e))
  }

  lemma {:induction false} StepEffects(s: State, e: Event)
    ensures Effects(s, e, Step(s, e))
  {
    hide Effects, Step;
    if e.TimerFires? { TimerEffects(s, e); }
    else if e.SyncNow? { RequestEffects(s, e); }
    else if e.Finish? { EndEffects(s, e); }
    else { OtherEffects(s, e); }
  }

  lemma TimerEffects(s: State, e: Event)
    requires e.TimerFires?
    ensures Effects(s, e, Step(s, e))
  {
    hide PendingAfter, Clears, Automatic, MayEnd, StartOrDefer, CanStart;
    StartEffects(s.(timer := false), false, false, false, e.loadAllowed);
  }

  lemma RequestEffects(s: State, e: Event)
    requires e.SyncNow?
    ensures Effects(s, e, Step(s, e))
  {
    hide PendingAfter, Clears, Automatic, MayEnd, StartOrDefer, CanStart;
    StartEffects(s, e.force, e.dryRun, e.reconcile, e.loadAllowed);
  }

  lemma EndEffects(s: State, e: Event)
    requires e.Finish?
    ensures Effects(s, e, Step(s, e))
  {
    hide PendingAfter, Clears, Automatic, MayEnd, FinishSync;
    if s.running != [] { FinishEffects(s, s.running[0], e.end); }
  }

  lemma OtherEffects(s: State, e: Event)
    requires !e.TimerFires? && !e.SyncNow? && !e.Finish?
    ensures Effects(s, e, Step(s, e))
  {
    hide PendingAfter, Clears, Automatic, MayEnd;
  }

  lemma StartEffects(s: State, force: bool, dryRun: bool, reconcile: bool, loadAllowed: bool)
    ensures var r := StartOrDefer(s, force, dryRun, reconcile, loadAllowed);
      r == if CanStart(s, force, dryRun, reconcile, loadAllowed)
        then s.(syncing := true, running := s.running + [Sync(s.clock, s.revision, dryRun, force)])
        else s.(timer := r.timer, trailing := r.trailing)
    ensures CanStart(s, force, dryRun, reconcile, loadAllowed) ==> !s.syncing
    ensures CanStart(s, force, dryRun, reconcile, loadAllowed) <==>
      CanStart(s.(timer := !s.timer), force, dryRun, reconcile, loadAllowed)
  {}

  lemma FinishEffects(s: State, sync: Sync, end: End)
    requires s.running != []
    ensures var r := FinishSync(s, sync, end);
      r == s.(timer := r.timer, trailing := r.trailing, syncing := false, running := s.running[1..],
              pending := PendingAfter(s, sync, end),
              clearings :=
                if Clears(s, sync, end) then s.clearings + [Clearing(sync.startedAt, s.clock)] else s.clearings)
  {
    hide PendingAfter, Clears, Automatic;
  }

  // ---------------------------------------------------------------------------
  // Every step keeps the invariants
  // ---------------------------------------------------------------------------

  lemma {:induction false} StepSound(s: State, e: Event)
    requires Sound(s)
    ensures Sound(Step(s, e))
  {
    hide Step, PastTimes, ChangesShow, Covered, Notices, Started, PendingAfter, MayEnd, Clears;
    StepEffects(s, e);
    StartedNow(s, e);
    StepPast(s, e);
    StepShows(s, e);
    StepCovers(s, e);
  }

  lemma {:induction false} StepPast(s: State, e: Event)
    requires OneSync(s) && PastTimes(s)
    ensures PastTimes(Step(s, e))
  {
    hide Step, Notices, PendingAfter, MayEnd, Clears;
    StepEffects(s, e);
    StartedNow(s, e);
  }

  lemma StartedNow(s: State, e: Event)
    ensures forall i :: 0 <= i < |Started(s, e)| ==>
      Started(s, e)[i].startedAt == s.clock && Started(s, e)[i].revision == s.revision
    ensures |Started(s, e)| <= 1
  {}

  lemma {:induction false} StepShows(s: State, e: Event)
    requires OneSync(s) && PastTimes(s) && ChangesShow(s)
    ensures ChangesShow(Step(s, e))
  {
    hide Step, Notices, MayEnd, Clears, PendingAfter;
    StepEffects(s, e);
    StartedNow(s, e);
  }

  /** Times that were covered stay covered. */
  lemma StaysCovered(s: State, r: State, time: nat)
    requires s.clearings <= r.clearings && CoveredAt(s, time)
    ensures CoveredAt(r, time)
  {
    var c :| 0 <= c < |s.clearings| && time < s.clearings[c].startedAt;
    assert r.clearings[c] == s.clearings[c];
  }

  lemma StepCovers(s: State, e: Event)
    requires Sound(s)
    ensures Covered(Step(s, e))
  {
    hide Step, CoveredAt, PastTimes, Notices;
    StepEffects(s, e);
    var r := Step(s, e);
    if !r.pending && !Forgets(e) {
      forall k | 0 <= k < |r.changes| ensures CoveredAt(r, r.changes[k]) {
        if Ends(s, e) && Clears(s, s.running[0], e.end) {
          ClearingCovers(s, r, s.changes[k]);
        } else {
          StaysCovered(s, r, s.changes[k]);
        }
      }
    }
  }

  lemma ClearingCovers(s: State, r: State, time: nat)
    requires s.running != [] && time < s.running[0].startedAt
    requires r.clearings == s.clearings + [Clearing(s.running[0].startedAt, s.clock)]
    ensures CoveredAt(r, time)
  {
    assert r.clearings[|s.clearings|].startedAt == s.running[0].startedAt;
  }

  lemma {:induction false} RunSound(events: seq<Event>)
    ensures Sound(Run(events)) && Run(events).clock == |events|
  {
    hide Sound, Step;
    if events == [] {
      InitialSound();
    } else {
      var before := Run(events[..|events| - 1]);
      RunSound(events[..|events| - 1]);
      StepSound(before, events[|events| - 1]);
      StepEffects(before, events[|events| - 1]);
    }
  }

  lemma InitialSound()
    ensures Sound(INITIAL)
  {}

  lemma RunMore(events: seq<Event>, e: Event)
    ensures Run(events + [e]) == Step(Run(events), e)
  {
    assert (events + [e])[..|events|] == events;
  }

  // ---------------------------------------------------------------------------
  // Over all interleavings
  // ---------------------------------------------------------------------------

  /** At most one synchronization runs, and the flag tells whether one does. */
  lemma {:induction false} AtMostOneSync(events: seq<Event>)
    ensures |Run(events).running| <= 1 && (Run(events).syncing <==> |Run(events).running| == 1)
  {
    hide Run;
    RunSound(events);
  }

  /** The event at `t` was noticed, and the configuration stayed since. */
  ghost predicate NoticedAt(events: seq<Event>, t: nat) {
    t < |events| && Notices(Run(events[..t]), events[t]) && forall j :: t < j < |events| ==> !Forgets(events[j])
  }

  lemma NoticedNext(events: seq<Event>, t: nat)
    requires events != []
    ensures var n := |events| - 1;
      NoticedAt(events, t) <==>
        (if t == n then Notices(Run(events[..n]), events[n]) else NoticedAt(events[..n], t) && !Forgets(events[n]))
  {
    hide Run, Notices, Forgets;
    var n := |events| - 1;
    if t < n {
      assert events[..n][..t] == events[..t] && events[..n][t] == events[t];
      assert forall j :: t < j < n ==> events[..n][j] == events[j];
    }
  }

  /** The recorded changes are the events that were noticed since the last configuration. */
  lemma {:induction false} ChangesAreEvents(events: seq<Event>, t: nat)
    ensures t in Run(events).changes <==> NoticedAt(events, t)
  {
    hide Step, Automatic, Started, PendingAfter, MayEnd, Clears, NoticedAt, Sound;
    if events == [] {
      assert !NoticedAt(events, t) by { NothingNoticed(t); }
    } else {
      var n := |events| - 1;
      ChangesAreEvents(events[..n], t);
      RunSound(events[..n]);
      StepEffects(Run(events[..n]), events[n]);
      NoticedNext(events, t);
      if t >= n { assert !NoticedAt(events[..n], t) by { NotNoticedYet(events[..n], t); } }
    }
  }

  lemma NothingNoticed(t: nat)
    ensures !NoticedAt([], t)
  {}

  lemma NotNoticedYet(events: seq<Event>, t: nat)
    requires t >= |events|
    ensures !NoticedAt(events, t)
  {}

  /** At this time a synchronization that had started at `start` ended by clearing the flag. */
  ghost predicate ClearsAt(events: seq<Event>, start: nat, end: nat) {
    && start < end < |events| && events[end].Finish?
    && var s := Run(events[..end]);
       s.running != [] && s.running[0].startedAt == start && Clears(s, s.running[0], events[end].end)
         && !Run(events[..end + 1]).pending
  }

  lemma {:induction false} ClearsStill(events: seq<Event>, start: nat, end: nat)
    requires events != [] && ClearsAt(events[..|events| - 1], start, end)
    ensures ClearsAt(events, start, end)
  {
    hide Run, Clears;
    var before := events[..|events| - 1];
    assert before[..end] == events[..end] && before[..end + 1] == events[..end + 1];
  }

  lemma {:induction false} ClearingsAreEvents(events: seq<Event>, c: nat)
    requires c < |Run(events).clearings|
    ensures ClearsAt(events, Run(events).clearings[c].startedAt, Run(events).clearings[c].endedAt)
  {
    hide ClearsAt, Step, Notices, Started, PendingAfter, MayEnd, Clears, Sound;
    if events == [] { assert false; }
    var n := |events| - 1;
    var before, e := Run(events[..n]), events[n];
    StepEffects(before, e);
    RunSound(events[..n]);
    if c < |before.clearings| {
      assert Run(events).clearings[c] == before.clearings[c];
      ClearingsAreEvents(events[..n], c);
      ClearsStill(events, before.clearings[c].startedAt, before.clearings[c].endedAt);
    } else {
      ClearsNow(events);
    }
  }

  lemma {:induction false} ClearsNow(events: seq<Event>)
    requires events != [] && var n := |events| - 1;
      var s := Run(events[..n]);
      Sound(s) && s.clock == n && Ends(s, events[n]) && Clears(s, s.running[0], events[n].end)
    ensures ClearsAt(events, Run(events[..|events| - 1]).running[0].startedAt, |events| - 1)
  {
    hide Run, Step, MayEnd;
    var n := |events| - 1;
    assert events[..|events|] == events;
    assert events == events[..n] + [events[n]];
    RunMore(events[..n], events[n]);
    StepEffects(Run(events[..n]), events[n]);
  }

  /** Nothing is forgotten: when no change is pending, every change noticed since the last configuration came
      before the start of a synchronization that itself ended by clearing the flag. */
  lemma NoChangeIsForgotten(events: seq<Event>, t: nat)
    requires !Run(events).pending && NoticedAt(events, t)
    ensures exists start: nat, end: nat :: t < start && ClearsAt(events, start, end)
  {
    hide ClearsAt, NoticedAt, Run;
    var s := Run(events);
    RunSound(events);
    ChangesAreEvents(events, t);
    var k :| 0 <= k < |s.changes| && s.changes[k] == t;
    assert CoveredAt(s, s.changes[k]);
    var c: nat :| c < |s.clearings| && t < s.clearings[c].startedAt;
    ClearingsAreEvents(events, c);
  }

  /** At this step the synchronization was started, from the revision then, while none ran. */
  ghost predicate StartedAt(events: seq<Event>, at: nat, sync: Sync) {
    at < |events| && Run(events[..at]).running == [] && Run(events[..at]).revision == sync.revision
      && Run(events[..at + 1]).running == [sync]
  }

  lemma {:induction false} StartStays(events: seq<Event>, at: nat, sync: Sync)
    requires events != [] && StartedAt(events[..|events| - 1], at, sync)
    ensures StartedAt(events, at, sync)
  {
    hide Run;
    var before := events[..|events| - 1];
    assert before[..at] == events[..at] && before[..at + 1] == events[..at + 1];
  }

  lemma {:induction false} StartsNow(events: seq<Event>)
    requires events != [] && Run(events[..|events| - 1]).running == [] && Run(events).running != []
    ensures StartedAt(events, |events| - 1, Run(events).running[0]) && Run(events).running[0].startedAt == |events| - 1
  {
    hide Run, Step, Sound;
    var n := |events| - 1;
    assert events == events[..n] + [events[n]] && events[..|events|] == events;
    RunMore(events[..n], events[n]);
    FirstStart(Run(events[..n]), events[n]);
    RunSound(events[..n]);
  }

  /** The start that a running synchronization remembers is the step that started it. */
  lemma {:induction false} StartsAreEvents(events: seq<Event>)
    requires Run(events).running != []
    ensures StartedAt(events, Run(events).running[0].startedAt, Run(events).running[0])
  {
    hide Step, Notices, Started, MayEnd, Clears, StartedAt, Sound;
    if events == [] { assert false; }
    var n := |events| - 1;
    var before, e := Run(events[..n]), events[n];
    if before.running == [] {
      StartsNow(events);
    } else {
      StepEffects(before, e);
      AtMostOneSync(events[..n]);
      StartsAreEvents(events[..n]);
      NoSecondStart(before, e);
      StartStays(events, before.running[0].startedAt, before.running[0]);
    }
  }

  lemma {:induction false} NoSecondStart(s: State, e: Event)
    requires s.running != [] && |s.running| <= 1 && s.syncing
    ensures Step(s, e).running == s.running || Step(s, e).running == []
  {
    hide Step, Notices, MayEnd, Clears;
    StepEffects(s, e);
    assert s.running + [] == s.running;
  }

  lemma {:induction false} FirstStart(s: State, e: Event)
    requires s.running == [] && Step(s, e).running != []
    ensures var sync := Step(s, e).running[0];
      Step(s, e).running == [sync] && sync.startedAt == s.clock && sync.revision == s.revision
  {
    hide Step, Notices, MayEnd, Clears, CanStart;
    StepEffects(s, e);
    StartedNow(s, e);
  }

  /** A synchronization that is no preview and during which a change came ends with the change still pending,
      and on a Primary that synchronizes by itself with the timer armed. */
  lemma {:induction false} ChangesDuringSyncStayPending(events: seq<Event>, end: End, t: nat)
    requires Ends(Run(events), Finish(end)) && !Run(events).running[0].dryRun
    requires t in Run(events).changes && t >= Run(events).running[0].startedAt
    ensures var after := Run(events + [Finish(end)]); after.pending && (Automatic(Run(events)) ==> after.timer)
  {
    hide Run;
    var s := Run(events);
    RunMore(events, Finish(end));
    RunSound(events);
    var k :| 0 <= k < |s.changes| && s.changes[k] == t;
    assert s.revision > s.running[0].revision && s.pending;
  }

  /** The flag is cleared by nothing but the end of a synchronization without later changes, and a new
      configuration. */
  lemma {:induction false} OnlyQuietSyncsClear(events: seq<Event>, e: Event)
    ensures var s, after := Run(events), Run(events + [e]);
      s.pending && !after.pending <==> s.pending && (Forgets(e) || (Ends(s, e) && Clears(s, s.running[0], e.end)))
  {
    hide Run, Step, Automatic;
    RunMore(events, e);
    StepEffects(Run(events), e);
  }

  /** Without automatic synchronization an event changes nothing. */
  lemma EventsIgnored(events: seq<Event>)
    requires !Automatic(Run(events))
    ensures Run(events + [Changes]) == Run(events).(clock := Run(events).clock + 1)
  {
    hide Run;
    RunMore(events, Changes);
  }

  // ---------------------------------------------------------------------------
  // The timer
  // ---------------------------------------------------------------------------

  /** A Primary that synchronizes by itself. */
  predicate Itself(config: Option<Config>) {
    config.Some? && config.value.primary && config.value.autoSync
  }

  /** A change that is noticed, and a retry that finds no snapshot, arm the timer exactly on a Primary that
      synchronizes by itself. */
  lemma {:induction false} ChangesArmTheTimer(events: seq<Event>, e: Event)
    requires Notices(Run(events), e) || e.RetryWithoutSnapshot?
    ensures Run(events + [e]).pending && (Run(events + [e]).timer <==> Itself(Run(events).config))
  {
    hide Run;
    RunMore(events, e);
  }

  /** An armed timer goes out only by firing, by stopping, or when it is scheduled anew while nothing is pending or
      the node does not synchronize by itself. */
  lemma {:induction false} TimersGoOut(events: seq<Event>, e: Event)
    requires Run(events).timer && !Run(events + [e]).timer
    ensures var after := Run(events + [e]); e.TimerFires? || e.Stop? || !after.pending || !Itself(after.config)
  {
    hide Run;
    RunMore(events, e);
  }

  /** A request that the guards let through is put off under load, and otherwise waits for the synchronization that
      runs, or starts one. */
  predicate PutOff(s: State, force: bool, dryRun: bool, reconcile: bool, loadAllowed: bool) {
    && s.config.Some? && s.config.value.primary && s.client && !dryRun && !force && (reconcile || s.pending)
    && !loadAllowed
  }

  /** Whether the timer runs after each event. */
  lemma {:induction false} TimerIsExact(events: seq<Event>, e: Event)
    ensures var s, after := Run(events), Run(events + [e]);
      after.timer <==>
        match e
        case Changes => s.timer || Itself(s.config)
        case Reconnected => Itself(s.config)
        case RetryWithoutSnapshot => Itself(s.config)
        case TimerFires(loadAllowed) =>
          s.timer && !s.syncing && PutOff(s, false, false, false, loadAllowed) && Itself(s.config)
        case SyncNow(force, dryRun, reconcile, loadAllowed) =>
          if PutOff(s, force, dryRun, reconcile, loadAllowed) then s.pending && Itself(s.config) else s.timer
        case Finish(_) =>
          if Ends(s, e) && !s.running[0].dryRun && (s.trailing || s.revision != s.running[0].revision)
          then after.pending && Itself(s.config) else s.timer
        case Stop => false
        case Configure(_) => s.timer
        case Invalid => s.timer
  {
    hide Run, PendingAfter, Clears, MayEnd;
    RunMore(events, e);
  }

  /** Whether a trailing synchronization is asked for after each event. */
  lemma {:induction false} TrailingIsExact(events: seq<Event>, e: Event)
    ensures var s, after := Run(events), Run(events + [e]);
      after.trailing <==>
        match e
        case TimerFires(_) => s.trailing || (s.timer && s.syncing)
        case SyncNow(force, dryRun, reconcile, loadAllowed) =>
          s.trailing || (s.syncing && s.pending && !dryRun && s.config.Some? && s.config.value.primary && s.client
                         && !PutOff(s, force, dryRun, reconcile, loadAllowed))
        case Finish(_) =>
          s.trailing && !(Ends(s, e) && !s.running[0].dryRun)
        case Stop => false
        case _ => s.trailing
  {
    hide Run, PendingAfter, Clears, MayEnd;
    RunMore(events, e);
  }

  /** The configuration, and whether there is a client, are as last set. */
  lemma {:induction false} ConfigurationIsExact(events: seq<Event>, e: Event)
    ensures var s, after := Run(events), Run(events + [e]);
      && after.config == (match e case Configure(next) => Some(next) case Invalid => None case _ => s.config)
      && after.client == (match e case Configure(_) => true case Invalid => false case Stop => false case _ => s.client)
  {
    hide Run, PendingAfter, Clears, MayEnd, Automatic;
    RunMore(events, e);
  }

  /** What counts as a change: a reconnect, and on a Primary that synchronizes by itself an event. */
  lemma {:induction false} RevisionCounts(events: seq<Event>, e: Event)
    ensures Run(events + [e]).revision == Run(events).revision
      + if e.Reconnected? || (e.Changes? && Itself(Run(events).config)) then 1 else 0
  {
    hide Run, Step;
    RunMore(events, e);
    StepEffects(Run(events), e);
  }

  /** The flag when a synchronization ends. A preview leaves it. Else a failed push or one that was overtaken sets it,
      and a success, or finding nothing new, sets it exactly when there was a change in the meantime. */
  lemma {:induction false} FlagAfterEnd(events: seq<Event>, end: End)
    requires Ends(Run(events), Finish(end))
    ensures var s, after := Run(events), Run(events + [Finish(end)]);
      var changed := s.revision != s.running[0].revision;
      after.pending <==>
        match end
        case Unchanged => changed
        case UnknownPeer => s.pending
        case Succeeded => if s.running[0].dryRun then s.pending else changed
        case PushFailed => s.running[0].dryRun ==> s.pending
        case Superseded => true
        case Broken => s.pending
  {
    hide Run, Step;
    RunMore(events, Finish(end));
    StepEffects(Run(events), Finish(end));
  }

  /** A synchronization ends on the event that says so; but only one that is neither forced nor a preview finds
      nothing new, or is overtaken, and that only by a change. */
  lemma {:induction false} EndsExactly(events: seq<Event>, end: End)
    requires Run(events).running != []
    ensures var s, after := Run(events), Run(events + [Finish(end)]);
      after.syncing <==>
        || ((s.running[0].force || s.running[0].dryRun) && (end.Superseded? || end.Unchanged?))
        || (end.Superseded? && s.revision == s.running[0].revision)
  {
    hide Run, Step;
    AtMostOneSync(events);
    RunMore(events, Finish(end));
    StepEffects(Run(events), Finish(end));
  }

  /** A request starts a synchronization exactly when a Primary has a client, nothing runs, there is something to do
      or it is forced, a preview or a reconciliation, and the load allows it or it is forced or a preview. */
  lemma {:induction false} StartsExactly(events: seq<Event>, e: Event)
    requires !Run(events).syncing
    ensures var s, after := Run(events), Run(events + [e]);
      after.syncing <==>
        && s.config.Some? && s.config.value.primary && s.client
        && match e
           case TimerFires(loadAllowed) => s.timer && s.pending && loadAllowed
           case SyncNow(force, dryRun, reconcile, loadAllowed) =>
             (force || dryRun || reconcile || s.pending) && (force || dryRun || loadAllowed)
           case _ => false
    ensures Run(events + [e]).syncing ==>
      Run(events + [e]).running == [Sync(|events|, Run(events).revision, e.SyncNow? && e.dryRun, e.SyncNow? && e.force)]
  {
    hide Run, Step, MayEnd;
    AtMostOneSync(events);
    RunSound(events);
    RunMore(events, e);
    StepEffects(Run(events), e);
  }
}
