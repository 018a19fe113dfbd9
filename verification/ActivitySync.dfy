/** Activity states: numbered by a Primary, shuffled by a network, applied by a Satellite. */
module ActivitySync {
  import opened Options

  /** A reported state, trimmed and upper-cased. */
  datatype ActivityState = ON | OFF | STARTING | STOPPING | OTHER

  datatype Action = TurnOn | TurnOff

  function ActionOf(state: ActivityState): Option<Action> {
    match state
    case ON => Some(TurnOn)
    case OFF => Some(TurnOff)
    case _ => None
  }

  predicate Matches(state: ActivityState, action: Action) {
    match action
    case TurnOn => state == ON || state == STARTING
    case TurnOff => state == OFF || state == STOPPING
  }

  datatype Version = Version(epoch: string, revision: int)

  datatype Update = Update(activity: string, state: ActivityState, version: Version)

  // ---------------------------------------------------------------------------
  // Primary
  // ---------------------------------------------------------------------------

  datatype Primary = Primary(epoch: string, revisions: map<string, nat>, observed: map<string, ActivityState>,
                             sent: seq<Update>)

  function RevisionOf(p: Primary, activity: string): nat {
    if activity in p.revisions then p.revisions[activity] else 0
  }

  function Publish(p: Primary, activity: string, state: ActivityState): Primary {
    var revision := RevisionOf(p, activity) + 1;
    p.(revisions := p.revisions[activity := revision],
       sent := p.sent + [Update(activity, state, Version(p.epoch, revision))])
  }

  /** A state event: states that are no action, and repetitions of the last observed state, are not numbered. */
  function Broadcast(p: Primary, activity: string, state: ActivityState): Primary {
    if ActionOf(state).None? || (activity in p.observed && p.observed[activity] == state) then p
    else Publish(p.(observed := p.observed[activity := state]), activity, state)
  }

  /** A snapshot state sent after a successful push is numbered without looking at what was observed. */
  function Initialize(p: Primary, activity: string, state: ActivityState): Primary {
    if ActionOf(state).None? then p else Publish(p, activity, state)
  }

  // ---------------------------------------------------------------------------
  // Satellite
  // ---------------------------------------------------------------------------

  datatype Outcome = Refused | Stale | AlreadyThere | Changed | CommandFailed

  /** Where one `apply` call stands: chained behind its predecessor, awaiting the current state, awaiting the
      command, or settled. */
  datatype Phase = Queued | Reading | Commanding | Settled(outcome: Outcome)

  datatype Task = Task(update: Update, previous: Option<nat>, phase: Phase)

  /** What happens to the suppression of relays of one activity and action: a command is sent and arms it, the
      command fails and withdraws it, a relay uses it up. */
  datatype Note =
    | Armed(key: (string, Action), at: int)
    | Withdrawn(key: (string, Action), at: int)
    | Relayed(key: (string, Action), suppressed: bool, at: int)

  /** `tasks` are all `apply` calls in order of arrival; `devices` is the state of the Satellite activity each
      source activity is mapped to. */
  datatype Satellite = Satellite(
    tasks: seq<Task>,
    queues: map<string, nat>,
    versions: map<string, Version>,
    suppressions: map<(string, Action), int>,
    devices: map<string, ActivityState>,
    now: int,
    notes: seq<Note>)

  const SUPPRESSION_MS: int := 10_000

  predicate Versioned(v: Version) {
    v.epoch != "" && 1 <= v.revision <= 0x1F_FFFF_FFFF_FFFF
  }

  predicate IsStale(s: Satellite, u: Update) {
    && Versioned(u.version)
    && u.activity in s.versions
    && s.versions[u.activity].epoch == u.version.epoch
    && s.versions[u.activity].revision >= u.version.revision
  }

  function Record(s: Satellite, u: Update): Satellite {
    if Versioned(u.version) then s.(versions := s.versions[u.activity := u.version]) else s
  }

  function Move(s: Satellite, id: nat, phase: Phase): Satellite
    requires id < |s.tasks|
  {
    s.(tasks := s.tasks[id := s.tasks[id].(phase := phase)])
  }

  function Device(s: Satellite, activity: string): ActivityState {
    if activity in s.devices then s.devices[activity] else OTHER
  }

  /** A delivered update is chained behind the last unsettled one of its activity. */
  function Arrive(s: Satellite, u: Update): Satellite {
    var previous := if u.activity in s.queues then Some(s.queues[u.activity]) else None;
    s.(tasks := s.tasks + [Task(u, previous, Queued)], queues := s.queues[u.activity := |s.tasks|])
  }

  predicate MayBegin(s: Satellite, id: nat) {
    && id < |s.tasks| && s.tasks[id].phase == Queued
    && (s.tasks[id].previous.None?
        || (s.tasks[id].previous.value < |s.tasks| && s.tasks[s.tasks[id].previous.value].phase.Settled?))
  }

  /** From the start of the chained function up to its first await. `accepted` is false when the node is no
      active Satellite or has no mapping for the activity. */
  function Begin(s: Satellite, id: nat, accepted: bool): Satellite {
    if !MayBegin(s, id) then s
    else
      var u := s.tasks[id].update;
      if !accepted || ActionOf(u.state).None? then Move(s, id, Settled(Refused))
      else if IsStale(s, u) then Move(s, id, Settled(Stale))
      else Move(s, id, Reading)
  }

  /** The state read comes back, or fails; then nothing is needed, or the command is sent. */
  function ReadBack(s: Satellite, id: nat, readable: bool): Satellite {
    if id >= |s.tasks| || s.tasks[id].phase != Reading then s
    else
      var u := s.tasks[id].update;
      match ActionOf(u.state)
      case None => s
      case Some(action) =>
        if readable && Matches(Device(s, u.activity), action) then Record(Move(s, id, Settled(AlreadyThere)), u)
        else
          Move(s, id, Commanding).(
            suppressions := s.suppressions[(u.activity, action) := s.now + SUPPRESSION_MS],
            notes := s.notes + [Armed((u.activity, action), s.now)])
  }

  /** The command succeeds and has changed the activity, or fails and has not. */
  function Commanded(s: Satellite, id: nat, ok: bool): Satellite {
    if id >= |s.tasks| || s.tasks[id].phase != Commanding then s
    else
      var u := s.tasks[id].update;
      match ActionOf(u.state)
      case None => s
      case Some(action) =>
        if ok then Record(Move(s, id, Settled(Changed)), u).(devices := s.devices[u.activity := u.state])
        else
          Move(s, id, Settled(CommandFailed)).(
            suppressions := s.suppressions - {(u.activity, action)},
            notes := s.notes + [Withdrawn((u.activity, action), s.now)])
  }

  /** The `finally` of `apply`: the queue entry goes when it is still this call's. */
  function Release(s: Satellite, id: nat): Satellite {
    if id >= |s.tasks| || !s.tasks[id].phase.Settled? then s
    else
      var activity := s.tasks[id].update.activity;
      if activity in s.queues && s.queues[activity] == id then s.(queues := s.queues - {activity}) else s
  }

  /** A relay command from the Satellite: swallowed once by a live suppression, otherwise forwarded. */
  function Relay(s: Satellite, activity: string, action: Action): Satellite {
    var key := (activity, action);
    var suppressed := key in s.suppressions && s.suppressions[key] > s.now;
    s.(suppressions := s.suppressions - {key}, notes := s.notes + [Relayed(key, suppressed, s.now)])
  }

  // ---------------------------------------------------------------------------
  // Runs
  // ---------------------------------------------------------------------------

  datatype System = System(primary: Primary, satellite: Satellite)

  /** One atomic segment of either node. Deliveries name any update ever sent, in any order, any number of
      times or never. */
  datatype Step =
    | Observed(activity: string, state: ActivityState)
    | Initialized(activity: string, state: ActivityState)
    | Delivered(index: nat)
    | Begun(id: nat, accepted: bool)
    | Read(id: nat, readable: bool)
    | Command(id: nat, ok: bool)
    | Released(id: nat)
    | RelayCommand(activity: string, action: Action)
    | Tick(ms: nat)

  function Do(y: System, step: Step): System {
    var p, s := y.primary, y.satellite;
    match step
    case Observed(activity, state) => y.(primary := Broadcast(p, activity, state))
    case Initialized(activity, state) => y.(primary := Initialize(p, activity, state))
    case Delivered(index) => if index < |p.sent| then y.(satellite := Arrive(s, p.sent[index])) else y
    case Begun(id, accepted) => y.(satellite := Begin(s, id, accepted))
    case Read(id, readable) => y.(satellite := ReadBack(s, id, readable))
    case Command(id, ok) => y.(satellite := Commanded(s, id, ok))
    case Released(id) => y.(satellite := Release(s, id))
    case RelayCommand(activity, action) => y.(satellite := Relay(s, activity, action))
    case Tick(ms) => y.(satellite := s.(now := s.now + ms))
  }

  function Run(y: System, steps: seq<Step>): System {
    if steps == [] then y else Do(Run(y, steps[..|steps| - 1]), steps[|steps| - 1])
  }

  /** A Primary that has sent nothing in its epoch, and an idle Satellite that has seen nothing of that epoch. */
  ghost predicate Start(y: System) {
    && y.primary.epoch != "" && y.primary.revisions == map[] && y.primary.sent == [] && y.primary.observed == map[]
    && y.satellite.tasks == [] && y.satellite.queues == map[]
    && y.satellite.suppressions == map[] && y.satellite.notes == []
    && (forall a :: a in y.satellite.versions ==> y.satellite.versions[a].epoch != y.primary.epoch)
  }

  // ---------------------------------------------------------------------------
  // Numbering
  // ---------------------------------------------------------------------------

  /** Within an epoch each activity's updates carry strictly increasing revisions from 1 on. */
  ghost predicate Numbered(p: Primary) {
    && p.epoch != ""
    && (forall i :: 0 <= i < |p.sent| ==>
          var u := p.sent[i];
          u.version.epoch == p.epoch && 1 <= u.version.revision <= RevisionOf(p, u.activity) && ActionOf(u.state).Some?)
    && (forall i, j :: 0 <= i < j < |p.sent| && p.sent[i].activity == p.sent[j].activity ==>
          p.sent[i].version.revision < p.sent[j].version.revision)
  }

  lemma PublishNumbered(p: Primary, activity: string, state: ActivityState)
    requires Numbered(p) && ActionOf(state).Some?
    ensures Numbered(Publish(p, activity, state))
    ensures p.sent <= Publish(p, activity, state).sent
  {
    var q := Publish(p, activity, state);
    forall i, j | 0 <= i < j < |q.sent| && q.sent[i].activity == q.sent[j].activity
      ensures q.sent[i].version.revision < q.sent[j].version.revision
    {
      if j < |p.sent| {
        assert q.sent[i] == p.sent[i] && q.sent[j] == p.sent[j];
      } else {
        assert q.sent[i] == p.sent[i];
      }
    }
  }

  // ---------------------------------------------------------------------------
  // The queue
  // ---------------------------------------------------------------------------

  function Of(tasks: seq<Task>, i: nat): string
    requires i < |tasks|
  {
    tasks[i].update.activity
  }

  /** A call waits for the call of its activity just before it, or for none when those have all settled. */
  ghost predicate LinkedBack(tasks: seq<Task>, id: nat)
    requires id < |tasks|
  {
    match tasks[id].previous
    case None => forall i :: 0 <= i < id && Of(tasks, i) == Of(tasks, id) ==> tasks[i].phase.Settled?
    case Some(p) => p < id && Of(tasks, p) == Of(tasks, id) && forall i :: p < i < id ==> Of(tasks, i) != Of(tasks, id)
  }

  /** Calls of one activity begin in the order they arrived, each after the one before it has settled. */
  ghost predicate InOrder(tasks: seq<Task>) {
    forall i, j :: 0 <= i < j < |tasks| && Of(tasks, i) == Of(tasks, j) && tasks[j].phase != Queued ==>
      tasks[i].phase.Settled?
  }

  ghost predicate LastOf(tasks: seq<Task>, activity: string, id: nat) {
    && id < |tasks| && Of(tasks, id) == activity
    && (forall i :: id < i < |tasks| ==> Of(tasks, i) != activity)
  }

  ghost predicate Chained(s: Satellite) {
    && (forall i :: 0 <= i < |s.tasks| ==> LinkedBack(s.tasks, i))
    && InOrder(s.tasks)
    && (forall a :: a in s.queues ==> LastOf(s.tasks, a, s.queues[a]))
    && (forall i :: 0 <= i < |s.tasks| && Of(s.tasks, i) !in s.queues ==> s.tasks[i].phase.Settled?)
  }

  lemma LinkStays(tasks: seq<Task>, more: seq<Task>, i: nat)
    requires i < |tasks| && LinkedBack(tasks, i) && tasks <= more
    ensures LinkedBack(more, i)
  {
    forall k | 0 <= k <= i ensures more[k] == tasks[k] && Of(more, k) == Of(tasks, k) {}
  }

  lemma LastStays(tasks: seq<Task>, task: Task, activity: string, id: nat)
    requires LastOf(tasks, activity, id) && task.update.activity != activity
    ensures LastOf(tasks + [task], activity, id)
  {
    var more := tasks + [task];
    forall i | 0 <= i < |tasks| ensures more[i] == tasks[i] && Of(more, i) == Of(tasks, i) {}
  }

  /** The new call is linked to the last one of its activity. */
  lemma LinkMade(s: Satellite, u: Update)
    requires Chained(s)
    ensures LinkedBack(Arrive(s, u).tasks, |s.tasks|)
  {
    var t := Arrive(s, u);
    forall i | 0 <= i < |s.tasks| ensures t.tasks[i] == s.tasks[i] && Of(t.tasks, i) == Of(s.tasks, i) {}
    if u.activity in s.queues { assert LastOf(s.tasks, u.activity, s.queues[u.activity]); }
  }

  lemma {:induction false} ArriveChained(s: Satellite, u: Update)
    requires Chained(s)
    ensures Chained(Arrive(s, u))
  {
    hide LinkedBack, LastOf;
    var t := Arrive(s, u);
    forall i | 0 <= i < |s.tasks| ensures Of(t.tasks, i) == Of(s.tasks, i) && t.tasks[i] == s.tasks[i] {}
    LinkMade(s, u);
    forall i | 0 <= i < |t.tasks| ensures LinkedBack(t.tasks, i) {
      if i < |s.tasks| { LinkStays(s.tasks, t.tasks, i); }
    }
    forall a | a in t.queues ensures LastOf(t.tasks, a, t.queues[a]) {
      if a != u.activity { LastStays(s.tasks, t.tasks[|s.tasks|], a, s.queues[a]); } else { LastMade(s, u); }
    }
  }

  lemma LastMade(s: Satellite, u: Update)
    ensures LastOf(Arrive(s, u).tasks, u.activity, |s.tasks|)
  {}

  /** `to` is `from` with one call moved to a later phase. */
  ghost predicate Moved(from: seq<Task>, to: seq<Task>, id: nat) {
    && id < |from| && |to| == |from|
    && (forall i :: 0 <= i < |from| ==> Of(to, i) == Of(from, i) && to[i].previous == from[i].previous)
    && (forall i :: 0 <= i < |from| && i != id ==> to[i].phase == from[i].phase)
    && !from[id].phase.Settled? && to[id].phase != Queued
  }

  lemma MoveLinks(from: seq<Task>, to: seq<Task>, id: nat, i: nat)
    requires Moved(from, to, id) && i < |to| && LinkedBack(from, i)
    ensures LinkedBack(to, i)
  {}

  /** A call that may begin has only settled calls of its activity before it. */
  lemma PredecessorsSettled(s: Satellite, id: nat, i: nat)
    requires Chained(s) && MayBegin(s, id) && i < id && Of(s.tasks, i) == Of(s.tasks, id)
    ensures s.tasks[i].phase.Settled?
  {
    assert LinkedBack(s.tasks, id);
    if s.tasks[id].previous.Some? {
      var p := s.tasks[id].previous.value;
      assert i <= p;
      assert Of(s.tasks, p) == Of(s.tasks, id);
    }
  }

  lemma {:induction false} MoveChained(s: Satellite, t: Satellite, id: nat)
    requires Chained(s) && Moved(s.tasks, t.tasks, id) && t.queues == s.queues
    requires s.tasks[id].phase == Queued ==> MayBegin(s, id)
    ensures Chained(t)
  {
    forall i | 0 <= i < |t.tasks| ensures LinkedBack(t.tasks, i) { MoveLinks(s.tasks, t.tasks, id, i); }
    forall a | a in t.queues ensures LastOf(t.tasks, a, t.queues[a]) { assert LastOf(s.tasks, a, s.queues[a]); }
    forall i, j | 0 <= i < j < |t.tasks| && Of(t.tasks, i) == Of(t.tasks, j) && t.tasks[j].phase != Queued
      ensures t.tasks[i].phase.Settled?
    {
      assert Of(s.tasks, i) == Of(s.tasks, j);
      if s.tasks[j].phase == Queued { PredecessorsSettled(s, j, i); }
    }
  }

  lemma ReleaseChained(s: Satellite, id: nat)
    requires Chained(s)
    ensures Chained(Release(s, id))
  {
    var t := Release(s, id);
    if t != s {
      var activity := Of(s.tasks, id);
      assert LastOf(s.tasks, activity, id);
      forall i | 0 <= i < |t.tasks| && Of(t.tasks, i) !in t.queues ensures t.tasks[i].phase.Settled? {
        if Of(s.tasks, i) == activity && i < id { assert InOrder(s.tasks); }
      }
    }
  }

  /** Whatever the interleaving, at most one call per activity is between its staleness check and its record. */
  lemma Exclusive(s: Satellite, i: nat, j: nat)
    requires Chained(s) && i < |s.tasks| && j < |s.tasks|
    requires Underway(s.tasks[i]) && Underway(s.tasks[j]) && Of(s.tasks, i) == Of(s.tasks, j)
    ensures i == j
  {
    assert InOrder(s.tasks);
  }

  // ---------------------------------------------------------------------------
  // Last writer wins
  // ---------------------------------------------------------------------------

  predicate Underway(t: Task) {
    t.phase == Reading || t.phase == Commanding
  }

  /** The update took effect: its command succeeded, or the activity was there already. */
  predicate Applied(t: Task) {
    t.phase == Settled(AlreadyThere) || t.phase == Settled(Changed)
  }

  predicate HoldsVersion(s: Satellite, activity: string, epoch: string) {
    activity in s.versions && s.versions[activity].epoch == epoch
  }

  /** The state is the one that the update asks for, or on its way there. */
  predicate Asks(u: Update, state: ActivityState) {
    || (u.state == ON && (state == ON || state == STARTING))
    || (u.state == OFF && (state == OFF || state == STOPPING))
  }

  lemma AsksIsMatch(u: Update, state: ActivityState)
    ensures Asks(u, state) <==> ActionOf(u.state).Some? && Matches(state, ActionOf(u.state).value)
  {}

  /** The applied update whose version is on record, with the activity in the state it asked for. */
  ghost predicate Wins(s: Satellite, activity: string, i: nat) {
    && i < |s.tasks| && Applied(s.tasks[i]) && Of(s.tasks, i) == activity && activity in s.versions
    && s.tasks[i].update.version == s.versions[activity]
    && Asks(s.tasks[i].update, Device(s, activity))
  }

  ghost predicate Faithful(sent: seq<Update>, epoch: string, s: Satellite) {
    && (forall i :: 0 <= i < |s.tasks| ==> s.tasks[i].update in sent)
    && Dominated(epoch, s) && Ahead(epoch, s)
    && (forall a :: HoldsVersion(s, a, epoch) ==> exists i: nat :: Wins(s, a, i))
  }

  /** Nothing that was applied or ignored is newer than the record. */
  ghost predicate Dominated(epoch: string, s: Satellite) {
    forall i :: 0 <= i < |s.tasks| && (Applied(s.tasks[i]) || s.tasks[i].phase == Settled(Stale)) ==>
      HoldsVersion(s, Of(s.tasks, i), epoch)
      && s.tasks[i].update.version.revision <= s.versions[Of(s.tasks, i)].revision
  }

  /** What is being applied is newer than the record. */
  ghost predicate Ahead(epoch: string, s: Satellite) {
    forall i :: 0 <= i < |s.tasks| && Underway(s.tasks[i]) && HoldsVersion(s, Of(s.tasks, i), epoch) ==>
      s.versions[Of(s.tasks, i)].revision < s.tasks[i].update.version.revision
  }

  /** Updates of the epoch that fit the number range are versioned. */
  ghost predicate Usable(sent: seq<Update>, epoch: string) {
    forall u :: u in sent ==> u.version.epoch == epoch && Versioned(u.version) && ActionOf(u.state).Some?
  }

  lemma {:induction false} QuietMoveKeeps(sent: seq<Update>, epoch: string, s: Satellite, t: Satellite, id: nat)
    requires Faithful(sent, epoch, s) && Usable(sent, epoch) && Moved(s.tasks, t.tasks, id)
      && t.tasks[id].update == s.tasks[id].update
    requires forall i :: 0 <= i < |s.tasks| ==> t.tasks[i].update == s.tasks[i].update
    requires t.versions == s.versions && t.devices == s.devices
    requires !Applied(t.tasks[id])
    requires t.tasks[id].phase == Settled(Stale) ==> IsStale(s, s.tasks[id].update)
    requires Underway(t.tasks[id]) && !Underway(s.tasks[id]) ==> !IsStale(s, s.tasks[id].update)
    ensures Faithful(sent, epoch, t)
  {
    assert s.tasks[id].update in sent;
    forall a | HoldsVersion(t, a, epoch) ensures exists i: nat :: Wins(t, a, i) {
      assert HoldsVersion(s, a, epoch);
      var i: nat :| Wins(s, a, i);
      assert Wins(t, a, i);
    }
  }

  /** One call settles as applied and its version goes on record. */
  ghost predicate Recorded(s: Satellite, t: Satellite, id: nat) {
    && Moved(s.tasks, t.tasks, id) && Underway(s.tasks[id]) && Applied(t.tasks[id])
    && (forall i :: 0 <= i < |s.tasks| ==> t.tasks[i].update == s.tasks[i].update)
    && t.versions == s.versions[Of(s.tasks, id) := s.tasks[id].update.version]
  }

  lemma RecordDominates(epoch: string, s: Satellite, t: Satellite, id: nat)
    requires Recorded(s, t, id) && Dominated(epoch, s) && Ahead(epoch, s)
    requires s.tasks[id].update.version.epoch == epoch
    ensures Dominated(epoch, t)
  {}

  lemma RecordAhead(epoch: string, s: Satellite, t: Satellite, id: nat)
    requires Recorded(s, t, id) && Ahead(epoch, s) && Chained(s)
    ensures Ahead(epoch, t)
  {
    hide Chained;
    forall i | 0 <= i < |t.tasks| && Underway(t.tasks[i]) && HoldsVersion(t, Of(t.tasks, i), epoch)
      ensures t.versions[Of(t.tasks, i)].revision < t.tasks[i].update.version.revision
    {
      if Of(s.tasks, i) == Of(s.tasks, id) { Exclusive(s, i, id); }
      assert HoldsVersion(s, Of(s.tasks, i), epoch);
    }
  }

  lemma {:induction false} RecordKeeps(sent: seq<Update>, epoch: string, s: Satellite, t: Satellite, id: nat)
    requires Faithful(sent, epoch, s) && Chained(s) && Usable(sent, epoch) && Recorded(s, t, id)
    requires ActionOf(s.tasks[id].update.state).Some?
    requires Matches(Device(t, Of(s.tasks, id)), ActionOf(s.tasks[id].update.state).value)
    requires forall a :: a != Of(s.tasks, id) ==> Device(t, a) == Device(s, a)
    ensures Faithful(sent, epoch, t)
  {
    hide Chained, Dominated, Ahead;
    assert s.tasks[id].update in sent;
    RecordDominates(epoch, s, t, id);
    RecordAhead(epoch, s, t, id);
    forall a | HoldsVersion(t, a, epoch) ensures exists i: nat :: Wins(t, a, i) {
      if a == Of(s.tasks, id) {
        assert Wins(t, a, id);
      } else {
        assert HoldsVersion(s, a, epoch);
        OthersWin(s, t, id, a, epoch);
      }
    }
  }

  lemma OthersWin(s: Satellite, t: Satellite, id: nat, a: string, epoch: string)
    requires Moved(s.tasks, t.tasks, id) && a != Of(s.tasks, id) && exists i: nat :: Wins(s, a, i)
    requires forall i :: 0 <= i < |s.tasks| ==> t.tasks[i].update == s.tasks[i].update
    requires a in t.versions && a in s.versions && t.versions[a] == s.versions[a] && Device(t, a) == Device(s, a)
    ensures exists i: nat :: Wins(t, a, i)
  {
    var i: nat :| Wins(s, a, i);
    assert Wins(t, a, i);
  }

  ghost predicate Inv(y: System) {
    && Numbered(y.primary) && Chained(y.satellite)
    && Faithful(y.primary.sent, y.primary.epoch, y.satellite)
    && (forall a :: RevisionOf(y.primary, a) <= |y.primary.sent|)
  }

  lemma NumberedIsUsable(p: Primary)
    requires Numbered(p) && |p.sent| <= 0x1F_FFFF_FFFF_FFFF && forall a :: RevisionOf(p, a) <= |p.sent|
    ensures Usable(p.sent, p.epoch)
  {
    forall u | u in p.sent ensures u.version.epoch == p.epoch && Versioned(u.version) && ActionOf(u.state).Some? {
      var i :| 0 <= i < |p.sent| && p.sent[i] == u;
    }
  }

  lemma ArriveKeeps(sent: seq<Update>, epoch: string, s: Satellite, u: Update)
    requires Faithful(sent, epoch, s) && u in sent
    ensures Faithful(sent, epoch, Arrive(s, u))
  {
    var t := Arrive(s, u);
    forall i | 0 <= i < |s.tasks| ensures t.tasks[i] == s.tasks[i] && Of(t.tasks, i) == Of(s.tasks, i) {}
    forall a | HoldsVersion(t, a, epoch) ensures exists i: nat :: Wins(t, a, i) {
      assert HoldsVersion(s, a, epoch);
      var i: nat :| Wins(s, a, i);
      assert Wins(t, a, i);
    }
  }

  lemma MoveIsMoved(s: Satellite, id: nat, phase: Phase)
    requires id < |s.tasks| && !s.tasks[id].phase.Settled? && phase != Queued
    ensures Moved(s.tasks, Move(s, id, phase).tasks, id)
    ensures forall i :: 0 <= i < |s.tasks| ==> Move(s, id, phase).tasks[i].update == s.tasks[i].update
  {}

  lemma TaskSent(sent: seq<Update>, epoch: string, s: Satellite, id: nat)
    requires Faithful(sent, epoch, s) && Usable(sent, epoch) && id < |s.tasks|
    ensures ActionOf(s.tasks[id].update.state).Some? && Versioned(s.tasks[id].update.version)
  {
    assert s.tasks[id].update in sent;
  }

  lemma {:induction false} BeginKeeps(sent: seq<Update>, epoch: string, s: Satellite, id: nat, accepted: bool)
    requires Faithful(sent, epoch, s) && Usable(sent, epoch) && Chained(s)
    ensures Faithful(sent, epoch, Begin(s, id, accepted)) && Chained(Begin(s, id, accepted))
  {
    hide Faithful, Chained, Usable;
    var t := Begin(s, id, accepted);
    if MayBegin(s, id) {
      MoveIsMoved(s, id, t.tasks[id].phase);
      MoveChained(s, t, id);
      QuietMoveKeeps(sent, epoch, s, t, id);
    }
  }

  lemma {:induction false} ReadKeeps(sent: seq<Update>, epoch: string, s: Satellite, id: nat, readable: bool)
    requires Faithful(sent, epoch, s) && Usable(sent, epoch) && Chained(s)
    ensures Faithful(sent, epoch, ReadBack(s, id, readable)) && Chained(ReadBack(s, id, readable))
  {
    hide Faithful, Chained, Usable;
    var t := ReadBack(s, id, readable);
    if id < |s.tasks| && s.tasks[id].phase == Reading {
      TaskSent(sent, epoch, s, id);
      MoveIsMoved(s, id, t.tasks[id].phase);
      MoveChained(s, t, id);
      if Applied(t.tasks[id]) { RecordKeeps(sent, epoch, s, t, id); } else { QuietMoveKeeps(sent, epoch, s, t, id); }
    }
  }

  lemma {:induction false} CommandKeeps(sent: seq<Update>, epoch: string, s: Satellite, id: nat, ok: bool)
    requires Faithful(sent, epoch, s) && Usable(sent, epoch) && Chained(s)
    ensures Faithful(sent, epoch, Commanded(s, id, ok)) && Chained(Commanded(s, id, ok))
  {
    hide Faithful, Chained, Usable;
    var t := Commanded(s, id, ok);
    if id < |s.tasks| && s.tasks[id].phase == Commanding {
      TaskSent(sent, epoch, s, id);
      MoveIsMoved(s, id, t.tasks[id].phase);
      MoveChained(s, t, id);
      if ok { RecordKeeps(sent, epoch, s, t, id); } else { QuietMoveKeeps(sent, epoch, s, t, id); }
    }
  }

  lemma UntouchedKeeps(sent: seq<Update>, more: seq<Update>, epoch: string, s: Satellite, t: Satellite)
    requires Faithful(sent, epoch, s) && sent <= more
    requires t.tasks == s.tasks && t.versions == s.versions && t.devices == s.devices
    ensures Faithful(more, epoch, t)
  {
    forall a | HoldsVersion(t, a, epoch) ensures exists i: nat :: Wins(t, a, i) {
      assert HoldsVersion(s, a, epoch);
      var i: nat :| Wins(s, a, i);
      assert Wins(t, a, i);
    }
  }

  lemma {:induction false} PrimaryKeeps(y: System, activity: string, state: ActivityState, p: Primary)
    requires Inv(y) && p in {Broadcast(y.primary, activity, state), Initialize(y.primary, activity, state)}
    ensures Inv(y.(primary := p)) && |p.sent| <= |y.primary.sent| + 1
  {
    hide Faithful, Chained;
    if p.sent != y.primary.sent {
      var q := y.primary.(observed := p.observed);
      assert p == Publish(q, activity, state);
      assert Numbered(q) by { forall a ensures RevisionOf(q, a) == RevisionOf(y.primary, a) {} }
      PublishNumbered(q, activity, state);
    }
    forall a ensures RevisionOf(p, a) <= |p.sent| { assert RevisionOf(y.primary, a) <= |y.primary.sent|; }
    assert y.primary.sent <= p.sent;
    UntouchedKeeps(y.primary.sent, p.sent, p.epoch, y.satellite, y.satellite);
  }

  lemma {:induction false} StepKeeps(y: System, step: Step)
    requires Inv(y) && |y.primary.sent| < 0x1F_FFFF_FFFF_FFFF
    ensures Inv(Do(y, step)) && |Do(y, step).primary.sent| <= |y.primary.sent| + 1
  {
    hide Faithful, Chained, Numbered, Begin, ReadBack, Commanded, Broadcast, Initialize, Arrive;
    var p, s := y.primary, y.satellite;
    NumberedIsUsable(p);
    match step
    case Observed(activity, state) => PrimaryKeeps(y, activity, state, Broadcast(p, activity, state));
    case Initialized(activity, state) => PrimaryKeeps(y, activity, state, Initialize(p, activity, state));
    case Delivered(index) =>
      if index < |p.sent| {
        ArriveKeeps(p.sent, p.epoch, s, p.sent[index]);
        ArriveChained(s, p.sent[index]);
      }
    case Begun(id, accepted) => BeginKeeps(p.sent, p.epoch, s, id, accepted);
    case Read(id, readable) => ReadKeeps(p.sent, p.epoch, s, id, readable);
    case Command(id, ok) => CommandKeeps(p.sent, p.epoch, s, id, ok);
    case Released(id) =>
      ReleaseChained(s, id);
      UntouchedKeeps(p.sent, p.sent, p.epoch, s, Release(s, id));
    case RelayCommand(activity, action) => IdleKeeps(y, Relay(s, activity, action));
    case Tick(ms) => IdleKeeps(y, s.(now := s.now + ms));
  }

  lemma IdleKeeps(y: System, t: Satellite)
    requires Inv(y) && t.tasks == y.satellite.tasks && t.queues == y.satellite.queues
    requires t.versions == y.satellite.versions && t.devices == y.satellite.devices
    ensures Inv(y.(satellite := t))
  {
    UntouchedKeeps(y.primary.sent, y.primary.sent, y.primary.epoch, y.satellite, t);
  }

  lemma {:induction false} RunKeeps(y: System, steps: seq<Step>)
    requires Start(y) && |steps| <= 0x1F_FFFF_FFFF_FFFF
    ensures Inv(Run(y, steps)) && |Run(y, steps).primary.sent| <= |steps|
    ensures Run(y, steps).primary.epoch == y.primary.epoch
  {
    if steps != [] {
      var before := Run(y, steps[..|steps| - 1]);
      RunKeeps(y, steps[..|steps| - 1]);
      StepKeeps(before, steps[|steps| - 1]);
    }
  }

  predicate AppliedTo(s: Satellite, activity: string, i: nat) {
    i < |s.tasks| && Of(s.tasks, i) == activity && Applied(s.tasks[i])
  }

  predicate IgnoredFor(s: Satellite, activity: string, i: nat) {
    i < |s.tasks| && Of(s.tasks, i) == activity && s.tasks[i].phase == Settled(Stale)
  }

  /** After any run: the revision on record is that of an applied update, no applied or ignored update has a
      greater one, and the activity is in the state asked for by every sent update of that revision. The
      bound on the run is the range in which the source can tell revisions apart. */
  lemma {:induction false} LastWriterWins(y: System, steps: seq<Step>, activity: string, z: System)
    requires Start(y) && |steps| <= 0x1F_FFFF_FFFF_FFFF && z == Run(y, steps)
    ensures HoldsVersion(z.satellite, activity, y.primary.epoch) <==>
      exists i: nat :: AppliedTo(z.satellite, activity, i)
    ensures HoldsVersion(z.satellite, activity, y.primary.epoch) ==> exists i: nat :: Wins(z.satellite, activity, i)
    ensures forall i: nat :: AppliedTo(z.satellite, activity, i) || IgnoredFor(z.satellite, activity, i) ==>
      HoldsVersion(z.satellite, activity, y.primary.epoch)
      && z.satellite.tasks[i].update.version.revision <= z.satellite.versions[activity].revision
    ensures HoldsVersion(z.satellite, activity, y.primary.epoch) ==>
      forall u :: u in z.primary.sent && u.activity == activity && u.version == z.satellite.versions[activity] ==>
        Asks(u, Device(z.satellite, activity))
  {
    hide Chained, Run, Start;
    RunKeeps(y, steps);
    if HoldsVersion(z.satellite, activity, y.primary.epoch) {
      var i: nat :| Wins(z.satellite, activity, i);
      assert AppliedTo(z.satellite, activity, i);
      forall u | u in z.primary.sent && u.activity == activity && u.version == z.satellite.versions[activity]
        ensures Asks(u, Device(z.satellite, activity))
      {
        SameRevisionSameUpdate(z.primary, u, z.satellite.tasks[i].update);
      }
    }
  }

  lemma SameRevisionSameUpdate(p: Primary, u: Update, v: Update)
    requires Numbered(p) && u in p.sent && v in p.sent && u.activity == v.activity
    requires u.version.revision == v.version.revision
    ensures u == v
  {
    var i :| 0 <= i < |p.sent| && p.sent[i] == u;
    var j :| 0 <= j < |p.sent| && p.sent[j] == v;
    assert i == j;
  }

  /** When the newest delivered update of an activity was applied, or ignored because it had been, the Satellite is
      where that update asked, whatever the order, however often each came and whichever others failed. */
  lemma {:induction false} Convergence(y: System, steps: seq<Step>, s: Satellite, newest: nat)
    requires Start(y) && |steps| <= 0x1F_FFFF_FFFF_FFFF && s == Run(y, steps).satellite
    requires newest < |s.tasks|
    requires AppliedTo(s, Of(s.tasks, newest), newest) || IgnoredFor(s, Of(s.tasks, newest), newest)
    requires forall i :: 0 <= i < |s.tasks| && Of(s.tasks, i) == Of(s.tasks, newest) ==>
      s.tasks[i].update.version.revision <= s.tasks[newest].update.version.revision
    ensures var u := s.tasks[newest].update;
      u.activity in s.versions && s.versions[u.activity] == u.version && Asks(u, Device(s, u.activity))
  {
    hide Chained, Run, Start;
    RunKeeps(y, steps);
    var z, u := Run(y, steps), s.tasks[newest].update;
    LastWriterWins(y, steps, u.activity, z);
    var i: nat :| Wins(s, u.activity, i);
    assert u in z.primary.sent && s.tasks[i].update in z.primary.sent;
    assert s.tasks[i].update.version.revision <= u.version.revision <= s.versions[u.activity].revision;
    SameRevisionSameUpdate(z.primary, u, s.tasks[i].update);
  }

  /** Over every run no two calls of one activity are between their staleness check and their record. */
  lemma ExclusiveOverRuns(y: System, steps: seq<Step>, s: Satellite, i: nat, j: nat)
    requires Start(y) && |steps| <= 0x1F_FFFF_FFFF_FFFF && s == Run(y, steps).satellite
    requires i < |s.tasks| && j < |s.tasks| && Of(s.tasks, i) == Of(s.tasks, j)
    requires Underway(s.tasks[i]) && Underway(s.tasks[j])
    ensures i == j
  {
    RunKeeps(y, steps);
    Exclusive(s, i, j);
  }

  // ---------------------------------------------------------------------------
  // Relay suppression
  // ---------------------------------------------------------------------------

  /** The last note about one activity and action. */
  function LastNote(notes: seq<Note>, key: (string, Action)): Option<Note> {
    if notes == [] then None
    else if notes[|notes| - 1].key == key then Some(notes[|notes| - 1])
    else LastNote(notes[..|notes| - 1], key)
  }

  /** A command was sent less than ten seconds before. */
  predicate Live(note: Option<Note>, at: int) {
    note.Some? && note.value.Armed? && note.value.at <= at < note.value.at + SUPPRESSION_MS
  }

  /** The suppressions are those armed last and neither withdrawn nor used up since. */
  ghost predicate Marked(s: Satellite, key: (string, Action)) {
    match LastNote(s.notes, key)
    case Some(Armed(_, at)) => key in s.suppressions && s.suppressions[key] == at + SUPPRESSION_MS && at <= s.now
    case _ => key !in s.suppressions
  }

  ghost predicate Explained(notes: seq<Note>) {
    forall j :: 0 <= j < |notes| && notes[j].Relayed? ==>
      (notes[j].suppressed <==> Live(LastNote(notes[..j], notes[j].key), notes[j].at))
  }

  lemma NextNote(notes: seq<Note>, note: Note, key: (string, Action))
    ensures LastNote(notes + [note], key) == if note.key == key then Some(note) else LastNote(notes, key)
    ensures Explained(notes) && (note.Relayed? ==> (note.suppressed <==> Live(LastNote(notes, note.key), note.at))) ==>
      Explained(notes + [note])
  {
    hide LastNote, Live;
    var all := notes + [note];
    assert all[..|notes|] == notes;
    assert LastNote(all, key) == if note.key == key then Some(note) else LastNote(notes, key) by {
      LastOfMore(notes, note, key);
    }
    forall j | 0 <= j < |notes| ensures all[..j] == notes[..j] && all[j] == notes[j] {}
  }

  lemma LastOfMore(notes: seq<Note>, note: Note, key: (string, Action))
    ensures LastNote(notes + [note], key) == if note.key == key then Some(note) else LastNote(notes, key)
  {
    assert (notes + [note])[..|notes|] == notes;
  }

  /** One note was added, and the suppressions follow it. */
  ghost predicate Noted(s: Satellite, t: Satellite) {
    && t.now == s.now && |t.notes| == |s.notes| + 1 && t.notes == s.notes + [t.notes[|s.notes|]]
    && var note := t.notes[|s.notes|];
    && note.at == s.now
    && (note.Relayed? ==> (note.suppressed <==> note.key in s.suppressions && s.suppressions[note.key] > s.now))
    && t.suppressions == if note.Armed? then s.suppressions[note.key := s.now + SUPPRESSION_MS]
                         else s.suppressions - {note.key}
  }

  /** Only time passed. */
  ghost predicate Unnoted(s: Satellite, t: Satellite) {
    t.notes == s.notes && t.suppressions == s.suppressions && t.now >= s.now
  }

  lemma NotesKept(s: Satellite, t: Satellite)
    requires (forall key :: Marked(s, key)) && Explained(s.notes) && Noted(s, t)
    ensures (forall key :: Marked(t, key)) && Explained(t.notes)
  {
    hide LastNote, Explained;
    var note := t.notes[|s.notes|];
    assert Marked(s, note.key);
    forall key ensures Marked(t, key) {
      assert Marked(s, key);
      NextNote(s.notes, note, key);
    }
    NextNote(s.notes, note, note.key);
  }

  lemma TimePasses(s: Satellite, t: Satellite)
    requires (forall key :: Marked(s, key)) && Unnoted(s, t)
    ensures forall key :: Marked(t, key)
  {
    forall key ensures Marked(t, key) { assert Marked(s, key); }
  }

  lemma ReadNotes(s: Satellite, id: nat, readable: bool)
    ensures var t := ReadBack(s, id, readable); Noted(s, t) || Unnoted(s, t)
  {
    hide Matches, Device, ActionOf;
  }

  lemma CommandNotes(s: Satellite, id: nat, ok: bool)
    ensures var t := Commanded(s, id, ok); Noted(s, t) || Unnoted(s, t)
  {
    hide ActionOf;
  }

  lemma RelayNotes(s: Satellite, activity: string, action: Action)
    ensures Noted(s, Relay(s, activity, action))
  {}

  lemma StepNotes(y: System, step: Step)
    ensures var s, t := y.satellite, Do(y, step).satellite; Noted(s, t) || Unnoted(s, t)
  {
    hide Noted, ReadBack, Commanded, Relay, Broadcast, Initialize, MayBegin, IsStale, ActionOf;
    match step
    case Read(id, readable) => ReadNotes(y.satellite, id, readable);
    case Command(id, ok) => CommandNotes(y.satellite, id, ok);
    case RelayCommand(activity, action) => RelayNotes(y.satellite, activity, action);
    case _ =>
  }

  lemma StepMarks(y: System, step: Step)
    requires (forall key :: Marked(y.satellite, key)) && Explained(y.satellite.notes)
    ensures var t := Do(y, step).satellite; (forall key :: Marked(t, key)) && Explained(t.notes)
  {
    hide Marked, Explained, Do, Noted;
    StepNotes(y, step);
    var s, t := y.satellite, Do(y, step).satellite;
    if Unnoted(s, t) { TimePasses(s, t); } else { NotesKept(s, t); }
  }

  lemma {:induction false} RunMarks(y: System, steps: seq<Step>)
    requires Start(y)
    ensures var s := Run(y, steps).satellite; (forall key :: Marked(s, key)) && Explained(s.notes)
  {
    hide Do, Marked, Explained;
    if steps == [] {
      NothingMarked(y);
    } else {
      RunMarks(y, steps[..|steps| - 1]);
      StepMarks(Run(y, steps[..|steps| - 1]), steps[|steps| - 1]);
    }
  }

  lemma NothingMarked(y: System)
    requires Start(y)
    ensures (forall key :: Marked(y.satellite, key)) && Explained(y.satellite.notes)
  {}

  ghost predicate LastAt(notes: seq<Note>, key: (string, Action), i: int) {
    && 0 <= i < |notes| && Some(notes[i]) == LastNote(notes, key)
    && forall k :: i < k < |notes| ==> notes[k].key != key
  }

  /** The relay `j` answers the command `i`: of one kind, less than ten seconds apart, and nothing of that kind
      noted in between. */
  ghost predicate Serves(notes: seq<Note>, i: int, j: int) {
    && 0 <= i < j < |notes| && notes[i].Armed? && notes[i].key == notes[j].key
    && notes[i].at <= notes[j].at < notes[i].at + 10_000
    && forall k :: i < k < j ==> notes[k].key != notes[j].key
  }

  lemma {:induction false} LastNoteIsLast(notes: seq<Note>, key: (string, Action))
    requires LastNote(notes, key).Some?
    ensures exists i :: 0 <= i < |notes| && LastAt(notes, key, i)
  {
    var n := |notes| - 1;
    if notes[n].key != key {
      LastNoteIsLast(notes[..n], key);
      var i :| 0 <= i < n && LastAt(notes[..n], key, i);
      assert notes[i] == notes[..n][i];
      forall k | i < k < |notes| ensures notes[k].key != key { if k < n { assert notes[k] == notes[..n][k]; } }
      assert LastAt(notes, key, i);
    } else {
      assert LastAt(notes, key, n);
    }
  }

  /** Over every run a relay is swallowed exactly when a command of its own kind was sent less than ten seconds
      before it, with no failure of that command and no other relay of the kind in between: so every command
      swallows at most one relay. */
  lemma RelaysAreSwallowedOnce(y: System, steps: seq<Step>, notes: seq<Note>, j: nat)
    requires Start(y) && notes == Run(y, steps).satellite.notes && j < |notes| && notes[j].Relayed?
    ensures notes[j].suppressed <==> exists i :: Serves(notes, i, j)
  {
    hide Run, LastNote, Start;
    RunMarks(y, steps);
    var before, key := notes[..j], notes[j].key;
    if notes[j].suppressed {
      LastNoteIsLast(before, key);
      var i :| 0 <= i < j && LastAt(before, key, i);
      assert notes[i] == before[i] && before[i].key == key by { LastKey(before, key); }
      forall k | i < k < j ensures notes[k].key != key { assert notes[k] == before[k]; }
      assert Serves(notes, i, j);
    }
    if i :| Serves(notes, i, j) {
      assert forall k :: 0 <= k < j ==> before[k] == notes[k];
      LastIs(before, key, i);
    }
  }

  lemma {:induction false} LastKey(notes: seq<Note>, key: (string, Action))
    ensures LastNote(notes, key).Some? ==> LastNote(notes, key).value.key == key
  {
    if notes != [] { LastKey(notes[..|notes| - 1], key); }
  }

  lemma {:induction false} LastIs(notes: seq<Note>, key: (string, Action), i: nat)
    requires i < |notes| && notes[i].key == key && forall k :: i < k < |notes| ==> notes[k].key != key
    ensures LastNote(notes, key) == Some(notes[i])
  {
    var n := |notes| - 1;
    if i < n {
      assert forall k :: 0 <= k < n ==> notes[..n][k] == notes[k];
      LastIs(notes[..n], key, i);
    }
  }

  // ---------------------------------------------------------------------------
  // What a Primary sends
  // ---------------------------------------------------------------------------

  /** Step `i` reports ON or OFF of this activity. */
  predicate ReportsAt(steps: seq<Step>, i: int, activity: string) {
    && 0 <= i < |steps| && steps[i].Observed? && steps[i].activity == activity
    && (steps[i].state == ON || steps[i].state == OFF)
  }

  /** Step `i` reports the state that was reported last before it. */
  ghost predicate RepeatsAt(steps: seq<Step>, i: int) {
    exists j :: 0 <= j < i < |steps| && steps[i].Observed? && ReportsAt(steps, j, steps[i].activity)
      && steps[j].state == steps[i].state && forall k :: j < k < i ==> !ReportsAt(steps, k, steps[i].activity)
  }

  /** What must be sent at step `i`: a report of ON or OFF that repeats nothing, and every initialization with one. */
  ghost predicate SendsAt(steps: seq<Step>, i: int) {
    && 0 <= i < |steps|
    && (|| (steps[i].Observed? && ReportsAt(steps, i, steps[i].activity) && !RepeatsAt(steps, i))
        || (steps[i].Initialized? && (steps[i].state == ON || steps[i].state == OFF)))
  }

  ghost function Announced(steps: seq<Step>): seq<(string, ActivityState)> {
    if steps == [] then []
    else
      var n := |steps| - 1;
      Announced(steps[..n]) + if SendsAt(steps, n) then [(steps[n].activity, steps[n].state)] else []
  }

  /** The updates carry these states, and for each activity the revisions one, two, three and so on. */
  ghost predicate Carries(sent: seq<Update>, epoch: string, announced: seq<(string, ActivityState)>) {
    && |sent| == |announced|
    && forall i :: 0 <= i < |sent| ==>
         sent[i] == Update(announced[i].0, announced[i].1, Version(epoch, CountOf(announced[..i], announced[i].0) + 1))
  }

  function CountOf(announced: seq<(string, ActivityState)>, activity: string): nat {
    if announced == [] then 0
    else
      var n := |announced| - 1;
      CountOf(announced[..n], activity) + if announced[n].0 == activity then 1 else 0
  }

  /** What was reported last of every activity. */
  ghost predicate Remembers(p: Primary, steps: seq<Step>) {
    && (forall a :: a in p.observed ==> LastReport(steps, a, p.observed[a]))
    && (forall a, i :: ReportsAt(steps, i, a) ==> a in p.observed)
  }

  ghost predicate LastReport(steps: seq<Step>, activity: string, state: ActivityState) {
    exists j :: ReportsAt(steps, j, activity) && steps[j].state == state
      && forall k :: j < k < |steps| ==> !ReportsAt(steps, k, activity)
  }

  lemma LastReportStays(steps: seq<Step>, step: Step, activity: string, state: ActivityState)
    requires LastReport(steps, activity, state)
    requires !ReportsAt(steps + [step], |steps|, activity)
    ensures LastReport(steps + [step], activity, state)
  {
    var more := steps + [step];
    var j :| ReportsAt(steps, j, activity) && steps[j].state == state
      && forall k :: j < k < |steps| ==> !ReportsAt(steps, k, activity);
    assert more[j] == steps[j];
    forall k | j < k < |more| ensures !ReportsAt(more, k, activity) {
      if k < |steps| { assert more[k] == steps[k] && !ReportsAt(steps, k, activity); }
    }
    assert ReportsAt(more, j, activity);
  }

  /** A report repeats exactly what is remembered. */
  lemma RepeatIsRemembered(p: Primary, steps: seq<Step>, step: Step)
    requires Remembers(p, steps) && step.Observed? && ReportsAt(steps + [step], |steps|, step.activity)
    ensures RepeatsAt(steps + [step], |steps|) <==>
      step.activity in p.observed && p.observed[step.activity] == step.state
  {
    var more, a := steps + [step], step.activity;
    forall k | 0 <= k < |steps|
      ensures ReportsAt(more, k, a) <==> ReportsAt(steps, k, a)
    {
      assert more[k] == steps[k];
    }
    if a in p.observed {
      var j :| ReportsAt(steps, j, a) && steps[j].state == p.observed[a]
        && forall k :: j < k < |steps| ==> !ReportsAt(steps, k, a);
      assert more[j] == steps[j] && ReportsAt(more, j, a);
      if i :| 0 <= i < |steps| && ReportsAt(more, i, a) && forall k :: i < k < |steps| ==> !ReportsAt(more, k, a) {
        assert i == j;
      }
    }
  }

  lemma ReportsEarlier(steps: seq<Step>, n: nat, i: int)
    requires n <= |steps| && i < n
    ensures forall a :: ReportsAt(steps[..n], i, a) <==> ReportsAt(steps, i, a)
  {
    if 0 <= i { assert steps[..n][i] == steps[i]; }
  }

  lemma {:induction false} RunSends(y: System, steps: seq<Step>)
    requires Start(y)
    ensures var p := Run(y, steps).primary;
      && p.epoch == y.primary.epoch && Remembers(p, steps)
      && Carries(p.sent, y.primary.epoch, Announced(steps))
      && forall a :: RevisionOf(p, a) == CountOf(Announced(steps), a)
  {
    hide Announced, Remembers, Carries, CountOf, Broadcast, Initialize, SendsAt;
    if steps == [] {
      NothingSent(y);
    } else {
      var n := |steps| - 1;
      RunSends(y, steps[..n]);
      assert steps == steps[..n] + [steps[n]];
      StepSends(Run(y, steps[..n]), steps[..n], steps[n], y.primary.epoch);
    }
  }

  lemma NothingSent(y: System)
    requires Start(y)
    ensures Remembers(y.primary, []) && Carries(y.primary.sent, y.primary.epoch, Announced([]))
    ensures forall a :: RevisionOf(y.primary, a) == CountOf(Announced([]), a)
  {}

  lemma StepSends(y: System, steps: seq<Step>, step: Step, epoch: string)
    requires y.primary.epoch == epoch && Remembers(y.primary, steps)
    requires Carries(y.primary.sent, epoch, Announced(steps))
    requires forall a :: RevisionOf(y.primary, a) == CountOf(Announced(steps), a)
    ensures var p := Do(y, step).primary;
      && p.epoch == epoch && Remembers(p, steps + [step])
      && Carries(p.sent, epoch, Announced(steps + [step]))
      && forall a :: RevisionOf(p, a) == CountOf(Announced(steps + [step]), a)
  {
    hide Announced, Remembers, Carries, CountOf, RepeatsAt;
    var n, more, p, q := |steps|, steps + [step], y.primary, Do(y, step).primary;
    assert more[..n] == steps && more[n] == step;
    assert Announced(more) == Announced(steps) + if SendsAt(more, n) then [(step.activity, step.state)] else [] by {
      AnnouncedNext(steps, step);
    }
    if step.Observed? && ReportsAt(more, n, step.activity) { RepeatIsRemembered(p, steps, step); }
    RemembersNext(p, steps, step, q.observed);
    if SendsAt(more, n) {
      CarriesNext(p, q, epoch, Announced(steps), step.activity, step.state);
    } else {
      assert q.sent == p.sent && q.revisions == p.revisions;
      assert Announced(more) == Announced(steps);
    }
    SameMemory(q, p.(observed := q.observed), more);
  }

  lemma AnnouncedNext(steps: seq<Step>, step: Step)
    ensures Announced(steps + [step]) ==
      Announced(steps) + if SendsAt(steps + [step], |steps|) then [(step.activity, step.state)] else []
  {
    assert (steps + [step])[..|steps|] == steps;
  }

  lemma SameMemory(p: Primary, q: Primary, steps: seq<Step>)
    requires p.observed == q.observed
    ensures Remembers(p, steps) <==> Remembers(q, steps)
  {}

  lemma RemembersNext(p: Primary, steps: seq<Step>, step: Step, observed: map<string, ActivityState>)
    requires Remembers(p, steps)
    requires observed == if step.Observed? && (step.state == ON || step.state == OFF)
      then p.observed[step.activity := step.state] else p.observed
    ensures Remembers(p.(observed := observed), steps + [step])
  {
    hide LastReport;
    var more, n := steps + [step], |steps|;
    forall a, i | ReportsAt(more, i, a) ensures a in observed {
      if i < n { assert more[i] == steps[i] && ReportsAt(steps, i, a); }
    }
    forall a | a in observed ensures LastReport(more, a, observed[a]) {
      if ReportsAt(more, n, a) {
        ReportIsLast(steps, step);
      } else {
        LastReportStays(steps, step, a, observed[a]);
      }
    }
  }

  lemma ReportIsLast(steps: seq<Step>, step: Step)
    requires step.Observed? && ReportsAt(steps + [step], |steps|, step.activity)
    ensures LastReport(steps + [step], step.activity, step.state)
  {
    var more := steps + [step];
    assert more[|steps|] == step;
  }

  lemma CarriesNext(p: Primary, q: Primary, epoch: string, announced: seq<(string, ActivityState)>, activity: string,
                    state: ActivityState)
    requires p.epoch == epoch && Carries(p.sent, epoch, announced)
    requires forall a :: RevisionOf(p, a) == CountOf(announced, a)
    requires q.sent == p.sent + [Update(activity, state, Version(epoch, RevisionOf(p, activity) + 1))]
    requires q.revisions == p.revisions[activity := RevisionOf(p, activity) + 1]
    ensures Carries(q.sent, epoch, announced + [(activity, state)])
    ensures forall a :: RevisionOf(q, a) == CountOf(announced + [(activity, state)], a)
  {
    var more, n := announced + [(activity, state)], |announced|;
    assert more[..n] == announced;
    forall i | 0 <= i < |q.sent|
      ensures q.sent[i] == Update(more[i].0, more[i].1, Version(epoch, CountOf(more[..i], more[i].0) + 1))
    {
      if i < n { assert more[..i] == announced[..i] && more[i] == announced[i]; }
    }
  }

  /** Over any run exactly those states are sent that must be, in order, and numbered without a gap: a report is
      sent exactly when it is ON or OFF and differs from the last such report of its activity. */
  lemma {:induction false} SentExactly(y: System, steps: seq<Step>)
    requires Start(y)
    ensures Carries(Run(y, steps).primary.sent, y.primary.epoch, Announced(steps))
  {
    hide Start, Run, Announced, Carries;
    RunSends(y, steps);
  }

  // ---------------------------------------------------------------------------
  // How an update is applied
  // ---------------------------------------------------------------------------

  /** A call moves on when its turn comes: exactly when all earlier calls of its activity have settled. */
  lemma {:induction false} TurnsComeInOrder(y: System, steps: seq<Step>, id: nat, accepted: bool)
    requires Start(y) && |steps| <= 0x1F_FFFF_FFFF_FFFF && id < |Run(y, steps).satellite.tasks|
    ensures var s, t := Run(y, steps).satellite, Run(y, steps + [Begun(id, accepted)]).satellite;
      t.tasks != s.tasks <==>
        s.tasks[id].phase == Queued
        && forall i :: 0 <= i < id && Of(s.tasks, i) == Of(s.tasks, id) ==> s.tasks[i].phase.Settled?
  {
    hide Run, Faithful, Numbered, Start, IsStale;
    RunKeeps(y, steps);
    var s := Run(y, steps).satellite;
    RunStep(y, steps, Begun(id, accepted));
    TurnExactly(s, id);
    assert Begin(s, id, accepted).tasks[id].phase != Queued || !MayBegin(s, id);
  }

  lemma RunStep(y: System, steps: seq<Step>, step: Step)
    ensures Run(y, steps + [step]) == Do(Run(y, steps), step)
  {
    assert (steps + [step])[..|steps|] == steps;
  }

  /** Every relay command is noted with the time at which it came, and touches neither records nor activities; and time
      passes without touching anything. */
  lemma {:induction false} RelaysAndTime(y: System, steps: seq<Step>, activity: string, action: Action, ms: nat)
    ensures var s, t := Run(y, steps).satellite, Run(y, steps + [RelayCommand(activity, action)]).satellite;
      && |t.notes| == |s.notes| + 1 && t.notes[..|s.notes|] == s.notes && t.notes[|s.notes|].Relayed?
      && t.notes[|s.notes|].key == (activity, action) && t.notes[|s.notes|].at == s.now
      && t == s.(suppressions := t.suppressions, notes := t.notes)
    ensures var z, w := Run(y, steps), Run(y, steps + [Tick(ms)]);
      && w.primary == z.primary && w.satellite.now == z.satellite.now + ms
      && w.satellite == z.satellite.(now := w.satellite.now)
  {
    hide Run;
    RunStep(y, steps, RelayCommand(activity, action));
    RunStep(y, steps, Tick(ms));
  }

  lemma TurnExactly(s: Satellite, id: nat)
    requires Chained(s) && id < |s.tasks|
    ensures MayBegin(s, id) <==>
      s.tasks[id].phase == Queued
      && forall i :: 0 <= i < id && Of(s.tasks, i) == Of(s.tasks, id) ==> s.tasks[i].phase.Settled?
  {
    assert LinkedBack(s.tasks, id) && InOrder(s.tasks);
  }

  /** What becomes of a call whose turn has come: refused by a node that is no active Satellite, ignored exactly when
      an update of its activity with the same or a greater revision was applied, and otherwise begun. */
  lemma {:induction false} IgnoredExactly(y: System, steps: seq<Step>, id: nat, accepted: bool)
    requires Start(y) && |steps| <= 0x1F_FFFF_FFFF_FFFF && MayBegin(Run(y, steps).satellite, id)
    ensures var s, t := Run(y, steps).satellite, Run(y, steps + [Begun(id, accepted)]).satellite;
      t.tasks[id].phase ==
        if !accepted then Settled(Refused)
        else if exists i: nat :: AppliedTo(s, Of(s.tasks, id), i)
                  && s.tasks[i].update.version.revision >= s.tasks[id].update.version.revision
        then Settled(Stale) else Reading
  {
    hide Run, Chained, Start;
    RunKeeps(y, steps);
    var z := Run(y, steps);
    var s := z.satellite;
    RunStep(y, steps, Begun(id, accepted));
    NumberedIsUsable(z.primary);
    TaskSent(z.primary.sent, z.primary.epoch, s, id);
    assert s.tasks[id].update in z.primary.sent;
    if HoldsVersion(s, Of(s.tasks, id), z.primary.epoch) {
      var i: nat :| Wins(s, Of(s.tasks, id), i);
      assert AppliedTo(s, Of(s.tasks, id), i);
    }
  }

  /** A delivery is a new call that waits, whatever was delivered before. */
  lemma DeliveriesAreCalls(y: System, steps: seq<Step>, index: nat)
    requires index < |Run(y, steps).primary.sent|
    ensures var s, t := Run(y, steps).satellite, Run(y, steps + [Delivered(index)]).satellite;
      && |t.tasks| == |s.tasks| + 1 && t.tasks[..|s.tasks|] == s.tasks
      && t.tasks[|s.tasks|].update == Run(y, steps).primary.sent[index] && t.tasks[|s.tasks|].phase == Queued
  {
    hide Run;
    RunStep(y, steps, Delivered(index));
  }

  /** When a call is over, its activity leaves the queue exactly when no later call of it has come. */
  lemma {:induction false} QueuesAreReleased(y: System, steps: seq<Step>, id: nat, activity: string)
    requires Start(y) && |steps| <= 0x1F_FFFF_FFFF_FFFF && id < |Run(y, steps).satellite.tasks|
    ensures var s, t := Run(y, steps).satellite, Run(y, steps + [Released(id)]).satellite;
      activity in t.queues <==>
        activity in s.queues && !(s.tasks[id].phase.Settled? && LastOf(s.tasks, activity, id))
  {
    hide Run, Faithful, Start, Numbered;
    RunKeeps(y, steps);
    RunStep(y, steps, Released(id));
    var s := Run(y, steps).satellite;
    if activity in s.queues { assert LastOf(s.tasks, activity, s.queues[activity]); }
  }

  /** An update without an epoch, or with a revision that is no positive safe integer, is never ignored and leaves no
      version. */
  lemma UnversionedUpdates(s: Satellite, id: nat, readable: bool, ok: bool)
    requires id < |s.tasks|
    requires var v := s.tasks[id].update.version; v.epoch == "" || v.revision < 1 || v.revision >= 9007199254740992
    ensures Begin(s, id, true).tasks[id].phase != Settled(Stale) || s.tasks[id].phase == Settled(Stale)
    ensures ReadBack(s, id, readable).versions == s.versions && Commanded(s, id, ok).versions == s.versions
  {}

  /** Only ON and OFF can be asked for. */
  lemma OtherStatesAreRefused(s: Satellite, id: nat, accepted: bool)
    requires MayBegin(s, id) && s.tasks[id].update.state != ON && s.tasks[id].update.state != OFF
    ensures Begin(s, id, accepted).tasks[id].phase == Settled(Refused)
  {}

  /** Any other update of a state that is an action leaves its version when it is applied. */
  lemma VersionedUpdates(s: Satellite, id: nat)
    requires id < |s.tasks| && (s.tasks[id].update.state == ON || s.tasks[id].update.state == OFF)
    requires var v := s.tasks[id].update.version; v.epoch != "" && 1 <= v.revision < 9007199254740992
    ensures var u := s.tasks[id].update;
      && (s.tasks[id].phase == Commanding ==> Commanded(s, id, true).versions == s.versions[u.activity := u.version])
      && (s.tasks[id].phase == Reading && Asks(u, Device(s, u.activity)) ==>
          ReadBack(s, id, true).versions == s.versions[u.activity := u.version])
  {}

  /** A call that has read the state of the activity is done when that is the state asked for, or on its way there;
      otherwise, also when the state could not be read, it sends the command, noted with the time. */
  lemma {:induction false} CommandedExactly(y: System, steps: seq<Step>, id: nat, readable: bool)
    requires Start(y) && |steps| <= 0x1F_FFFF_FFFF_FFFF && id < |Run(y, steps).satellite.tasks|
    requires Run(y, steps).satellite.tasks[id].phase == Reading
    ensures var s, t := Run(y, steps).satellite, Run(y, steps + [Read(id, readable)]).satellite;
      var u := s.tasks[id].update;
      var there := readable && Asks(u, Device(s, u.activity));
      && t.tasks[id].phase == (if there then Settled(AlreadyThere) else Commanding)
      && t.notes == s.notes +
        if there then [] else [Armed((u.activity, if u.state == ON then TurnOn else TurnOff), s.now)]
  {
    hide Run, Chained, Start;
    RunKeeps(y, steps);
    var z := Run(y, steps);
    RunStep(y, steps, Read(id, readable));
    NumberedIsUsable(z.primary);
    TaskSent(z.primary.sent, z.primary.epoch, z.satellite, id);
  }

  /** A command that succeeds leaves the activity in the state asked for; one that fails changes neither states nor
      versions. */
  lemma {:induction false} CommandsTakeEffect(y: System, steps: seq<Step>, id: nat, ok: bool)
    requires Start(y) && |steps| <= 0x1F_FFFF_FFFF_FFFF && id < |Run(y, steps).satellite.tasks|
    requires Run(y, steps).satellite.tasks[id].phase == Commanding
    ensures var s, t := Run(y, steps).satellite, Run(y, steps + [Command(id, ok)]).satellite;
      var u := s.tasks[id].update;
      && t.tasks[id].phase == (if ok then Settled(Changed) else Settled(CommandFailed))
      && (ok ==> Device(t, u.activity) == u.state) && (!ok ==> t.devices == s.devices && t.versions == s.versions)
      && t.notes == s.notes +
        if ok then [] else [Withdrawn((u.activity, if u.state == ON then TurnOn else TurnOff), s.now)]
  {
    hide Run, Chained, Start;
    RunKeeps(y, steps);
    var z := Run(y, steps);
    RunStep(y, steps, Command(id, ok));
    NumberedIsUsable(z.primary);
    TaskSent(z.primary.sent, z.primary.epoch, z.satellite, id);
  }

  // ---------------------------------------------------------------------------
  // The manager object
  // ---------------------------------------------------------------------------

  /** One node's manager. The calls in flight, the activities on the Core, the clock and the notes stand for
      what the source keeps in promises and outside the process. */
  class ActivitySyncManager {
    const sourceEpoch: string
    var stateRevisions: map<string, nat>
    var lastObservedStates: map<string, ActivityState>
    var sent: seq<Update>
    var appliedStateVersions: map<string, Version>
    var applyQueues: map<string, nat>
    var relaySuppressions: map<(string, Action), int>
    var calls: seq<Task>
    var devices: map<string, ActivityState>
    var now: int
    var notes: seq<Note>

    ghost function AsPrimary(): Primary
      reads this
    {
      Primary(sourceEpoch, stateRevisions, lastObservedStates, sent)
    }

    ghost function AsSatellite(): Satellite
      reads this
    {
      Satellite(calls, applyQueues, appliedStateVersions, relaySuppressions, devices, now, notes)
    }

    constructor (epoch: string, devices: map<string, ActivityState>, now: int)
      ensures AsPrimary() == Primary(epoch, map[], map[], [])
      ensures AsSatellite() == Satellite([], map[], map[], map[], devices, now, [])
    {
      sourceEpoch := epoch;
      stateRevisions, lastObservedStates, sent := map[], map[], [];
      appliedStateVersions, applyQueues, relaySuppressions, calls := map[], map[], map[], [];
      this.devices, this.now, notes := devices, now, [];
    }

    method StateUpdate(activity: string, state: ActivityState)
      modifies `stateRevisions, `sent
      ensures AsPrimary() == Publish(old(AsPrimary()), activity, state)
    {
      var revision := (if activity in stateRevisions then stateRevisions[activity] else 0) + 1;
      stateRevisions := stateRevisions[activity := revision];
      sent := sent + [Update(activity, state, Version(sourceEpoch, revision))];
    }

    method OnActivityEvent(activity: string, state: ActivityState)
      modifies `stateRevisions, `sent, `lastObservedStates
      ensures AsPrimary() == Broadcast(old(AsPrimary()), activity, state)
    {
      if ActionOf(state).None? { return; }
      if activity in lastObservedStates && lastObservedStates[activity] == state { return; }
      lastObservedStates := lastObservedStates[activity := state];
      StateUpdate(activity, state);
    }

    method InitializeActivity(activity: string, state: ActivityState)
      modifies `stateRevisions, `sent
      ensures AsPrimary() == Initialize(old(AsPrimary()), activity, state)
    {
      if ActionOf(state).None? { return; }
      StateUpdate(activity, state);
    }

    method Apply(update: Update) returns (id: nat)
      modifies `applyQueues, `calls
      ensures id == |old(calls)| && AsSatellite() == Arrive(old(AsSatellite()), update)
    {
      var activity := update.activity;
      var previous := if activity in applyQueues then Some(applyQueues[activity]) else None;
      id := |calls|;
      calls := calls + [Task(update, previous, Queued)];
      applyQueues := applyQueues[activity := id];
    }

    method StartApplying(id: nat, accepted: bool)
      modifies `calls
      ensures AsSatellite() == Begin(old(AsSatellite()), id, accepted)
    {
      if id >= |calls| || calls[id].phase != Queued { return; }
      if calls[id].previous.Some? {
        var p := calls[id].previous.value;
        if p >= |calls| || !calls[p].phase.Settled? { return; }
      }
      var u := calls[id].update;
      var phase := Reading;
      if !accepted || ActionOf(u.state).None? {
        phase := Settled(Refused);
      } else if Versioned(u.version) && u.activity in appliedStateVersions {
        var current := appliedStateVersions[u.activity];
        if current.epoch == u.version.epoch && current.revision >= u.version.revision { phase := Settled(Stale); }
      }
      calls := calls[id := calls[id].(phase := phase)];
    }

    method OnStateRead(id: nat, readable: bool)
      modifies `calls, `appliedStateVersions, `relaySuppressions, `notes
      ensures AsSatellite() == ReadBack(old(AsSatellite()), id, readable)
    {
      if id >= |calls| || calls[id].phase != Reading { return; }
      var u := calls[id].update;
      var wanted := ActionOf(u.state);
      if wanted == None { return; }
      var current := if u.activity in devices then devices[u.activity] else OTHER;
      if readable && Matches(current, wanted.value) {
        if Versioned(u.version) { appliedStateVersions := appliedStateVersions[u.activity := u.version]; }
        calls := calls[id := calls[id].(phase := Settled(AlreadyThere))];
        return;
      }
      var key := (u.activity, wanted.value);
      relaySuppressions := relaySuppressions[key := now + SUPPRESSION_MS];
      notes := notes + [Armed(key, now)];
      calls := calls[id := calls[id].(phase := Commanding)];
    }

    method OnCommandDone(id: nat, ok: bool)
      modifies `calls, `appliedStateVersions, `relaySuppressions, `devices, `notes
      ensures AsSatellite() == Commanded(old(AsSatellite()), id, ok)
    {
      if id >= |calls| || calls[id].phase != Commanding { return; }
      var u := calls[id].update;
      var wanted := ActionOf(u.state);
      if wanted == None { return; }
      if ok {
        devices := devices[u.activity := u.state];
        if Versioned(u.version) { appliedStateVersions := appliedStateVersions[u.activity := u.version]; }
        calls := calls[id := calls[id].(phase := Settled(Changed))];
      } else {
        relaySuppressions := relaySuppressions - {(u.activity, wanted.value)};
        notes := notes + [Withdrawn((u.activity, wanted.value), now)];
        calls := calls[id := calls[id].(phase := Settled(CommandFailed))];
      }
    }

    method FinishApplying(id: nat)
      modifies `applyQueues
      ensures AsSatellite() == Release(old(AsSatellite()), id)
    {
      if id >= |calls| || !calls[id].phase.Settled? { return; }
      var activity := calls[id].update.activity;
      if activity in applyQueues && applyQueues[activity] == id { applyQueues := applyQueues - {activity}; }
    }

    /** True when the relay command is swallowed; otherwise the caller forwards it to the Primary. */
    method Forward(activity: string, action: Action) returns (suppressed: bool)
      modifies `relaySuppressions, `notes
      ensures AsSatellite() == Relay(old(AsSatellite()), activity, action)
      ensures notes == old(notes) + [Relayed((activity, action), suppressed, now)]
    {
      var key := (activity, action);
      suppressed := key in relaySuppressions && relaySuppressions[key] > now;
      relaySuppressions := relaySuppressions - {key};
      notes := notes + [Relayed(key, suppressed, now)];
    }
  }
}
