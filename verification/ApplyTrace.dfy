/** What one application of a snapshot asks of the Satellite's Core, and the rules for a run of such requests. */
module ApplyTrace {
  import opened Options
  import opened Json
  import opened References
  import Membership
  import Ordering

  // ---------------------------------------------------------------------------
  // Requests and answers
  // ---------------------------------------------------------------------------

  datatype Section = Macros | Activities

  datatype Request =
    | Inhibit
    | Release
    | ListEntities
    | Configure(localIds: seq<string>)
    | PatchProxy(id: string)
    | DeleteProxy(id: string)
    | Probe(section: Section, id: string)
    | ProbeEntity(id: string)
    | Create(section: Section, payload: Json)
    | PatchPlain(section: Section, id: string, fields: seq<Field>)
    | PatchMembership(id: string, metadata: seq<Field>, ids: seq<string>)
    | PatchContent(id: string, options: seq<Field>, ids: seq<string>)
    | PatchButtons(section: Section, id: string, payload: Json)
    | PostButtons(section: Section, id: string, payload: Json)
    | ReadUi(section: Section, id: string)
    | EditUi(section: Section, id: string)
    | Prune(section: Section, id: string)
    | ResourceRequest
    | DockRequest
    | GroupRequest
    | ProfileRequest

  /** Success; the statuses 404, 405 and 400; and everything else, also a broken connection. */
  datatype Status = Accepted | Missing | Unsupported | Invalid | Broken

  /** What the Core does with one request: the status, an id it may return, the entities it lists, and what the
      answer adds to the mapping in a step that takes ids from it. */
  datatype Answer = Answer(status: Status, id: string, listed: set<string>, added: Mapping)
  {
    predicate Ok() {
      status.Accepted?
    }

    /** The Core does not offer the route, or refuses what was sent by it: another route is worth trying. */
    predicate AnotherWay() {
      status.Missing? || status.Unsupported? || status.Invalid?
    }
  }

  type Core = nat -> Answer

  /** A request and the mapping of the run at the moment it was sent. */
  datatype Sent = Sent(request: Request, mapping: Mapping)

  type Trace = seq<Sent>

  datatype Proxy = Proxy(targetId: string, localId: string, editable: bool)

  datatype Item = Item(sourceId: string, detail: seq<Field>, buttons: Option<Json>, ui: Option<Json>)

  datatype Manifest = Manifest(operationId: string, sections: set<string>, macros: seq<Item>, activities: seq<Item>)

  datatype Catalog = Catalog(mapping: Mapping, entities: seq<Proxy>)

  datatype Prepared = Prepared(item: Item, targetId: string)

  /** The records that a run has prepared before it fills any of them in. */
  datatype Plan = Plan(macros: seq<Prepared>, activities: seq<Prepared>)

  function PlanFor(plan: Plan, section: Section): seq<Prepared> {
    match section case Macros => plan.macros case Activities => plan.activities
  }

  function ItemsFor(manifest: Manifest, section: Section): seq<Item> {
    match section case Macros => manifest.macros case Activities => manifest.activities
  }

  predicate Includes(manifest: Manifest, section: Section) {
    match section case Macros => "macros" in manifest.sections case Activities => "activities" in manifest.sections
  }

  // ---------------------------------------------------------------------------
  // Payloads
  // ---------------------------------------------------------------------------

  /** What the update of one activity sends: its rewritten fields with the relay in place of its sequences. */
  function Rewritten(item: Item, m: Mapping): seq<Field> {
    Membership.ActivityRelayPayload(UpdatePayload(item, m), item.sourceId)
  }

  function UpdatePayload(item: Item, m: Mapping): Json {
    RewriteConfiguredReferences(Obj(CleanObject(Selected(item.detail, UPDATE_FIELDS))), m)
  }

  /** A page layout that is falsy counts as an empty object. */
  function OrEmpty(value: Option<Json>): Option<Json> {
    match value
    case Some(v) => Some(if v in {Null, Bool(false), Num("0"), Num("-0"), Str("")} then Obj([]) else v)
    case None => None
  }

  function RewrittenMaybe(value: Option<Json>, m: Mapping): Option<Json> {
    match value case None => None case Some(v) => Some(RewriteConfiguredReferences(v, m))
  }

  const UPDATE_FIELDS: seq<string> := ["name", "icon", "description", "options"]
  const CREATE_FIELDS: seq<string> := ["name", "icon", "description"]
  const READ_ONLY_KEYS: set<string> := {
    "entity_type", "integration_id", "features", "attributes", "available", "state", "device_state", "driver_state",
    "entity_commands", "simple_commands", "commands"}

  /** The allowed fields that are there and not null, in the order of what is allowed. */
  function Selected(fields: seq<Field>, allowed: seq<string>): seq<Field> {
    if allowed == [] then []
    else
      (match Get(fields, allowed[0])
       case Some(value) => if value == Null then [] else [Field(allowed[0], value)]
       case None => [])
      + Selected(fields, allowed[1..])
  }

  function CleanPayload(value: Json): Json
    decreases value, 1
  {
    match value
    case Arr(items) => Arr(CleanList(items))
    case Obj(fields) => Obj(CleanObject(fields))
    case _ => value
  }

  function CleanList(items: seq<Json>): seq<Json>
    decreases items, 0
  {
    if items == [] then [] else [CleanPayload(items[0])] + CleanList(items[1..])
  }

  function CleanObject(fields: seq<Field>): seq<Field>
    decreases fields, 0
  {
    if fields == [] then []
    else
      (if fields[0].key in READ_ONLY_KEYS then [] else [Field(fields[0].key, CleanPayload(fields[0].value))])
      + CleanObject(fields[1..])
  }

  /** The update has options that are an object. */
  predicate HasOptions(update: seq<Field>) {
    Get(update, "options").Some? && Get(update, "options").value.Obj?
  }

  function Ids(item: Item, m: Mapping): seq<string> {
    var options := match Get(Rewritten(item, m), "options") case Some(value) => value case None => Obj([]);
    Membership.MembershipIds(options, RewrittenMaybe(item.buttons, m), RewrittenMaybe(OrEmpty(item.ui), m))
  }

  /** The requests that fill in one prepared record, under a mapping. */
  function PlainOf(p: Prepared, m: Mapping): Request {
    PatchPlain(Macros, p.targetId, Membership.FieldsOf(Some(UpdatePayload(p.item, m))))
  }

  function MembershipOf(p: Prepared, m: Mapping): Request {
    PatchMembership(p.targetId, Without(Rewritten(p.item, m), "options"), Ids(p.item, m))
  }

  function ContentOf(p: Prepared, m: Mapping): Request {
    PatchContent(p.targetId, Membership.FieldsOf(Get(Rewritten(p.item, m), "options")), Ids(p.item, m))
  }

  function ButtonsOf(p: Prepared, m: Mapping): Json {
    match RewrittenMaybe(p.item.buttons, m) case Some(value) => value case None => Null
  }

  function NewPayload(item: Item, m: Mapping): Json {
    Rename(Obj(Selected(item.detail, CREATE_FIELDS)), m)
  }

  // ---------------------------------------------------------------------------
  // Kinds of requests
  // ---------------------------------------------------------------------------

  /** Requests that fill in a prepared record. */
  predicate Finishing(r: Request) {
    r.PatchPlain? || r.PatchMembership? || r.PatchContent? || r.PatchButtons? || r.PostButtons? || r.ReadUi?
      || r.EditUi?
  }

  predicate Late(r: Request) {
    r.GroupRequest? || r.ProfileRequest?
  }

  /** Requests with no rule of their own. */
  predicate Plain(r: Request) {
    !r.DeleteProxy? && !Late(r) && !Finishing(r)
  }

  /** Only requests with no rule of their own were added. */
  ghost predicate Grown(before: Trace, after: Trace)
    ensures Grown(before, after) ==> before <= after
  {
    before <= after && forall i :: |before| <= i < |after| ==> Plain(after[i].request)
  }

  lemma NothingGrown(trace: Trace)
    ensures Grown(trace, trace)
  {}

  lemma GrownTwice(before: Trace, middle: Trace, after: Trace)
    requires Grown(before, middle) && Grown(middle, after)
    ensures Grown(before, after)
  {
    forall i | |before| <= i < |middle| ensures Plain(after[i].request) { assert after[i] == middle[i]; }
  }

  lemma GrownBy(before: Trace, middle: Trace, after: Trace, r: Request)
    requires Grown(before, middle) && middle <= after && Plain(r)
    requires forall i :: |middle| <= i < |after| ==> after[i].request == r
    ensures Grown(before, after)
  {
    GrownTwice(before, middle, after);
  }

  lemma OneMorePlain(before: Trace, middle: Trace, s: Sent)
    requires Grown(before, middle) && Plain(s.request)
    ensures Grown(before, middle + [s])
  {
    GrownTwice(before, middle, middle + [s]);
  }

  // ---------------------------------------------------------------------------
  // What the Core said
  // ---------------------------------------------------------------------------

  /** The Core listed this entity in an answer from `start` on. */
  ghost predicate Known(core: Core, trace: Trace, start: nat, id: string) {
    exists i: nat :: start <= i < |trace| && trace[i].request == ListEntities && core(i).Ok() && id in core(i).listed
  }

  ghost predicate Taken(core: Core, trace: Trace, start: nat, r: Request) {
    exists i: nat :: start <= i < |trace| && trace[i].request == r && core(i).Ok()
  }

  /** A deletion counts when the object was not there. */
  predicate Gone(a: Answer) {
    a.status.Accepted? || a.status.Missing?
  }

  ghost predicate Deleted(core: Core, trace: Trace, start: nat, r: Request) {
    exists i: nat :: start <= i < |trace| && trace[i].request == r && core(i).status in {Accepted, Missing}
  }

  ghost predicate Retained(core: Core, trace: Trace, start: nat, r: Request) {
    exists i: nat :: start <= i < |trace| && trace[i].request == r && core(i).status !in {Accepted, Missing}
  }

  /** A counterpart of this section that no record of the manifest has. */
  ghost predicate Obsolete(key: (Section, string), section: Section, current: seq<Item>) {
    key.0 == section && forall item :: item in current ==> item.sourceId != key.1
  }

  lemma Answered(core: Core, before: Trace, start: nat, s: Sent)
    requires start <= |before|
    ensures if Gone(core(|before|))
      then Deleted(core, before + [s], start, s.request) else Retained(core, before + [s], start, s.request)
    ensures forall q :: Deleted(core, before, start, q) ==> Deleted(core, before + [s], start, q)
    ensures forall q :: Retained(core, before, start, q) ==> Retained(core, before + [s], start, q)
  {
    var after := before + [s];
    assert after[|before|] == s;
    forall q | Deleted(core, before, start, q) ensures Deleted(core, after, start, q) {
      var i: nat :| start <= i < |before| && before[i].request == q && core(i).status in {Accepted, Missing};
      assert after[i] == before[i];
    }
    forall q | Retained(core, before, start, q) ensures Retained(core, after, start, q) {
      var i: nat :| start <= i < |before| && before[i].request == q && core(i).status !in {Accepted, Missing};
      assert after[i] == before[i];
    }
  }

  lemma StaysTrue(core: Core, before: Trace, from: nat, after: Trace, start: nat)
    requires start <= from && before <= after
    ensures forall id :: Known(core, before, from, id) ==> Known(core, after, start, id)
    ensures forall r :: Taken(core, before, from, r) ==> Taken(core, after, start, r)
  {
    forall id | Known(core, before, from, id) ensures Known(core, after, start, id) {
      var i: nat :| from <= i < |before| && before[i].request == ListEntities && core(i).Ok() && id in core(i).listed;
      assert after[i] == before[i];
    }
    forall r | Taken(core, before, from, r) ensures Taken(core, after, start, r) {
      var i: nat :| from <= i < |before| && before[i].request == r && core(i).Ok();
      assert after[i] == before[i];
    }
  }

  lemma TakenNow(core: Core, before: Trace, start: nat, s: Sent)
    requires start <= |before| && core(|before|).Ok()
    ensures Taken(core, before + [s], start, s.request)
  {
    assert (before + [s])[|before|] == s;
  }

  // ---------------------------------------------------------------------------
  // Finding or creating a counterpart
  // ---------------------------------------------------------------------------

  /** The Core has this record: as a record of its kind or, for a macro, as an entity. */
  ghost predicate Found(core: Core, trace: Trace, start: nat, section: Section, id: string) {
    Taken(core, trace, start, Probe(section, id)) || (section == Macros && Taken(core, trace, start, ProbeEntity(id)))
  }

  /** The Core was asked for this record at `i` and does not have it. */
  ghost predicate DeniedAt(core: Core, trace: Trace, i: nat, section: Section, id: string) {
    && i < |trace| && trace[i].request == Probe(section, id) && core(i).status == Missing
    && (section == Macros ==>
        i + 1 < |trace| && trace[i + 1].request == ProbeEntity(id) && core(i + 1).status == Missing)
  }

  ghost predicate Denied(core: Core, trace: Trace, start: nat, section: Section, id: string) {
    exists i: nat :: start <= i && DeniedAt(core, trace, i, section, id)
  }

  /** The last request created a record, and the answer gave it this id; or the Core did not create it. */
  ghost predicate CreatedLast(core: Core, trace: Trace, r: Request, id: string) {
    trace != [] && trace[|trace| - 1].request == r && id == if core(|trace| - 1).Ok() then core(|trace| - 1).id else ""
  }

  /** The remembered counterpart when the Core has it; else the record of the same id when the Core has that;
      else what the Core created last from this payload. */
  ghost predicate Located(core: Core, trace: Trace, start: nat, section: Section, item: Item, known: string,
                          payload: Json, targetId: string)
  {
    || (known != "" && targetId == known && Found(core, trace, start, section, known))
    || ((known != "" ==> Denied(core, trace, start, section, known))
        && (|| (targetId == item.sourceId && Found(core, trace, start, section, item.sourceId))
            || (Denied(core, trace, start, section, item.sourceId)
                && CreatedLast(core, trace, Create(section, payload), targetId))))
  }

  /** The Core has a record of this id, or created one and told this id. */
  ghost predicate Told(core: Core, trace: Trace, start: nat, section: Section, id: string) {
    || Found(core, trace, start, section, id)
    || exists i: nat :: start <= i < |trace| && trace[i].request.Create? && trace[i].request.section == section
         && core(i).Ok() && core(i).id == id
  }

  lemma StillFound(core: Core, before: Trace, from: nat, after: Trace, start: nat, section: Section, id: string)
    requires start <= from && before <= after
    ensures Found(core, before, from, section, id) ==> Found(core, after, start, section, id)
    ensures Denied(core, before, from, section, id) ==> Denied(core, after, start, section, id)
  {
    StaysTrue(core, before, from, after, start);
    if i: nat :| from <= i && DeniedAt(core, before, i, section, id) {
      assert after[i] == before[i] && (i + 1 < |before| ==> after[i + 1] == before[i + 1]);
      assert DeniedAt(core, after, i, section, id);
    }
  }

  lemma StaysTold(core: Core, before: Trace, from: nat, after: Trace, start: nat, section: Section)
    requires start <= from && before <= after
    ensures forall id :: Told(core, before, from, section, id) ==> Told(core, after, start, section, id)
  {
    hide Found;
    forall id | Told(core, before, from, section, id) ensures Told(core, after, start, section, id) {
      StillFound(core, before, from, after, start, section, id);
      if !Found(core, before, from, section, id) {
        var i: nat :| from <= i < |before| && before[i].request.Create? && before[i].request.section == section
          && core(i).Ok() && core(i).id == id;
        assert after[i] == before[i];
      }
    }
  }

  lemma LocatedIsTold(core: Core, trace: Trace, start: nat, section: Section, item: Item, known: string, payload: Json,
                      targetId: string)
    requires Located(core, trace, start, section, item, known, payload, targetId) && targetId != ""
    ensures Told(core, trace, start, section, targetId)
  {}

  lemma LocatedFirst(core: Core, trace: Trace, start: nat, section: Section, item: Item, known: string, payload: Json)
    requires known != ""
    ensures Found(core, trace, start, section, known) ==>
      Located(core, trace, start, section, item, known, payload, known)
  {}

  lemma LocatedSecond(core: Core, missed: Trace, trace: Trace, start: nat, section: Section, item: Item, known: string,
                      payload: Json)
    requires (known != "" ==> Denied(core, missed, start, section, known)) && start <= |missed| && missed <= trace
    requires Found(core, trace, |missed|, section, item.sourceId)
    ensures Located(core, trace, start, section, item, known, payload, item.sourceId)
  {
    hide Found, Denied;
    StillFound(core, missed, start, trace, start, section, known);
    StillFound(core, trace, |missed|, trace, start, section, item.sourceId);
  }

  lemma LocatedThird(core: Core, missed: Trace, before: Trace, start: nat, section: Section, item: Item, known: string,
                     payload: Json, m: Mapping)
    requires (known != "" ==> Denied(core, missed, start, section, known)) && start <= |missed| && missed <= before
    requires Denied(core, before, |missed|, section, item.sourceId)
    ensures Located(core, before + [Sent(Create(section, payload), m)], start, section, item, known, payload,
                    if core(|before|).Ok() then core(|before|).id else "")
  {
    hide Found, Denied;
    var trace := before + [Sent(Create(section, payload), m)];
    StillFound(core, missed, start, trace, start, section, known);
    StillFound(core, before, |missed|, trace, start, section, item.sourceId);
    assert CreatedLast(core, trace, Create(section, payload), if core(|before|).Ok() then core(|before|).id else "");
  }

  // ---------------------------------------------------------------------------
  // The prepared records
  // ---------------------------------------------------------------------------

  function KnownId(stored: map<(Section, string), string>, section: Section, item: Item): string {
    if (section, item.sourceId) in stored then stored[(section, item.sourceId)] else ""
  }

  /** The mapping after the prepared records were entered, the last of each id counting. */
  function Bound(m: Mapping, prepared: seq<Prepared>): Mapping {
    if prepared == [] then m
    else
      var n := |prepared| - 1;
      Bound(m, prepared[..n])[prepared[n].item.sourceId := prepared[n].targetId]
  }

  function Remembered(stored: map<(Section, string), string>, section: Section,
                      prepared: seq<Prepared>): map<(Section, string), string>
  {
    if prepared == [] then stored
    else
      var n := |prepared| - 1;
      Remembered(stored, section, prepared[..n])[(section, prepared[n].item.sourceId) := prepared[n].targetId]
  }

  lemma BoundNext(m: Mapping, stored: map<(Section, string), string>, section: Section, prepared: seq<Prepared>,
                  p: Prepared)
    ensures Bound(m, prepared + [p]) == Bound(m, prepared)[p.item.sourceId := p.targetId]
    ensures Remembered(stored, section, prepared + [p])
      == Remembered(stored, section, prepared)[(section, p.item.sourceId) := p.targetId]
  {
    assert (prepared + [p])[..|prepared|] == prepared;
  }

  /** What is prepared is what a later run knows, and nothing else is known. */
  lemma RememberedIsKnown(stored: map<(Section, string), string>, section: Section, prepared: seq<Prepared>,
                          p: Prepared, other: Section, item: Item)
    ensures KnownId(map[], other, item) == ""
    ensures KnownId(Remembered(stored, section, prepared + [p]), other, item) ==
      if other == section && item.sourceId == p.item.sourceId then p.targetId
      else KnownId(Remembered(stored, section, prepared), other, item)
  {
    BoundNext(map[], stored, section, prepared, p);
  }

  lemma NothingBound(m: Mapping, stored: map<(Section, string), string>, section: Section)
    ensures Bound(m, []) == m && Remembered(stored, section, []) == stored
  {}

  ghost predicate IsPrepared(prepared: seq<Prepared>, item: Item) {
    exists p :: p in prepared && p.item == item
  }

  /** Each prepared record is one of the manifest with an id, under an id that the Core told. */
  ghost predicate AllTold(core: Core, trace: Trace, start: nat, section: Section, items: seq<Item>,
                          prepared: seq<Prepared>)
  {
    forall p :: p in prepared ==>
      p.item in items && p.item.sourceId != "" && p.targetId != "" && Told(core, trace, start, section, p.targetId)
  }

  /** Each of the first `n` records that has an id is prepared or reported. */
  ghost predicate Accounted(prepared: seq<Prepared>, items: seq<Item>, n: nat, errors: seq<string>) {
    forall k :: 0 <= k < n <= |items| && items[k].sourceId != "" ==>
      IsPrepared(prepared, items[k]) || "Create " + items[k].sourceId in errors
  }

  function Named(items: seq<Item>): nat {
    if items == [] then 0 else (if items[0].sourceId == "" then 0 else 1) + Named(items[1..])
  }

  /** It counts the records that have an id. */
  lemma {:induction false} NamedIsExact(items: seq<Item>)
    ensures Named(items) == |set i | 0 <= i < |items| && items[i].sourceId != ""|
  {
    if items != [] {
      var n := |items| - 1;
      NamedIsExact(items[..n]);
      NamedLast(items[..n], items[n]);
      assert items[..n] + [items[n]] == items;
      var fewer := set i | 0 <= i < n && items[..n][i].sourceId != "";
      assert fewer == set i | 0 <= i < n && items[i].sourceId != "";
      assert (set i | 0 <= i < |items| && items[i].sourceId != "")
        == fewer + if items[n].sourceId != "" then {n} else {};
    }
  }

  lemma {:induction false} NamedLast(items: seq<Item>, item: Item)
    ensures Named(items + [item]) == Named(items) + if item.sourceId != "" then 1 else 0
  {
    if items == [] {
      assert items + [item] == [item];
    } else {
      assert (items + [item])[1..] == items[1..] + [item];
      NamedLast(items[1..], item);
    }
  }

  lemma NothingPrepared(core: Core, trace: Trace, start: nat, section: Section, items: seq<Item>, errors: seq<string>)
    ensures AllTold(core, trace, start, section, items, []) && Accounted([], items, 0, errors)
  {}

  lemma AllStayTold(core: Core, before: Trace, from: nat, after: Trace, start: nat, section: Section, items: seq<Item>,
                    prepared: seq<Prepared>)
    requires before <= after && start <= from && AllTold(core, before, from, section, items, prepared)
    ensures AllTold(core, after, start, section, items, prepared)
  {
    hide Told;
    StaysTold(core, before, from, after, start, section);
  }

  lemma OneTold(core: Core, trace: Trace, from: nat, start: nat, section: Section, items: seq<Item>,
                prepared: seq<Prepared>, p: Prepared)
    requires AllTold(core, trace, start, section, items, prepared) && start <= from
    requires p.item in items && p.item.sourceId != "" && p.targetId != ""
      && Told(core, trace, from, section, p.targetId)
    ensures AllTold(core, trace, start, section, items, prepared + [p])
  {
    hide Told;
    StaysTold(core, trace, from, trace, start, section);
  }

  lemma AccountedNext(prepared: seq<Prepared>, more: seq<Prepared>, items: seq<Item>, i: nat, errors: seq<string>,
                      others: seq<string>)
    requires i < |items| && Accounted(prepared, items, i, errors) && prepared <= more && errors <= others
    requires || items[i].sourceId == "" || "Create " + items[i].sourceId in others
             || (more != [] && more[|more| - 1].item == items[i])
    ensures Accounted(more, items, i + 1, others)
  {
    forall k | 0 <= k < i + 1 && items[k].sourceId != ""
      ensures IsPrepared(more, items[k]) || "Create " + items[k].sourceId in others
    {
      if k < i && IsPrepared(prepared, items[k]) {
        var p :| p in prepared && p.item == items[k];
        assert p in more;
      }
    }
  }

  // ---------------------------------------------------------------------------
  // The mapping of a run
  // ---------------------------------------------------------------------------

  ghost predicate Agrees(m: Mapping, base: Mapping, key: string) {
    (key in m <==> key in base) && (key in m ==> m[key] == base[key])
  }

  /** Some answer between `start` and `i` added this key with the value it has. */
  ghost predicate Added(core: Core, start: nat, i: nat, m: Mapping, key: string) {
    key in m && exists j: nat :: start <= j <= i && key in core(j).added && m[key] == core(j).added[key]
  }

  /** The mapping is the base of the run but for what the Core added in it. */
  ghost predicate Follows(core: Core, start: nat, i: nat, m: Mapping, base: Mapping) {
    forall key :: Agrees(m, base, key) || Added(core, start, i, m, key)
  }

  lemma FollowsOn(core: Core, start: nat, i: nat, from: nat, j: nat, m: Mapping, n: Mapping, base: Mapping)
    requires Follows(core, start, i, m, base) && Follows(core, from, j, n, m) && start <= from && i <= j
    ensures Follows(core, start, j, n, base)
  {
    forall key ensures Agrees(n, base, key) || Added(core, start, j, n, key) {
      assert Agrees(n, m, key) || Added(core, from, j, n, key);
      assert Agrees(m, base, key) || Added(core, start, i, m, key);
    }
  }

  lemma FollowsLater(core: Core, start: nat, i: nat, j: nat, m: Mapping, base: Mapping)
    requires Follows(core, start, i, m, base) && i <= j
    ensures Follows(core, start, j, m, base)
  {
    FollowsItself(core, start, j, m);
    FollowsOn(core, start, i, start, j, m, m, base);
  }

  lemma FollowsItself(core: Core, start: nat, i: nat, m: Mapping)
    ensures Follows(core, start, i, m, m)
  {}

  /** All that the answers from `from` to `end` added, later ones over earlier ones. */
  function AddedBetween(core: Core, from: nat, end: nat): Mapping
    decreases end
  {
    if end <= from then map[] else AddedBetween(core, from, end - 1) + core(end - 1).added
  }

  lemma AddedNext(core: Core, from: nat, end: nat, m: Mapping)
    requires from <= end
    ensures m + AddedBetween(core, from, end + 1) == m + AddedBetween(core, from, end) + core(end).added
  {}

  lemma FollowsMore(core: Core, start: nat, i: nat, m: Mapping)
    requires start <= i
    ensures Follows(core, start, i, m + core(i).added, m)
  {
    forall key ensures Agrees(m + core(i).added, m, key) || Added(core, start, i, m + core(i).added, key) {
      if key in core(i).added { assert Added(core, start, i, m + core(i).added, key); }
    }
  }

  /** What was added at `at` shows in the mapping from then on. */
  lemma FollowsAfter(core: Core, start: nat, at: nat, i: nat, before: Mapping, after: Mapping, base: Mapping)
    requires Follows(core, start, i, before, base) && Follows(core, at, at, after, before) && start <= at <= i
    ensures Follows(core, start, i, after, base)
  {
    forall key ensures Agrees(after, base, key) || Added(core, start, i, after, key) {
      assert Agrees(after, before, key) || Added(core, at, at, after, key);
      assert Agrees(before, base, key) || Added(core, start, i, before, key);
    }
  }

  lemma {:induction false} FollowsBound(core: Core, start: nat, i: nat, m: Mapping, base: Mapping,
                                        prepared: seq<Prepared>)
    requires Follows(core, start, i, m, base)
    ensures Follows(core, start, i, Bound(m, prepared), Bound(base, prepared))
  {
    if prepared != [] {
      var n := |prepared| - 1;
      FollowsBound(core, start, i, m, base, prepared[..n]);
      var earlier := Bound(m, prepared[..n]);
      forall key
        ensures Agrees(Bound(m, prepared), Bound(base, prepared), key) || Added(core, start, i, Bound(m, prepared), key)
      {
        assert Agrees(earlier, Bound(base, prepared[..n]), key) || Added(core, start, i, earlier, key);
      }
    }
  }

  /** What the mapping of a run starts from: the proxies, then the macros, then the activities. */
  function Base(mapping: Mapping, plan: Plan): Mapping {
    Bound(Bound(mapping, plan.macros), plan.activities)
  }

  /** At the end of the staging the mapping is that of the proxies, with what the Docks added, under the plan. */
  lemma BaseFollows(core: Core, start: nat, from: nat, middle: nat, i: nat, m: Mapping, mapping: Mapping, plan: Plan)
    requires start <= from <= middle <= i && Follows(core, from, middle, m, mapping)
    ensures Follows(core, start, i, Base(m, plan), Base(mapping, plan))
  {
    FollowsItself(core, start, from, mapping);
    FollowsOn(core, start, from, from, middle, mapping, m, mapping);
    FollowsLater(core, start, middle, i, m, mapping);
    FollowsBound(core, start, i, m, mapping, plan.macros);
    FollowsBound(core, start, i, Bound(m, plan.macros), Bound(mapping, plan.macros), plan.activities);
  }

  // ---------------------------------------------------------------------------
  // Failures
  // ---------------------------------------------------------------------------

  /** Request `i` ends the filling in of its record with an error. Buttons are sent a second way when the first
      is not known, missing or invalid; then only an invalid one, or a broken connection, is an error. */
  predicate Fails(core: Core, trace: Trace, i: nat)
    requires i < |trace|
  {
    match trace[i].request
    case PatchPlain(_, _, _) => !core(i).Ok()
    case PatchMembership(_, _, _) => !core(i).Ok()
    case PatchContent(_, _, _) => !core(i).Ok()
    case PatchButtons(_, _, _) => core(i).status.Broken?
    case PostButtons(_, _, _) =>
      || core(i).status.Broken? || core(i).status.Invalid?
      || (!core(i).Ok() && i > 0 && core(i - 1).status.Invalid?)
    case ReadUi(_, _) => core(i).status.Invalid? || core(i).status.Broken?
    case _ => false
  }

  function Failures(core: Core, trace: Trace, from: nat, end: nat): nat
    requires from <= end <= |trace|
    decreases end
  {
    if from == end then 0 else Failures(core, trace, from, end - 1) + if Fails(core, trace, end - 1) then 1 else 0
  }

  ghost predicate NoFailure(core: Core, trace: Trace, from: nat, end: nat) {
    end <= |trace| && forall i: nat :: from <= i < end ==> !Fails(core, trace, i)
  }

  /** The last request fails and none before it. */
  ghost predicate Stops(core: Core, trace: Trace, from: nat) {
    from < |trace| && NoFailure(core, trace, from, |trace| - 1) && Fails(core, trace, |trace| - 1)
  }

  lemma {:induction false} NoneFailed(core: Core, trace: Trace, from: nat, end: nat)
    requires from <= end <= |trace|
    ensures Failures(core, trace, from, end) == 0 <==> NoFailure(core, trace, from, end)
    decreases end
  {
    if end > from {
      NoneFailed(core, trace, from, end - 1);
      if Failures(core, trace, from, end) == 0 {
        forall i: nat | from <= i < end ensures !Fails(core, trace, i) {}
      }
    }
  }

  lemma {:induction false} FailuresJoin(core: Core, before: Trace, after: Trace, from: nat, middle: nat, end: nat)
    requires from <= middle <= |before| && before <= after && middle <= end <= |after|
    ensures Failures(core, after, from, end) == Failures(core, before, from, middle)
      + Failures(core, after, middle, end)
    decreases end
  {
    if end != middle {
      FailuresJoin(core, before, after, from, middle, end - 1);
    } else {
      FailuresSame(core, before, after, from, middle);
    }
  }

  lemma {:induction false} FailuresSame(core: Core, before: Trace, after: Trace, from: nat, end: nat)
    requires from <= end <= |before| && before <= after
    ensures Failures(core, after, from, end) == Failures(core, before, from, end)
    decreases end
  {
    if end > from {
      FailuresSame(core, before, after, from, end - 1);
      assert after[end - 1] == before[end - 1];
    }
  }

  lemma OneFailed(core: Core, trace: Trace, from: nat)
    requires Stops(core, trace, from)
    ensures Failures(core, trace, from, |trace|) == 1
  {
    NoneFailed(core, trace, from, |trace| - 1);
  }

  lemma GrownFailsNot(core: Core, before: Trace, after: Trace)
    requires Grown(before, after)
    ensures NoFailure(core, after, |before|, |after|)
  {
    forall i: nat | |before| <= i < |after| ensures !Fails(core, after, i) { assert Plain(after[i].request); }
  }

  lemma NoFailureJoin(core: Core, before: Trace, after: Trace, from: nat)
    requires NoFailure(core, before, from, |before|) && before <= after && NoFailure(core, after, |before|, |after|)
    ensures NoFailure(core, after, from, |after|)
  {
    forall i: nat | from <= i < |after| ensures !Fails(core, after, i) {
      if i < |before| { assert after[i] == before[i] && !Fails(core, before, i); }
    }
  }

  // ---------------------------------------------------------------------------
  // Filling in a record
  // ---------------------------------------------------------------------------

  /** Request `i` is one of those that fill in `p`, rewritten under the mapping at that moment; content directly
      follows the membership that the Core took, and the second way to send buttons directly follows the first. */
  ghost predicate OneOf(core: Core, trace: Trace, start: nat, i: nat, section: Section, p: Prepared)
    requires i < |trace|
  {
    var m := trace[i].mapping;
    match trace[i].request
    case PatchPlain(_, _, _) => section == Macros && trace[i].request == PlainOf(p, m)
    case PatchMembership(_, _, _) => section == Activities && trace[i].request == MembershipOf(p, m)
    case PatchContent(_, _, _) =>
      && section == Activities && trace[i].request == ContentOf(p, m)
      && i > start && trace[i - 1].request == MembershipOf(p, m) && core(i - 1).Ok()
    case PatchButtons(_, _, _) => p.item.buttons.Some?
      && trace[i].request == PatchButtons(section, p.targetId, ButtonsOf(p, m))
    case PostButtons(_, _, _) =>
      && p.item.buttons.Some? && trace[i].request == PostButtons(section, p.targetId, ButtonsOf(p, m))
      && i > start && trace[i - 1].request == PatchButtons(section, p.targetId, ButtonsOf(p, m))
      && core(i - 1).AnotherWay()
    case ReadUi(_, _) => p.item.ui.Some? && trace[i].request == ReadUi(section, p.targetId)
    case EditUi(_, _) => p.item.ui.Some? && trace[i].request == EditUi(section, p.targetId)
    case _ => false
  }

  /** All requests from `from` on fill in `p`. */
  ghost predicate Doing(core: Core, trace: Trace, start: nat, from: nat, section: Section, p: Prepared, base: Mapping) {
    forall i: nat :: from <= i < |trace| ==>
      OneOf(core, trace, start, i, section, p) && Follows(core, start, i, trace[i].mapping, base)
  }

  /** Request `i` fills in some record of the plan, under a mapping that follows the base of the run. */
  ghost predicate Rightful(core: Core, trace: Trace, start: nat, i: nat, plan: Plan, base: Mapping)
    requires i < |trace|
  {
    && Follows(core, start, i, trace[i].mapping, base)
    && exists section, p :: p in PlanFor(plan, section) && OneOf(core, trace, start, i, section, p)
  }

  ghost predicate Ruled(core: Core, trace: Trace, start: nat, plan: Plan, base: Mapping) {
    forall i: nat :: start <= i < |trace| && Finishing(trace[i].request) ==> Rightful(core, trace, start, i, plan, base)
  }

  lemma OneOfStays(core: Core, before: Trace, after: Trace, start: nat, i: nat, section: Section, p: Prepared)
    requires before <= after && i < |before|
    ensures OneOf(core, before, start, i, section, p) <==> OneOf(core, after, start, i, section, p)
  {
    hide PlainOf, MembershipOf, ContentOf, ButtonsOf;
    assert after[i] == before[i] && (i > 0 ==> after[i - 1] == before[i - 1]);
  }

  lemma DoingJoin(core: Core, before: Trace, after: Trace, start: nat, from: nat, section: Section, p: Prepared,
                  base: Mapping)
    requires Doing(core, before, start, from, section, p, base) && before <= after
    requires Doing(core, after, start, |before|, section, p, base)
    ensures Doing(core, after, start, from, section, p, base)
  {
    hide OneOf, Follows;
    forall i: nat | from <= i < |after|
      ensures OneOf(core, after, start, i, section, p) && Follows(core, start, i, after[i].mapping, base)
    {
      if i < |before| {
        OneOfStays(core, before, after, start, i, section, p);
        assert after[i] == before[i];
      }
    }
  }

  lemma NothingDone(core: Core, trace: Trace, start: nat, section: Section, p: Prepared, base: Mapping)
    ensures Doing(core, trace, start, |trace|, section, p, base) && NoFailure(core, trace, |trace|, |trace|)
  {}

  lemma StopsJoin(core: Core, before: Trace, after: Trace, from: nat)
    requires NoFailure(core, before, from, |before|) && before <= after && from <= |before|
      && Stops(core, after, |before|)
    ensures Stops(core, after, from)
  {
    forall i: nat | from <= i < |after| - 1 ensures !Fails(core, after, i) {
      if i < |before| { assert after[i] == before[i] && !Fails(core, before, i); }
    }
  }

  /** The members of an activity go first; its options follow when the Core took them. */
  lemma ActivitySent(core: Core, before: Trace, after: Trace, start: nat, p: Prepared, m: Mapping, base: Mapping)
    requires start <= |before| && Follows(core, start, |before|, m, base)
    requires var first, second := Sent(MembershipOf(p, m), m), Sent(ContentOf(p, m), m);
      after == if core(|before|).Ok() then before + [first, second] else before + [first]
    ensures Doing(core, after, start, |before|, Activities, p, base)
    ensures var thrown := !core(|before|).Ok() || !core(|before| + 1).Ok();
      if thrown then Stops(core, after, |before|)
      else NoFailure(core, after, |before|, |after|) && Updated(core, after, |before|, start, Activities, p, base)
  {
    hide Follows, Rewritten, Ids;
    FollowsLater(core, start, |before|, |before| + 1, m, base);
    assert after[|before|] == Sent(MembershipOf(p, m), m);
    if core(|before|).Ok() {
      assert after[|before| + 1] == Sent(ContentOf(p, m), m);
      if core(|before| + 1).Ok() { assert FieldsAt(core, after, |before| + 1, Activities, p); }
    }
  }

  lemma MacroSent(core: Core, before: Trace, after: Trace, start: nat, p: Prepared, m: Mapping, base: Mapping)
    requires start <= |before| && Follows(core, start, |before|, m, base)
    requires after == if PlainOf(p, m).fields == [] then before else before + [Sent(PlainOf(p, m), m)]
    ensures Doing(core, after, start, |before|, Macros, p, base)
    ensures if after != before && !core(|before|).Ok() then Stops(core, after, |before|)
      else NoFailure(core, after, |before|, |after|) && Updated(core, after, |before|, start, Macros, p, base)
  {
    hide Follows, UpdatePayload;
    if after == before {
      assert NoFields(core, start, |before|, m, p, base);
    } else {
      assert after[|before|] == Sent(PlainOf(p, m), m);
      if core(|before|).Ok() { assert FieldsAt(core, after, |before|, Macros, p); }
    }
  }

  /** Buttons go one way, and the other way when the Core does not know the first. */
  lemma ButtonsSent(core: Core, before: Trace, after: Trace, start: nat, section: Section, p: Prepared, m: Mapping,
                    base: Mapping)
    requires start <= |before| && Follows(core, start, |before|, m, base) && p.item.buttons.Some?
    requires var payload := ButtonsOf(p, m);
      var first, second :=
        Sent(PatchButtons(section, p.targetId, payload), m), Sent(PostButtons(section, p.targetId, payload), m);
      after == if core(|before|).AnotherWay() then before + [first, second] else before + [first]
    ensures Doing(core, after, start, |before|, section, p, base)
    ensures if Fails(core, after, |after| - 1) then Stops(core, after, |before|)
      else NoFailure(core, after, |before|, |after|) && ButtonsSettled(core, after, |before|, section, p)
  {
    hide Follows, ButtonsOf;
    FollowsLater(core, start, |before|, |before| + 1, m, base);
    assert after[|before|] == Sent(PatchButtons(section, p.targetId, ButtonsOf(p, m)), m);
    assert OneOf(core, after, start, |before|, section, p);
    if core(|before|).AnotherWay() {
      assert after[|before| + 1] == Sent(PostButtons(section, p.targetId, ButtonsOf(p, m)), m);
      var i := |before| + 1;
      assert i - 1 == |before| && core(i - 1).status in {Missing, Unsupported, Invalid};
      assert OneOf(core, after, start, i, section, p);
    }
    assert !Fails(core, after, |after| - 1) ==> ButtonsAt(core, after, |before|, section, p);
  }

  /** One more page request. */
  lemma PageSent(core: Core, before: Trace, from: nat, start: nat, section: Section, p: Prepared, m: Mapping,
                 base: Mapping, r: Request)
    requires from <= |before| && p.item.ui.Some? && r in {ReadUi(section, p.targetId), EditUi(section, p.targetId)}
    requires Doing(core, before, start, from, section, p, base) && Follows(core, start, |before|, m, base)
    requires NoFailure(core, before, from, |before|)
    ensures var after := before + [Sent(r, m)];
      && Doing(core, after, start, from, section, p, base)
      && (if Fails(core, after, |before|) then Stops(core, after, from) else NoFailure(core, after, from, |after|))
      && (Fails(core, after, |before|) <==>
          r.ReadUi? && (core(|before|).status.Invalid? || core(|before|).status.Broken?))
  {
    hide Follows, OneOf;
    var after := before + [Sent(r, m)];
    assert OneOf(core, after, start, |before|, section, p) by { PageIsOne(core, after, start, |before|, section, p); }
    DoingJoin(core, before, after, start, from, section, p, base);
    forall i: nat | from <= i < |before|
      ensures !Fails(core, after, i)
    {
      assert after[i] == before[i] && !Fails(core, before, i);
    }
  }

  lemma PageIsOne(core: Core, trace: Trace, start: nat, i: nat, section: Section, p: Prepared)
    requires i < |trace| && p.item.ui.Some?
      && trace[i].request in {ReadUi(section, p.targetId), EditUi(section, p.targetId)}
    ensures OneOf(core, trace, start, i, section, p)
  {}

  lemma RightfulStays(core: Core, before: Trace, after: Trace, start: nat, i: nat, plan: Plan, base: Mapping)
    requires before <= after && i < |before| && Rightful(core, before, start, i, plan, base)
    ensures Rightful(core, after, start, i, plan, base)
  {
    hide OneOf, Follows;
    var section, p :| p in PlanFor(plan, section) && OneOf(core, before, start, i, section, p);
    OneOfStays(core, before, after, start, i, section, p);
  }

  lemma RuledGrown(core: Core, before: Trace, after: Trace, start: nat, plan: Plan, base: Mapping)
    requires Ruled(core, before, start, plan, base) && Grown(before, after)
    ensures Ruled(core, after, start, plan, base)
  {
    hide Rightful;
    forall i: nat | start <= i < |after| && Finishing(after[i].request)
      ensures Rightful(core, after, start, i, plan, base)
    {
      if i < |before| {
        assert after[i] == before[i];
        RightfulStays(core, before, after, start, i, plan, base);
      }
    }
  }

  lemma RuledDoing(core: Core, before: Trace, after: Trace, start: nat, plan: Plan, base: Mapping, section: Section,
                   p: Prepared)
    requires Ruled(core, before, start, plan, base) && before <= after && p in PlanFor(plan, section)
    requires Doing(core, after, start, |before|, section, p, base)
    ensures Ruled(core, after, start, plan, base)
  {
    hide OneOf, Follows;
    forall i: nat | start <= i < |after| && Finishing(after[i].request)
      ensures Rightful(core, after, start, i, plan, base)
    {
      if i < |before| {
        assert after[i] == before[i];
        RightfulStays(core, before, after, start, i, plan, base);
      }
    }
  }

  /** Nothing but such requests came: no deletions, no groups, no profiles. */
  lemma DoingIsBusy(core: Core, trace: Trace, start: nat, from: nat, section: Section, p: Prepared, base: Mapping)
    requires Doing(core, trace, start, from, section, p, base)
    ensures Busy(trace, from, |trace|)
  {
    hide PlainOf, MembershipOf, ContentOf, ButtonsOf, Follows;
    forall i: nat | from <= i < |trace|
      ensures Finishing(trace[i].request)
    {
      assert OneOf(core, trace, start, i, section, p);
    }
  }

  // ---------------------------------------------------------------------------
  // A record that was filled in
  // ---------------------------------------------------------------------------

  /** The Core took the fields of the record at `i`. */
  ghost predicate FieldsAt(core: Core, trace: Trace, i: nat, section: Section, p: Prepared) {
    i < |trace| && core(i).Ok()
    && trace[i].request == if section == Activities then ContentOf(p, trace[i].mapping)
      else PlainOf(p, trace[i].mapping)
  }

  /** Under this mapping a macro has no fields to send. */
  ghost predicate NoFields(core: Core, start: nat, i: nat, m: Mapping, p: Prepared, base: Mapping) {
    Follows(core, start, i, m, base) && PlainOf(p, m).fields == []
  }

  ghost predicate Updated(core: Core, trace: Trace, from: nat, start: nat, section: Section, p: Prepared,
                          base: Mapping)
  {
    || (exists i: nat :: from <= i && FieldsAt(core, trace, i, section, p))
    || (section == Macros && exists i: nat, m: Mapping :: i <= |trace| && NoFields(core, start, i, m, p, base))
  }

  /** The Core took the buttons one way or the other, or knows neither. */
  ghost predicate ButtonsAt(core: Core, trace: Trace, i: nat, section: Section, p: Prepared) {
    && i < |trace| && trace[i].request == PatchButtons(section, p.targetId, ButtonsOf(p, trace[i].mapping))
    && (|| core(i).Ok()
        || (&& core(i).AnotherWay() && i + 1 < |trace| && !Fails(core, trace, i + 1)
            && trace[i + 1].request == PostButtons(section, p.targetId, ButtonsOf(p, trace[i].mapping))))
  }

  ghost predicate ButtonsSettled(core: Core, trace: Trace, from: nat, section: Section, p: Prepared) {
    p.item.buttons.Some? ==> exists i: nat :: from <= i && ButtonsAt(core, trace, i, section, p)
  }

  ghost predicate PagesAt(core: Core, trace: Trace, i: nat, section: Section, p: Prepared) {
    i < |trace| && trace[i].request == ReadUi(section, p.targetId) && !Fails(core, trace, i)
  }

  /** The pages were read at `i` and again at `j`, and in between the ids of new pages came into the mapping. */
  ghost predicate PagesReplaced(core: Core, trace: Trace, i: nat, j: nat, section: Section, p: Prepared) {
    && i < j && PagesAt(core, trace, i, section, p) && PagesAt(core, trace, j, section, p)
    && trace[j].mapping == trace[i].mapping + AddedBetween(core, i + 1, j)
  }

  ghost predicate PagesSettled(core: Core, trace: Trace, from: nat, section: Section, p: Prepared) {
    p.item.ui.Some? ==> exists i: nat, j: nat :: from <= i && PagesReplaced(core, trace, i, j, section, p)
  }

  ghost predicate Finished(core: Core, trace: Trace, from: nat, start: nat, section: Section, p: Prepared,
                           base: Mapping)
  {
    && Updated(core, trace, from, start, section, p, base)
    && ButtonsSettled(core, trace, from, section, p) && PagesSettled(core, trace, from, section, p)
  }

  lemma FinishedStays(core: Core, before: Trace, from: nat, after: Trace, end: nat, start: nat, section: Section,
                      p: Prepared, base: Mapping)
    requires before <= after && end <= from
    ensures Updated(core, before, from, start, section, p, base) ==> Updated(core, after, end, start, section, p, base)
    ensures ButtonsSettled(core, before, from, section, p) ==> ButtonsSettled(core, after, end, section, p)
    ensures PagesSettled(core, before, from, section, p) ==> PagesSettled(core, after, end, section, p)
    ensures Finished(core, before, from, start, section, p, base) ==>
      Finished(core, after, end, start, section, p, base)
  {
    UpdatedStays(core, before, from, after, end, start, section, p, base);
    ButtonsStay(core, before, from, after, end, section, p);
    PagesStay(core, before, from, after, end, section, p);
  }

  lemma UpdatedStays(core: Core, before: Trace, from: nat, after: Trace, end: nat, start: nat, section: Section,
                     p: Prepared, base: Mapping)
    requires before <= after && end <= from
    ensures Updated(core, before, from, start, section, p, base) ==> Updated(core, after, end, start, section, p, base)
  {
    hide ContentOf, PlainOf, Follows;
    if i: nat :| from <= i && FieldsAt(core, before, i, section, p) { assert FieldsAt(core, after, i, section, p); }
    if i: nat, m: Mapping :| i <= |before| && NoFields(core, start, i, m, p, base) {
      assert NoFields(core, start, i, m, p, base);
    }
  }

  lemma ButtonsStay(core: Core, before: Trace, from: nat, after: Trace, end: nat, section: Section, p: Prepared)
    requires before <= after && end <= from
    ensures ButtonsSettled(core, before, from, section, p) ==> ButtonsSettled(core, after, end, section, p)
  {
    hide ButtonsOf;
    if i: nat :| from <= i && ButtonsAt(core, before, i, section, p) {
      assert after[i] == before[i] && (i + 1 < |before| ==> after[i + 1] == before[i + 1]);
      assert ButtonsAt(core, after, i, section, p);
    }
  }

  lemma PagesStay(core: Core, before: Trace, from: nat, after: Trace, end: nat, section: Section, p: Prepared)
    requires before <= after && end <= from
    ensures PagesSettled(core, before, from, section, p) ==> PagesSettled(core, after, end, section, p)
  {
    if i: nat, j: nat :| from <= i && PagesReplaced(core, before, i, j, section, p) {
      assert after[i] == before[i] && after[j] == before[j];
      assert PagesReplaced(core, after, i, j, section, p);
    }
  }

  lemma NothingToSettle(core: Core, trace: Trace, from: nat, section: Section, p: Prepared)
    ensures p.item.buttons.None? ==> ButtonsSettled(core, trace, from, section, p)
    ensures p.item.ui.None? ==> PagesSettled(core, trace, from, section, p)
  {}

  lemma TwoReadings(core: Core, first: Trace, second: Trace, trace: Trace, from: nat, j: nat, section: Section,
                    p: Prepared)
    requires from < |first| <= j < |second| && first <= second <= trace
    requires PagesAt(core, first, from, section, p) && PagesAt(core, second, j, section, p)
    requires second[j].mapping == first[from].mapping + AddedBetween(core, from + 1, j)
    ensures PagesReplaced(core, trace, from, j, section, p)
  {
    assert trace[from] == first[from] && trace[j] == second[j];
  }

  ghost predicate AllFinished(core: Core, trace: Trace, from: nat, start: nat, section: Section,
                              prepared: seq<Prepared>, base: Mapping)
  {
    forall p :: p in prepared ==> Finished(core, trace, from, start, section, p, base)
  }

  lemma NoneFinished(core: Core, trace: Trace, from: nat, start: nat, section: Section, base: Mapping)
    ensures AllFinished(core, trace, from, start, section, [], base)
  {}

  lemma OneFinished(core: Core, before: Trace, after: Trace, from: nat, start: nat, section: Section,
                    prepared: seq<Prepared>, i: nat, base: Mapping)
    requires i < |prepared| && before <= after && from <= |before|
    requires AllFinished(core, before, from, start, section, prepared[..i], base)
    requires Finished(core, after, |before|, start, section, prepared[i], base)
    ensures AllFinished(core, after, from, start, section, prepared[..i + 1], base)
  {
    hide Finished;
    AllStayFinished(core, before, from, after, from, start, section, prepared[..i], base);
    FinishedStays(core, after, |before|, after, from, start, section, prepared[i], base);
    assert prepared[..i + 1] == prepared[..i] + [prepared[i]];
  }

  lemma AllStayFinished(core: Core, before: Trace, from: nat, after: Trace, end: nat, start: nat, section: Section,
                        prepared: seq<Prepared>, base: Mapping)
    requires before <= after && end <= from && AllFinished(core, before, from, start, section, prepared, base)
    ensures AllFinished(core, after, end, start, section, prepared, base)
  {
    hide Finished;
    forall p | p in prepared ensures Finished(core, after, end, start, section, p, base) {
      FinishedStays(core, before, from, after, end, start, section, p, base);
    }
  }

  /** A record was filled in, or one of the requests about it failed. */
  ghost predicate Settled(core: Core, trace: Trace, from: nat, start: nat, section: Section, p: Prepared, base: Mapping)
  {
    || Finished(core, trace, from, start, section, p, base)
    || exists i: nat :: from <= i < |trace| && Fails(core, trace, i) && OneOf(core, trace, start, i, section, p)
  }

  ghost predicate AllSettled(core: Core, trace: Trace, from: nat, start: nat, section: Section,
                             prepared: seq<Prepared>, base: Mapping)
  {
    forall p :: p in prepared ==> Settled(core, trace, from, start, section, p, base)
  }

  lemma SettledStays(core: Core, before: Trace, from: nat, after: Trace, end: nat, start: nat, section: Section,
                     p: Prepared, base: Mapping)
    requires before <= after && end <= from && Settled(core, before, from, start, section, p, base)
    ensures Settled(core, after, end, start, section, p, base)
  {
    hide Finished, OneOf;
    FinishedStays(core, before, from, after, end, start, section, p, base);
    if i: nat :| from <= i < |before| && Fails(core, before, i) && OneOf(core, before, start, i, section, p) {
      OneOfStays(core, before, after, start, i, section, p);
      assert after[i] == before[i];
    }
  }

  lemma AllStaySettled(core: Core, before: Trace, from: nat, after: Trace, end: nat, start: nat, section: Section,
                       prepared: seq<Prepared>, base: Mapping)
    requires before <= after && end <= from && AllSettled(core, before, from, start, section, prepared, base)
    ensures AllSettled(core, after, end, start, section, prepared, base)
  {
    hide Settled;
    forall p | p in prepared ensures Settled(core, after, end, start, section, p, base) {
      SettledStays(core, before, from, after, end, start, section, p, base);
    }
  }

  /** Every record that was prepared is filled in, or stopped at a failure of its own. */
  ghost predicate EverySettled(core: Core, trace: Trace, start: nat, manifest: Manifest, plan: Plan, base: Mapping) {
    forall section :: Includes(manifest, section) ==>
      AllSettled(core, trace, start, start, section, PlanFor(plan, section), base)
  }

  lemma BothSettled(core: Core, staged: Trace, half: Trace, trace: Trace, start: nat, manifest: Manifest, plan: Plan,
                    base: Mapping)
    requires start <= |staged| && staged <= half <= trace
    requires Includes(manifest, Macros) ==> AllSettled(core, half, |staged|, start, Macros, plan.macros, base)
    requires Includes(manifest, Activities) ==>
      AllSettled(core, trace, |half|, start, Activities, plan.activities, base)
    ensures EverySettled(core, trace, start, manifest, plan, base)
  {
    hide AllSettled;
    forall section | Includes(manifest, section)
      ensures AllSettled(core, trace, start, start, section, PlanFor(plan, section), base)
    {
      match section
      case Macros => AllStaySettled(core, half, |staged|, trace, start, start, Macros, plan.macros, base);
      case Activities => AllStaySettled(core, trace, |half|, trace, start, start, Activities, plan.activities, base);
    }
  }

  lemma NoneSettled(core: Core, trace: Trace, from: nat, start: nat, section: Section, base: Mapping)
    ensures AllSettled(core, trace, from, start, section, [], base)
  {}

  /** One more record is filled in, or stopped at a failure. */
  lemma OneSettled(core: Core, before: Trace, after: Trace, from: nat, start: nat, section: Section,
                   prepared: seq<Prepared>, i: nat, base: Mapping)
    requires i < |prepared| && before <= after && from <= |before|
    requires AllSettled(core, before, from, start, section, prepared[..i], base)
    requires Doing(core, after, start, |before|, section, prepared[i], base)
    requires Stops(core, after, |before|) || Finished(core, after, |before|, start, section, prepared[i], base)
    ensures AllSettled(core, after, from, start, section, prepared[..i + 1], base)
  {
    hide Finished, OneOf, NoFailure, Fails, Follows;
    AllStaySettled(core, before, from, after, from, start, section, prepared[..i], base);
    assert Settled(core, after, |before|, start, section, prepared[i], base);
    SettledStays(core, after, |before|, after, from, start, section, prepared[i], base);
    assert prepared[..i + 1] == prepared[..i] + [prepared[i]];
  }

  // ---------------------------------------------------------------------------
  // The shape of a run
  // ---------------------------------------------------------------------------

  /** Neither group, profile nor proxy deletion requests. */
  ghost predicate Busy(trace: Trace, start: nat, end: nat) {
    end <= |trace| && forall i :: start <= i < end ==> !trace[i].request.DeleteProxy? && !Late(trace[i].request)
  }

  lemma GrownIsBusy(before: Trace, after: Trace)
    requires Grown(before, after)
    ensures Busy(after, |before|, |after|)
  {}

  lemma BusyJoin(before: Trace, after: Trace, start: nat)
    requires Busy(before, start, |before|) && before <= after && Busy(after, |before|, |after|)
    ensures Busy(after, start, |after|)
  {
    forall i | start <= i < |after| ensures !after[i].request.DeleteProxy? && !Late(after[i].request) {
      if i < |before| { assert after[i] == before[i]; }
    }
  }

  /** A proxy of the previous catalog that no usable entry of the new one has. */
  ghost predicate Superseded(id: string, entities: seq<Proxy>, previous: seq<Proxy>) {
    && id != "" && (exists p :: p in previous && p.targetId == id)
    && (forall p :: p in entities && p.targetId != "" && p.localId != "" ==> p.targetId != id)
  }

  /** First everything else; then groups and profiles, and only when no request before failed the filling in of a
      macro or an activity; then the deletions. */
  ghost predicate Phases(core: Core, trace: Trace, start: nat, early: nat, late: nat) {
    && start <= early <= late <= |trace| && Busy(trace, start, early)
    && (forall i :: early <= i < late ==> Late(trace[i].request))
    && (early < late ==> NoFailure(core, trace, start, early))
  }

  /** The deletions are of exactly the superseded proxies, each once, when the run is to prune, and else none. */
  ghost predicate Pruning(trace: Trace, late: nat, ids: seq<string>, prunes: bool, entities: seq<Proxy>,
                          previous: seq<Proxy>)
  {
    && late + |ids| == |trace| && (forall i :: 0 <= i < |ids| ==> trace[late + i].request == DeleteProxy(ids[i]))
    && Ordering.Distinct(ids)
    && (forall id :: id in ids <==> prunes && Superseded(id, entities, previous))
  }

  ghost predicate Shaped(core: Core, trace: Trace, start: nat, prunes: bool, entities: seq<Proxy>,
                         previous: seq<Proxy>)
  {
    exists early: nat, late: nat, ids: seq<string> ::
      Phases(core, trace, start, early, late) && Pruning(trace, late, ids, prunes, entities, previous)
  }

  // ---------------------------------------------------------------------------
  // What a run stands on
  // ---------------------------------------------------------------------------

  /** Listing, configuring and editing proxies. */
  predicate Grounding(r: Request) {
    r.ListEntities? || r.Configure? || r.PatchProxy?
  }

  ghost predicate AllGrounding(trace: Trace, from: nat, end: nat) {
    end <= |trace| && forall i :: from <= i < end ==> Grounding(trace[i].request)
  }

  /** An answer that does not list all of these ids. */
  ghost predicate Lacks(a: Answer, ids: seq<string>) {
    exists i :: 0 <= i < |ids| && ids[i] !in a.listed
  }

  /** Listings from `from` on, as long as none holds all ids, none is refused, and time is left. */
  ghost predicate Awaited(core: Core, trace: Trace, from: nat, ids: seq<string>, timedOut: bool) {
    && from <= |trace| && (forall i: nat :: from <= i < |trace| ==> trace[i].request == ListEntities)
    && (forall i: nat :: from <= i < |trace| - 1 ==> core(i).Ok() && Lacks(core(i), ids))
    && (from == |trace| ==> timedOut)
    && (from < |trace| ==> (timedOut <==> !core(|trace| - 1).Ok() || Lacks(core(|trace| - 1), ids)))
  }

  /** One listing; when it lacks ids, one configuration of exactly these; when the Core takes it, the wait for them. */
  ghost predicate Ensured(core: Core, trace: Trace, from: nat, ids: seq<string>, localIds: seq<string>, thrown: bool) {
    && from < |trace| && trace[from].request == ListEntities
    && (!core(from).Ok() ==> |trace| == from + 1 && thrown)
    && (core(from).Ok() && ids == [] ==> |trace| == from + 1 && !thrown)
    && (core(from).Ok() && ids != [] ==> from + 1 < |trace| && trace[from + 1].request == Configure(localIds))
    && (core(from).Ok() && ids != [] && !core(from + 1).Ok() ==> |trace| == from + 2 && thrown)
    && (core(from).Ok() && ids != [] && core(from + 1).Ok() ==> Awaited(core, trace, from + 2, ids, thrown))
  }

  /** How many of the answers from `from` up to `end` are refusals. */
  ghost function Refusals(core: Core, from: nat, end: nat): nat
    requires from <= end
    decreases end
  {
    if from == end then 0 else Refusals(core, from, end - 1) + if core(end - 1).Ok() then 0 else 1
  }

  lemma {:induction false} NoneRefused(core: Core, from: nat, end: nat)
    requires from <= end
    ensures Refusals(core, from, end) == 0 <==> forall i :: from <= i < end ==> core(i).Ok()
    decreases end
  {
    if from < end { NoneRefused(core, from, end - 1); }
  }

  lemma EnsuredIsGrounding(core: Core, trace: Trace, from: nat, ids: seq<string>, localIds: seq<string>, thrown: bool)
    requires Ensured(core, trace, from, ids, localIds, thrown)
    ensures from < |trace| && AllGrounding(trace, from, |trace|) && (!core(from).Ok() ==> thrown)
  {
    hide Lacks;
    forall i | from <= i < |trace| ensures Grounding(trace[i].request) {
      if i >= from + 2 { assert Awaited(core, trace, from + 2, ids, thrown); }
    }
  }

  lemma GroundingJoin(before: Trace, after: Trace, from: nat)
    requires before <= after && AllGrounding(before, from, |before|) && AllGrounding(after, |before|, |after|)
    ensures AllGrounding(after, from, |after|)
  {
    forall i | from <= i < |after| ensures Grounding(after[i].request) {
      if i < |before| { assert after[i] == before[i]; }
    }
  }

  lemma GroundingIsGrown(before: Trace, trace: Trace)
    requires before <= trace && AllGrounding(trace, |before|, |trace|)
    ensures Grown(before, trace)
  {
    forall i | |before| <= i < |trace| ensures Plain(trace[i].request) { assert Grounding(trace[i].request); }
  }

  lemma AwaitedIsKnown(core: Core, trace: Trace, from: nat, ids: seq<string>)
    requires Awaited(core, trace, from, ids, false)
    ensures forall i :: 0 <= i < |ids| ==> Known(core, trace, from, ids[i])
  {
    forall i | 0 <= i < |ids| ensures Known(core, trace, from, ids[i]) {
      assert trace[|trace| - 1].request == ListEntities;
    }
  }

  /** After listing and configuring without a throw, everything is listed. */
  lemma EnsuredIsKnown(core: Core, trace: Trace, from: nat, ids: seq<string>, localIds: seq<string>)
    requires Ensured(core, trace, from, ids, localIds, false)
    ensures forall i :: 0 <= i < |ids| ==> Known(core, trace, from, ids[i])
    ensures forall id :: id in core(from).listed ==> Known(core, trace, from, id)
  {
    hide Awaited, Lacks;
    if ids != [] {
      AwaitedIsKnown(core, trace, from + 2, ids);
      StaysTrue(core, trace, from + 2, trace, from);
    }
    forall id | id in core(from).listed ensures Known(core, trace, from, id) {
      assert trace[from].request == ListEntities && core(from).Ok();
    }
  }

  /** A request about records of this section. */
  predicate About(r: Request, section: Section) {
    match r
    case Probe(s, _) => s == section
    case ProbeEntity(_) => section == Macros
    case Create(s, _) => s == section
    case PatchPlain(s, _, _) => s == section
    case PatchMembership(_, _, _) => section == Activities
    case PatchContent(_, _, _) => section == Activities
    case PatchButtons(s, _, _) => s == section
    case PostButtons(s, _, _) => s == section
    case ReadUi(s, _) => s == section
    case EditUi(s, _) => s == section
    case Prune(s, _) => s == section
    case _ => false
  }

  ghost predicate AllAbout(trace: Trace, from: nat, section: Section) {
    forall i :: from <= i < |trace| ==> About(trace[i].request, section)
  }

  /** Of the parts of a snapshot only those are touched that the manifest includes. */
  ghost predicate Within(r: Request, manifest: Manifest) {
    && (r.ResourceRequest? ==> "resources" in manifest.sections) && (r.DockRequest? ==> "docks" in manifest.sections)
    && (r.GroupRequest? ==> "activity_groups" in manifest.sections)
    && (r.ProfileRequest? ==> "profiles" in manifest.sections)
    && (forall section :: About(r, section) ==> Includes(manifest, section))
  }

  ghost predicate AllWithin(trace: Trace, from: nat, manifest: Manifest) {
    forall i :: from <= i < |trace| ==> Within(trace[i].request, manifest)
  }

  /** Every usable proxy was listed, and every edit of one was taken. */
  ghost predicate ProxiesReady(core: Core, trace: Trace, start: nat, entities: seq<Proxy>) {
    forall d :: d in Usable(entities) ==>
      && Known(core, trace, start, d.targetId)
      && (d.editable ==> Taken(core, trace, start, PatchProxy(d.targetId)))
  }

  predicate NeedsRelay(manifest: Manifest) {
    "activities" in manifest.sections && manifest.activities != []
  }

  /** With activities to restore, the relay was listed. */
  ghost predicate RelayReady(core: Core, trace: Trace, start: nat, manifest: Manifest) {
    NeedsRelay(manifest) ==> Known(core, trace, start, Membership.RELAY_ENTITY_ID)
  }

  ghost predicate Founded(core: Core, before: Trace, start: nat, r: Request, manifest: Manifest, entities: seq<Proxy>) {
    && Within(r, manifest)
    && (!Grounding(r) ==> ProxiesReady(core, before, start, entities) && RelayReady(core, before, start, manifest))
  }

  /** Nothing but proxies is touched before all of them and the relay are there. */
  ghost predicate WellFounded(core: Core, trace: Trace, start: nat, done: bool, manifest: Manifest,
                            entities: seq<Proxy>)
  {
    && (forall i :: start <= i < |trace| ==> Founded(core, trace[..i], start, trace[i].request, manifest, entities))
    && (done ==> ProxiesReady(core, trace, start, entities) && RelayReady(core, trace, start, manifest))
  }

  lemma AboutJoin(before: Trace, after: Trace, from: nat, section: Section)
    requires AllAbout(before, from, section) && before <= after && AllAbout(after, |before|, section)
    ensures AllAbout(after, from, section)
  {
    hide About;
    forall i | from <= i < |after| ensures About(after[i].request, section) {
      if i < |before| { assert after[i] == before[i]; }
    }
  }

  lemma WithinJoin(before: Trace, after: Trace, from: nat, manifest: Manifest)
    requires AllWithin(before, from, manifest) && before <= after && AllWithin(after, |before|, manifest)
    ensures AllWithin(after, from, manifest)
  {
    hide Within;
    forall i | from <= i < |after| ensures Within(after[i].request, manifest) {
      if i < |before| { assert after[i] == before[i]; }
    }
  }

  lemma NothingAbout(trace: Trace, section: Section)
    ensures AllAbout(trace, |trace|, section)
  {}

  lemma NothingWithin(trace: Trace, manifest: Manifest)
    ensures AllWithin(trace, |trace|, manifest)
  {}

  lemma NoneGrounding(trace: Trace)
    ensures AllGrounding(trace, |trace|, |trace|)
  {}

  lemma OneMoreAbout(before: Trace, from: nat, s: Sent, section: Section)
    requires AllAbout(before, from, section) && About(s.request, section)
    ensures AllAbout(before + [s], from, section)
  {
    hide About;
  }

  lemma GroupsAndProfiles(manifest: Manifest)
    ensures "activity_groups" in manifest.sections ==> Within(GroupRequest, manifest)
    ensures "profiles" in manifest.sections ==> Within(ProfileRequest, manifest)
  {}

  lemma ResourcesAndDocks(trace: Trace, from: nat, middle: nat, manifest: Manifest)
    requires from <= middle <= |trace|
    requires from < middle ==> "resources" in manifest.sections
    requires middle < |trace| ==> "docks" in manifest.sections
    requires forall i :: from <= i < middle ==> trace[i].request == ResourceRequest
    requires forall i :: middle <= i < |trace| ==> trace[i].request == DockRequest
    ensures AllWithin(trace, from, manifest)
  {}

  /** Groups and profiles of the manifest, and deletions of proxies, after what was built. */
  lemma LastAreWithin(built: Trace, settled: Trace, trace: Trace, from: nat, manifest: Manifest, ids: seq<string>)
    requires built <= settled <= trace && |trace| == |settled| + |ids| && AllWithin(built, from, manifest)
    requires forall i :: |built| <= i < |settled| ==> Within(settled[i].request, manifest)
    requires forall i :: 0 <= i < |ids| ==> trace[|settled| + i].request == DeleteProxy(ids[i])
    ensures AllWithin(trace, from, manifest)
  {
    forall i | from <= i < |trace| ensures Within(trace[i].request, manifest) {
      if i < |built| {
        assert trace[i] == built[i];
      } else if i < |settled| {
        assert trace[i] == settled[i];
      } else {
        assert trace[|settled| + (i - |settled|)].request == DeleteProxy(ids[i - |settled|]);
      }
    }
  }

  lemma AboutIsWithin(trace: Trace, from: nat, section: Section, manifest: Manifest)
    requires AllAbout(trace, from, section) && Includes(manifest, section)
    ensures AllWithin(trace, from, manifest)
  {
    forall i | from <= i < |trace| ensures Within(trace[i].request, manifest) {
      assert About(trace[i].request, section);
    }
  }

  lemma DoingIsAbout(core: Core, trace: Trace, start: nat, from: nat, section: Section, p: Prepared, base: Mapping)
    requires Doing(core, trace, start, from, section, p, base)
    ensures AllAbout(trace, from, section)
  {
    hide PlainOf, MembershipOf, ContentOf, ButtonsOf, Follows;
    forall i | from <= i < |trace| ensures About(trace[i].request, section) {
      assert OneOf(core, trace, start, i, section, p);
      KindsOfOne(core, trace, start, i, section, p);
    }
  }

  lemma KindsOfOne(core: Core, trace: Trace, start: nat, i: nat, section: Section, p: Prepared)
    requires i < |trace| && OneOf(core, trace, start, i, section, p)
    ensures About(trace[i].request, section)
  {
    hide UpdatePayload, Membership.FieldsOf;
  }

  lemma StillReady(core: Core, before: Trace, from: nat, after: Trace, start: nat, manifest: Manifest,
                   entities: seq<Proxy>)
    requires start <= from && before <= after
    ensures ProxiesReady(core, before, from, entities) ==> ProxiesReady(core, after, start, entities)
    ensures RelayReady(core, before, from, manifest) ==> RelayReady(core, after, start, manifest)
  {
    hide Known, Taken;
    StaysTrue(core, before, from, after, start);
  }

  /** Grounding first, then whatever the manifest includes. */
  lemma StandsOn(core: Core, ground: Trace, trace: Trace, start: nat, done: bool, manifest: Manifest,
                 entities: seq<Proxy>)
    requires start <= |ground| && ground <= trace && AllGrounding(ground, start, |ground|)
    requires AllWithin(trace, |ground|, manifest)
    requires (trace == ground && !done)
      || (ProxiesReady(core, ground, start, entities) && RelayReady(core, ground, start, manifest))
    ensures WellFounded(core, trace, start, done, manifest, entities)
  {
    hide ProxiesReady, RelayReady;
    forall i | start <= i < |trace| ensures Founded(core, trace[..i], start, trace[i].request, manifest, entities) {
      if i >= |ground| {
        StillReady(core, ground, start, trace[..i], start, manifest, entities);
      } else {
        assert trace[i] == ground[i];
      }
    }
    StillReady(core, ground, start, trace, start, manifest, entities);
  }

  /** The plan holds records of the manifest under ids that the Core told. */
  ghost predicate Planned(core: Core, trace: Trace, start: nat, manifest: Manifest, plan: Plan) {
    forall section :: AllTold(core, trace, start, section, ItemsFor(manifest, section), PlanFor(plan, section))
  }

  /** Every record with an id is in the plan. */
  ghost predicate AllPrepared(manifest: Manifest, plan: Plan) {
    forall section, item ::
      Includes(manifest, section) && item in ItemsFor(manifest, section) && item.sourceId != "" ==>
      IsPrepared(PlanFor(plan, section), item)
  }

  /** Every record with an id was prepared and filled in. */
  ghost predicate Complete(core: Core, trace: Trace, start: nat, manifest: Manifest, plan: Plan, base: Mapping) {
    && AllPrepared(manifest, plan)
    && forall section :: Includes(manifest, section) ==>
      AllFinished(core, trace, start, start, section, PlanFor(plan, section), base)
  }

  /** One run from `start` under a plan. When it is `done`, without a throw and without an error, all records were
      filled in; and exactly then, if the applier prunes, the superseded proxies are deleted. */
  ghost predicate RunUnder(core: Core, trace: Trace, start: nat, done: bool, prune: bool, manifest: Manifest,
                           catalog: Catalog, previous: seq<Proxy>, plan: Plan)
  {
    && Planned(core, trace, start, manifest, plan)
    && Ruled(core, trace, start, plan, Base(catalog.mapping, plan))
    && (done ==> Complete(core, trace, start, manifest, plan, Base(catalog.mapping, plan)))
    && Shaped(core, trace, start, done && prune, catalog.entities, previous)
  }

  ghost predicate OneRun(core: Core, trace: Trace, start: nat, done: bool, prune: bool, manifest: Manifest,
                         catalog: Catalog, previous: seq<Proxy>)
  {
    && WellFounded(core, trace, start, done, manifest, catalog.entities)
    && exists plan :: RunUnder(core, trace, start, done, prune, manifest, catalog, previous, plan)
  }

  /** What a run has come to before groups and profiles. */
  ghost predicate Built(core: Core, trace: Trace, start: nat, done: bool, manifest: Manifest, plan: Plan,
                        base: Mapping)
  {
    && start <= |trace| && Busy(trace, start, |trace|)
    && Planned(core, trace, start, manifest, plan) && Ruled(core, trace, start, plan, base)
    && (done ==> Complete(core, trace, start, manifest, plan, base))
  }

  /** A run that stopped before anything was filled in. */
  lemma GrownIsBuilt(core: Core, trace: Trace, start: nat, manifest: Manifest, plan: Plan, base: Mapping)
    requires start <= |trace| && Grown(trace[..start], trace) && Planned(core, trace, start, manifest, plan)
    ensures Built(core, trace, start, false, manifest, plan, base) && NoFailure(core, trace, start, |trace|)
  {
    hide Planned, Rightful;
    GrownIsBusy(trace[..start], trace);
    GrownFailsNot(core, trace[..start], trace);
    assert Ruled(core, trace[..start], start, plan, base);
    RuledGrown(core, trace[..start], trace, start, plan, base);
  }

  lemma PlanIs(core: Core, trace: Trace, start: nat, manifest: Manifest, plan: Plan)
    requires AllTold(core, trace, start, Macros, manifest.macros, plan.macros)
    requires AllTold(core, trace, start, Activities, manifest.activities, plan.activities)
    ensures Planned(core, trace, start, manifest, plan)
  {
    hide AllTold;
    forall section ensures AllTold(core, trace, start, section, ItemsFor(manifest, section), PlanFor(plan, section)) {
      match section case Macros => case Activities =>
    }
  }

  lemma PlannedEarlier(core: Core, trace: Trace, from: nat, start: nat, manifest: Manifest, plan: Plan)
    requires Planned(core, trace, from, manifest, plan) && start <= from
    ensures Planned(core, trace, start, manifest, plan)
  {
    hide AllTold;
    forall section ensures AllTold(core, trace, start, section, ItemsFor(manifest, section), PlanFor(plan, section)) {
      AllStayTold(core, trace, from, trace, start, section, ItemsFor(manifest, section), PlanFor(plan, section));
    }
  }

  lemma PlannedStays(core: Core, before: Trace, after: Trace, start: nat, manifest: Manifest, plan: Plan)
    requires Planned(core, before, start, manifest, plan) && before <= after
    ensures Planned(core, after, start, manifest, plan)
  {
    hide AllTold;
    forall section ensures AllTold(core, after, start, section, ItemsFor(manifest, section), PlanFor(plan, section)) {
      AllStayTold(core, before, start, after, start, section, ItemsFor(manifest, section), PlanFor(plan, section));
    }
  }

  /** Without an error every record with an id is prepared. */
  lemma AccountedIsPrepared(manifest: Manifest, plan: Plan)
    requires Includes(manifest, Macros) ==> Accounted(plan.macros, manifest.macros, |manifest.macros|, [])
    requires Includes(manifest, Activities) ==>
      Accounted(plan.activities, manifest.activities, |manifest.activities|, [])
    ensures AllPrepared(manifest, plan)
  {
    hide IsPrepared;
    forall section, item | Includes(manifest, section) && item in ItemsFor(manifest, section) && item.sourceId != ""
      ensures IsPrepared(PlanFor(plan, section), item)
    {
      var items := ItemsFor(manifest, section);
      var k :| 0 <= k < |items| && items[k] == item;
    }
  }

  lemma StillGrown(before: Trace, trace: Trace, start: nat)
    requires Grown(before, trace) && |before| == start
    ensures start <= |trace| && Grown(trace[..start], trace)
  {
    assert trace[..start] == before;
  }

  /** Groups and profiles may follow exactly when no request failed. */
  lemma ReadyIsClean(core: Core, staged: Trace, half: Trace, trace: Trace, start: nat)
    requires start <= |staged| && staged <= half <= trace && NoFailure(core, staged, start, |staged|)
    ensures Failures(core, half, |staged|, |half|) + Failures(core, trace, |half|, |trace|) == 0 <==>
      NoFailure(core, trace, start, |trace|)
  {
    hide NoFailure;
    NoneFailed(core, staged, start, |staged|);
    NoneFailed(core, trace, start, |trace|);
    FailuresJoin(core, staged, half, start, |staged|, |half|);
    FailuresJoin(core, half, trace, start, |half|, |trace|);
  }

  lemma BothFinished(core: Core, staged: Trace, half: Trace, trace: Trace, start: nat, manifest: Manifest, plan: Plan,
                     base: Mapping)
    requires start <= |staged| && staged <= half <= trace && AllPrepared(manifest, plan)
    requires Includes(manifest, Macros) ==> AllFinished(core, half, |staged|, start, Macros, plan.macros, base)
    requires Includes(manifest, Activities) ==>
      AllFinished(core, trace, |half|, start, Activities, plan.activities, base)
    ensures Complete(core, trace, start, manifest, plan, base)
  {
    hide AllFinished, AllPrepared;
    forall section | Includes(manifest, section)
      ensures AllFinished(core, trace, start, start, section, PlanFor(plan, section), base)
    {
      match section
      case Macros => AllStayFinished(core, half, |staged|, trace, start, start, Macros, plan.macros, base);
      case Activities => AllStayFinished(core, trace, |half|, trace, start, start, Activities, plan.activities, base);
    }
  }

  /** Deleting obsolete counterparts afterwards leaves all that as it is. */
  lemma FinishedPruned(core: Core, before: Trace, after: Trace, from: nat, start: nat, section: Section, plan: Plan,
                       prepared: seq<Prepared>, base: Mapping)
    requires from <= |before| && Grown(before, after) && Ruled(core, before, start, plan, base)
      && Busy(before, from, |before|)
    ensures Ruled(core, after, start, plan, base) && Busy(after, from, |after|)
    ensures Failures(core, after, from, |after|) == Failures(core, before, from, |before|)
    ensures AllFinished(core, before, from, start, section, prepared, base) ==>
      AllFinished(core, after, from, start, section, prepared, base)
  {
    hide Rightful, AllFinished, Ruled, Busy, Grown, NoFailure;
    RuledGrown(core, before, after, start, plan, base);
    GrownIsBusy(before, after);
    BusyJoin(before, after, from);
    GrownFailsNot(core, before, after);
    NoneFailed(core, after, |before|, |after|);
    FailuresJoin(core, before, after, from, |before|, |after|);
    if AllFinished(core, before, from, start, section, prepared, base) {
      AllStayFinished(core, before, from, after, from, start, section, prepared, base);
    }
  }

  lemma NoneTwice()
    ensures Ordering.Distinct([])
  {}

  lemma NoPlan(core: Core, trace: Trace, start: nat, manifest: Manifest)
    ensures Planned(core, trace, start, manifest, Plan([], []))
  {
    forall section ensures PlanFor(Plan([], []), section) == [] {}
  }

  lemma BuiltLess(core: Core, trace: Trace, start: nat, done: bool, less: bool, manifest: Manifest, plan: Plan,
                  base: Mapping)
    requires Built(core, trace, start, done, manifest, plan, base) && (less ==> done)
    ensures Built(core, trace, start, less, manifest, plan, base)
  {}

  /** Dependents after what was built, deletions after those. */
  lemma RunEnds(core: Core, built: Trace, settled: Trace, trace: Trace, start: nat, done: bool, prune: bool,
                manifest: Manifest, catalog: Catalog, previous: seq<Proxy>, plan: Plan, ids: seq<string>)
    requires Built(core, built, start, done, manifest, plan, Base(catalog.mapping, plan))
    requires built <= settled && forall i :: |built| <= i < |settled| ==> Late(settled[i].request)
    requires built != settled ==> NoFailure(core, built, start, |built|)
    requires settled <= trace && |trace| == |settled| + |ids|
    requires forall i :: 0 <= i < |ids| ==> trace[|settled| + i].request == DeleteProxy(ids[i])
    requires Ordering.Distinct(ids) && forall id :: id in ids <==>
      done && prune && Superseded(id, catalog.entities, previous)
    requires WellFounded(core, trace, start, done, manifest, catalog.entities)
    ensures OneRun(core, trace, start, done, prune, manifest, catalog, previous)
  {
    hide Planned, Ruled, Complete, Superseded, Base, Phases, WellFounded, Ordering.Distinct;
    PhasesEnd(core, built, settled, trace, start);
    assert Pruning(trace, |settled|, ids, done && prune, catalog.entities, previous);
    forall i | |built| <= i < |trace| ensures !Finishing(trace[i].request) {
      var k := i - |settled|;
      if k < 0 { assert trace[i] == settled[i]; } else { assert trace[|settled| + k].request == DeleteProxy(ids[k]); }
    }
    RuledEnds(core, built, trace, start, manifest, plan, Base(catalog.mapping, plan));
    CompleteStays(core, built, trace, start, manifest, plan, Base(catalog.mapping, plan));
    assert RunUnder(core, trace, start, done, prune, manifest, catalog, previous, plan);
  }

  lemma PhasesEnd(core: Core, built: Trace, settled: Trace, trace: Trace, start: nat)
    requires start <= |built| && Busy(built, start, |built|) && built <= settled <= trace
    requires forall i :: |built| <= i < |settled| ==> Late(settled[i].request)
    requires built != settled ==> NoFailure(core, built, start, |built|)
    ensures Phases(core, trace, start, |built|, |settled|)
  {
    forall i | start <= i < |built|
      ensures !trace[i].request.DeleteProxy? && !Late(trace[i].request)
    {
      assert trace[i] == built[i];
    }
    forall i | |built| <= i < |settled| ensures Late(trace[i].request) { assert trace[i] == settled[i]; }
    forall i: nat | built != settled && start <= i < |built| ensures !Fails(core, trace, i) {
      assert trace[i] == built[i] && !Fails(core, built, i);
    }
  }

  lemma RuledEnds(core: Core, before: Trace, after: Trace, start: nat, manifest: Manifest, plan: Plan, base: Mapping)
    requires Ruled(core, before, start, plan, base) && Planned(core, before, start, manifest, plan) && before <= after
    requires forall i :: |before| <= i < |after| ==> !Finishing(after[i].request)
    ensures Ruled(core, after, start, plan, base) && Planned(core, after, start, manifest, plan)
  {
    hide Rightful, AllTold;
    forall i: nat | start <= i < |after| && Finishing(after[i].request)
      ensures Rightful(core, after, start, i, plan, base)
    {
      assert after[i] == before[i];
      RightfulStays(core, before, after, start, i, plan, base);
    }
    forall section ensures AllTold(core, after, start, section, ItemsFor(manifest, section), PlanFor(plan, section)) {
      AllStayTold(core, before, start, after, start, section, ItemsFor(manifest, section), PlanFor(plan, section));
    }
  }

  lemma CompleteStays(core: Core, before: Trace, after: Trace, start: nat, manifest: Manifest, plan: Plan,
                      base: Mapping)
    requires before <= after
    ensures Complete(core, before, start, manifest, plan, base) ==> Complete(core, after, start, manifest, plan, base)
  {
    hide AllFinished, AllPrepared;
    if Complete(core, before, start, manifest, plan, base) {
      forall section | Includes(manifest, section)
        ensures AllFinished(core, after, start, start, section, PlanFor(plan, section), base)
      {
        AllStayFinished(core, before, start, after, start, start, section, PlanFor(plan, section), base);
      }
    }
  }

  // ---------------------------------------------------------------------------
  // Lists of proxies
  // ---------------------------------------------------------------------------

  function Usable(entities: seq<Proxy>): seq<Proxy> {
    if entities == [] then []
    else (if entities[0].targetId != "" && entities[0].localId != "" then [entities[0]] else []) + Usable(entities[1..])
  }

  function Unlisted(descriptors: seq<Proxy>, listed: set<string>): seq<Proxy> {
    if descriptors == [] then []
    else (if descriptors[0].targetId in listed then [] else [descriptors[0]]) + Unlisted(descriptors[1..], listed)
  }

  /** The targets of which anything can be edited. */
  function Editable(descriptors: seq<Proxy>): seq<string> {
    if descriptors == [] then []
    else (if descriptors[0].editable then [descriptors[0].targetId] else []) + Editable(descriptors[1..])
  }

  function LocalIds(descriptors: seq<Proxy>): seq<string> {
    if descriptors == [] then [] else [descriptors[0].localId] + LocalIds(descriptors[1..])
  }

  function TargetIds(descriptors: seq<Proxy>): seq<string> {
    if descriptors == [] then [] else [descriptors[0].targetId] + TargetIds(descriptors[1..])
  }

  /** The targets among `previous` that are not in `current`. */
  function OthersOf(previous: seq<Proxy>, current: seq<string>): seq<string> {
    if previous == [] then []
    else (if previous[0].targetId in current then [] else [previous[0].targetId]) + OthersOf(previous[1..], current)
  }

  lemma {:induction false} OthersAreListed(descriptors: seq<Proxy>, listed: set<string>)
    ensures forall d :: d in descriptors && d !in Unlisted(descriptors, listed) ==> d.targetId in listed
  {
    if descriptors != [] { OthersAreListed(descriptors[1..], listed); }
  }

  lemma {:induction false} TargetThere(descriptors: seq<Proxy>, d: Proxy)
    requires d in descriptors
    ensures exists i :: 0 <= i < |TargetIds(descriptors)| && TargetIds(descriptors)[i] == d.targetId
  {
    if d == descriptors[0] {
      assert TargetIds(descriptors)[0] == d.targetId;
    } else {
      TargetThere(descriptors[1..], d);
      var i :| 0 <= i < |TargetIds(descriptors[1..])| && TargetIds(descriptors[1..])[i] == d.targetId;
      assert TargetIds(descriptors)[i + 1] == d.targetId;
    }
  }

  /** What is configured: the local ids of the entries with both ids of which the target is not listed. */
  lemma {:induction false} UnlistedExact(entities: seq<Proxy>, listed: set<string>, p: Proxy)
    ensures p in Usable(entities) <==> p in entities && p.targetId != "" && p.localId != ""
    ensures p in Unlisted(entities, listed) <==> p in entities && p.targetId !in listed
  {
    if entities != [] {
      UnlistedExact(entities[1..], listed, p);
      assert p in entities <==> p == entities[0] || p in entities[1..];
    }
  }

  lemma {:induction false} IdsInOrder(entities: seq<Proxy>)
    ensures |LocalIds(entities)| == |TargetIds(entities)| == |entities|
    ensures forall i :: 0 <= i < |entities| ==>
      LocalIds(entities)[i] == entities[i].localId && TargetIds(entities)[i] == entities[i].targetId
  {
    if entities != [] { IdsInOrder(entities[1..]); }
  }

  /** What is edited: the targets of the entries with a name, an icon or a description. */
  lemma {:induction false} EditableExact(descriptors: seq<Proxy>, id: string)
    ensures id in Editable(descriptors) <==> exists d :: d in descriptors && d.editable && d.targetId == id
  {
    if descriptors != [] {
      EditableExact(descriptors[1..], id);
      assert descriptors[0] in descriptors
        && forall d :: d in descriptors <==> d == descriptors[0] || d in descriptors[1..];
    }
  }

  lemma {:induction false} EditableNext(descriptors: seq<Proxy>, i: nat)
    requires i < |descriptors|
    ensures Editable(descriptors[..i + 1])
      == Editable(descriptors[..i]) + if descriptors[i].editable then [descriptors[i].targetId] else []
  {
    if i == 0 {
      assert descriptors[..1] == [descriptors[0]];
    } else {
      EditableNext(descriptors[1..], i - 1);
      assert descriptors[..i][1..] == descriptors[1..][..i - 1] && descriptors[..i + 1][1..] == descriptors[1..][..i];
    }
  }

  ghost predicate Edited(before: Trace, trace: Trace, edits: seq<string>) {
    && before <= trace && |trace| == |before| + |edits|
    && forall i :: 0 <= i < |edits| ==> trace[|before| + i].request == PatchProxy(edits[i])
  }

  lemma NoneEdited(trace: Trace)
    ensures Edited(trace, trace, [])
  {}

  lemma EditNext(core: Core, before: Trace, trace: Trace, edits: seq<string>, id: string, m: Mapping)
    requires Edited(before, trace, edits)
    ensures Edited(before, trace + [Sent(PatchProxy(id), m)], edits + [id])
    ensures Refusals(core, |before|, |trace| + 1)
      == Refusals(core, |before|, |trace|) + if core(|trace|).Ok() then 0 else 1
  {}

  lemma EditsAreGrounding(before: Trace, trace: Trace, edits: seq<string>)
    requires Edited(before, trace, edits)
    ensures AllGrounding(trace, |before|, |trace|)
  {
    forall i | |before| <= i < |trace| ensures Grounding(trace[i].request) {
      assert trace[|before| + (i - |before|)].request == PatchProxy(edits[i - |before|]);
    }
  }

  lemma OneTaken(core: Core, before: Trace, trace: Trace, start: nat, edits: seq<string>, id: string)
    requires Edited(before, trace, edits) && start <= |before| && id in edits
    requires Refusals(core, |before|, |trace|) == 0
    ensures Taken(core, trace, start, PatchProxy(id))
  {
    NoneRefused(core, |before|, |trace|);
    var k :| 0 <= k < |edits| && edits[k] == id;
    TakenAt(core, trace, start, |before| + k);
  }

  /** Where all are listed and no edit is refused, all proxies are ready. */
  lemma EditsAreTaken(core: Core, configured: Trace, trace: Trace, start: nat, entities: seq<Proxy>)
    requires start <= |configured| && Edited(configured, trace, Editable(Usable(entities)))
    requires forall d :: d in Usable(entities) ==> Known(core, configured, start, d.targetId)
    requires Refusals(core, |configured|, |trace|) == 0
    ensures ProxiesReady(core, trace, start, entities)
  {
    hide Known, Taken, Usable, Editable, Refusals, Edited;
    assert configured <= trace by { EditedExtends(configured, trace, Editable(Usable(entities))); }
    StaysTrue(core, configured, start, trace, start);
    forall d | d in Usable(entities) && d.editable ensures Taken(core, trace, start, PatchProxy(d.targetId)) {
      EditableExact(Usable(entities), d.targetId);
      OneTaken(core, configured, trace, start, Editable(Usable(entities)), d.targetId);
    }
  }

  lemma EditedExtends(before: Trace, trace: Trace, edits: seq<string>)
    requires Edited(before, trace, edits)
    ensures before <= trace
  {}

  lemma TakenAt(core: Core, trace: Trace, start: nat, i: nat)
    requires start <= i < |trace| && core(i).Ok()
    ensures Taken(core, trace, start, trace[i].request)
  {}

  lemma {:induction false} UsableExact(entities: seq<Proxy>, id: string)
    ensures id in TargetIds(Usable(entities)) <==>
      exists p :: p in entities && p.targetId != "" && p.localId != "" && p.targetId == id
  {
    if entities != [] {
      var head, rest := entities[0], Usable(entities[1..]);
      UsableExact(entities[1..], id);
      assert entities == [head] + entities[1..];
      if head.targetId != "" && head.localId != "" {
        assert ([head] + rest)[1..] == rest;
      } else {
        assert [] + rest == rest;
      }
      assert head in entities && forall p :: p in entities <==> p == head || p in entities[1..];
    }
  }

  lemma {:induction false} OthersExact(previous: seq<Proxy>, current: seq<string>, id: string)
    ensures id in OthersOf(previous, current) <==> id !in current && exists p :: p in previous && p.targetId == id
  {
    if previous != [] {
      OthersExact(previous[1..], current, id);
      assert previous[0] in previous && forall p :: p in previous <==> p == previous[0] || p in previous[1..];
    }
  }

  /** What is left over of the previous catalog: the targets that no usable entry has, each once. */
  lemma SupersededExactly(entities: seq<Proxy>, previous: seq<Proxy>)
    ensures var obsolete := Membership.Collect([], OthersOf(previous, TargetIds(Usable(entities))));
      Ordering.Distinct(obsolete) && forall id :: id in obsolete <==> Superseded(id, entities, previous)
  {
    var current := TargetIds(Usable(entities));
    Membership.CollectIsExact([], OthersOf(previous, current));
    forall id
      ensures id in Membership.Collect([], OthersOf(previous, current)) <==> Superseded(id, entities, previous)
    {
      OthersExact(previous, current, id);
      UsableExact(entities, id);
    }
  }
}
