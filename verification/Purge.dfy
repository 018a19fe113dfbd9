/** Removing from a Satellite everything that one Primary put there, while any deletion may fail. */
module Purge {
  import opened Options
  import opened Mappings
  import Membership
  import Bytes

  /** How the Core answers the deletion of one object. */
  datatype Outcome = Removed | Missing | Failed

  type Object = (string, string)

  datatype Resource = Resource(kind: string, id: string)

  datatype Report = Report(removed: nat, remaining: nat)

  const DELETE_ORDER: seq<string> := ["profile", "activity_group", "activity", "macro", "remote", "dock"]

  const RESOURCE: string := "resource:"

  predicate IsPage(kind: string) {
    "profile_page:" <= kind || "profile_group:" <= kind
  }

  // ---------------------------------------------------------------------------
  // What a purge leaves behind
  // ---------------------------------------------------------------------------

  /** The keys of the objects whose deletion did not fail. */
  function Gone(node: string, objects: set<Object>, outcome: (string, string) -> Outcome): set<string> {
    set p | p in objects && outcome(p.0, p.1) != Failed :: Key(node, p.0, p.1)
  }

  function ObjectsOf(kind: string, items: Table): set<Object> {
    set id | id in items :: (kind, id)
  }

  /** The objects of the first `n` kinds in the order of deletion. */
  function Ordered(kinds: map<string, Table>, n: nat): set<Object>
    requires n <= |DELETE_ORDER|
  {
    if n == 0 then {} else Ordered(kinds, n - 1) + ObjectsOf(DELETE_ORDER[n - 1], Lookup(kinds, DELETE_ORDER[n - 1]))
  }

  function KeysOf(node: string, objects: set<Object>): set<string> {
    set p | p in objects :: Key(node, p.0, p.1)
  }

  function Pages(data: Table, node: string): set<Object> {
    set p | p in Tracked(data, node) && IsPage(p.0)
  }

  function Purged(data: Table, node: string, attempted: set<Object>, outcome: (string, string) -> Outcome): Table {
    var rest := data - Gone(node, attempted, outcome);
    rest - KeysOf(node, Pages(rest, node))
  }

  // ---------------------------------------------------------------------------
  // Resources
  // ---------------------------------------------------------------------------

  /** The name under which a resource is remembered while they are collected. */
  function Join(r: Resource): string {
    r.kind + "/" + r.id
  }

  function TrackedResources(kinds: map<string, Table>): set<Resource> {
    set p | p in AllObjects(kinds) && RESOURCE <= p.0 :: Resource(p.0[|RESOURCE|..], p.1)
  }

  function AllObjects(kinds: map<string, Table>): set<Object> {
    set kind, id | kind in kinds && id in kinds[kind] :: (kind, id)
  }

  function Listed(resources: seq<Resource>): set<Resource> {
    set r | r in resources && r.kind != "" && r.id != ""
  }

  function Candidates(kinds: map<string, Table>, resources: seq<Resource>): set<Resource> {
    TrackedResources(kinds) + Listed(resources)
  }

  /** Of the candidates that share a name, one is kept. */
  ghost predicate IsTable(table: map<string, Resource>, candidates: set<Resource>) {
    && (forall name :: name in table ==> table[name] in candidates && Join(table[name]) == name)
    && (forall r :: r in candidates ==> Join(r) in table)
  }

  /** Resources to remove are those that are tracked, and those that the Primary lists with a type and an id. */
  lemma CandidatesAreExact(kinds: map<string, Table>, resources: seq<Resource>, r: Resource)
    ensures r in Candidates(kinds, resources) <==>
      || (r in resources && r.kind != "" && r.id != "")
      || ("resource:" + r.kind in kinds && r.id in kinds["resource:" + r.kind])
  {
    var kind := "resource:" + r.kind;
    assert RESOURCE <= kind && kind[|RESOURCE|..] == r.kind;
    if kind in kinds && r.id in kinds[kind] { assert (kind, r.id) in AllObjects(kinds); }
    if r in TrackedResources(kinds) {
      var p :| p in AllObjects(kinds) && RESOURCE <= p.0 && r == Resource(p.0[|RESOURCE|..], p.1);
      assert p.0 == RESOURCE + p.0[|RESOURCE|..];
    }
  }

  /** What the Primary lists last under a name. */
  function LastListed(resources: seq<Resource>, name: string): (r: Option<Resource>)
    ensures r.Some? ==> r.value in Listed(resources) && Join(r.value) == name
  {
    if resources == [] then None
    else
      var last := resources[|resources| - 1];
      if last.kind != "" && last.id != "" && Join(last) == name then Some(last)
      else LastListed(resources[..|resources| - 1], name)
  }

  /** A resource that the Primary lists replaces every other one of its name. */
  ghost predicate LastKept(table: map<string, Resource>, resources: seq<Resource>) {
    forall name :: name in table && LastListed(resources, name).Some? ==>
      table[name] == LastListed(resources, name).value
  }

  lemma {:induction false} ListedAreFound(resources: seq<Resource>, r: Resource)
    requires r in Listed(resources)
    ensures LastListed(resources, Join(r)).Some?
  {
    var n := |resources| - 1;
    assert resources == resources[..n] + [resources[n]];
    if r in Listed(resources[..n]) { ListedAreFound(resources[..n], r); }
  }

  lemma {:induction false} ListedNext(table: map<string, Resource>, resources: seq<Resource>, r: Resource)
    requires LastKept(table, resources)
    ensures r.kind != "" && r.id != "" ==> LastKept(table[Join(r) := r], resources + [r])
    ensures r.kind == "" || r.id == "" ==> LastKept(table, resources + [r])
  {
    assert (resources + [r])[..|resources|] == resources;
  }

  function ResourceObjects(table: map<string, Resource>): set<Object> {
    set name | name in table :: (RESOURCE + table[name].kind, table[name].id)
  }

  lemma NothingListed(table: map<string, Resource>)
    ensures LastKept(table, [])
  {}

  lemma TableGrows(table: map<string, Resource>, candidates: set<Resource>, r: Resource)
    requires IsTable(table, candidates)
    ensures IsTable(table[Join(r) := r], candidates + {r})
  {}

  /** The tracked resources but those of some kinds. */
  ghost predicate CollectedBut(kinds: map<string, Table>, left: set<string>, candidates: set<Resource>) {
    candidates == set p | p in AllObjects(kinds) && p.0 !in left && RESOURCE <= p.0 :: Resource(p.0[|RESOURCE|..], p.1)
  }

  method CollectResources(kinds: map<string, Table>, resources: seq<Resource>) returns (table: map<string, Resource>)
    ensures IsTable(table, Candidates(kinds, resources)) && LastKept(table, resources)
  {
    hide IsTable, TrackedResources, LastKept;
    ghost var candidates;
    table, candidates := CollectTracked(kinds);
    NothingListed(table);
    for i := 0 to |resources|
      invariant IsTable(table, candidates) && candidates == TrackedResources(kinds) + Listed(resources[..i])
      invariant LastKept(table, resources[..i])
    {
      var r := resources[i];
      assert resources[..i + 1] == resources[..i] + [r];
      ListedNext(table, resources[..i], r);
      if r.kind != "" && r.id != "" {
        TableGrows(table, candidates, r);
        table, candidates := table[Join(r) := r], candidates + {r};
      }
    }
    assert resources[..|resources|] == resources;
  }

  method CollectTracked(kinds: map<string, Table>)
    returns (table: map<string, Resource>, ghost candidates: set<Resource>)
    ensures IsTable(table, candidates) && candidates == TrackedResources(kinds)
  {
    table, candidates := map[], {};
    NothingCollected(kinds);
    hide IsTable, CollectedBut, AllObjects;
    var left := kinds.Keys;
    while left != {}
      invariant left <= kinds.Keys && IsTable(table, candidates) && CollectedBut(kinds, left, candidates)
      decreases left
    {
      var kind :| kind in left;
      ghost var before := candidates;
      if RESOURCE <= kind {
        table, candidates := AddResources(table, kind[|RESOURCE|..], kinds[kind].Keys, candidates);
      }
      KindCollected(kinds, left, kind, before, candidates);
      left := left - {kind};
    }
    AllCollected(kinds, candidates);
  }

  lemma NothingCollected(kinds: map<string, Table>)
    ensures IsTable(map[], {}) && CollectedBut(kinds, kinds.Keys, {})
  {}

  lemma AllCollected(kinds: map<string, Table>, candidates: set<Resource>)
    requires CollectedBut(kinds, {}, candidates)
    ensures candidates == TrackedResources(kinds)
  {}

  lemma KindCollected(kinds: map<string, Table>, left: set<string>, kind: string, before: set<Resource>,
                      after: set<Resource>)
    requires kind in left && left <= kinds.Keys && CollectedBut(kinds, left, before)
    requires after == before +
      if RESOURCE <= kind then (set id | id in kinds[kind].Keys :: Resource(kind[|RESOURCE|..], id)) else {}
    ensures CollectedBut(kinds, left - {kind}, after)
  {
    var expected := set p | p in AllObjects(kinds) && p.0 !in left - {kind} && RESOURCE <= p.0 ::
      Resource(p.0[|RESOURCE|..], p.1);
    forall r | r in after ensures r in expected {
      if r !in before { assert (kind, r.id) in AllObjects(kinds); }
    }
    forall r | r in expected ensures r in after {
      var p :|
        p in AllObjects(kinds) && p.0 !in left - {kind} && RESOURCE <= p.0 && r == Resource(p.0[|RESOURCE|..], p.1);
      assert p.0 == kind ==> p.1 in kinds[kind].Keys;
    }
  }

  method AddResources(table0: map<string, Resource>, kind: string, ids: set<string>, ghost candidates0: set<Resource>)
    returns (table: map<string, Resource>, ghost candidates: set<Resource>)
    requires IsTable(table0, candidates0)
    ensures IsTable(table, candidates) && candidates == candidates0 + set id | id in ids :: Resource(kind, id)
  {
    table, candidates := table0, candidates0;
    var left := ids;
    while left != {}
      invariant left <= ids && IsTable(table, candidates)
      invariant candidates == candidates0 + set id | id in ids && id !in left :: Resource(kind, id)
      decreases left
    {
      var id :| id in left;
      var r := Resource(kind, id);
      TableGrows(table, candidates, r);
      table, candidates, left := table[Join(r) := r], candidates + {r}, left - {id};
    }
  }

  // ---------------------------------------------------------------------------
  // The purge
  // ---------------------------------------------------------------------------

  class SatellitePurger {
    const mappings: MappingStore
    const outcome: (string, string) -> Outcome
    const entityFails: string -> bool

    constructor (mappings: MappingStore, outcome: (string, string) -> Outcome, entityFails: string -> bool)
      ensures this.mappings == mappings && this.outcome == outcome && this.entityFails == entityFails
    {
      this.mappings, this.outcome, this.entityFails := mappings, outcome, entityFails;
    }

    /** A missing Dock is forgotten, but not counted. */
    predicate Counts(p: Object) {
      outcome(p.0, p.1) == Removed || (outcome(p.0, p.1) == Missing && p.0 != "dock")
    }

    function Counted(objects: set<Object>): set<Object> {
      set p | p in objects && Counts(p)
    }

    /** What is counted: everything that is gone, but for Docks that were missing. */
    lemma CountedIsExact(objects: set<Object>)
      ensures Counted(objects) == set p | p in objects && outcome(p.0, p.1) != Failed
        && !(p.0 == "dock" && outcome(p.0, p.1) == Missing)
    {
      forall p: Object
        ensures Counts(p) <==> outcome(p.0, p.1) != Failed && !(p.0 == "dock" && outcome(p.0, p.1) == Missing)
      {
        match outcome(p.0, p.1) case Removed => case Missing => case Failed =>
      }
    }

    method DeleteKind(node: string, kind: string, items: Table) returns (removed: nat)
      modifies mappings
      ensures mappings.data == old(mappings.data) - Gone(node, ObjectsOf(kind, items), outcome)
      ensures removed == |Counted(ObjectsOf(kind, items))|
    {
      removed := DeleteAll(node, ObjectsOf(kind, items));
    }

    /** Deletes objects one by one and forgets those that are gone. */
    method DeleteAll(node: string, objects: set<Object>) returns (removed: nat)
      modifies mappings
      ensures mappings.data == old(mappings.data) - Gone(node, objects, outcome)
      ensures removed == |Counted(objects)|
    {
      hide Gone, Counted, Counts;
      removed := 0;
      var left := objects;
      assert objects - left == {};
      NothingGone(node);
      while left != {}
        invariant left <= objects
        invariant mappings.data == old(mappings.data) - Gone(node, objects - left, outcome)
        invariant removed == |Counted(objects - left)|
        decreases left
      {
        var p :| p in left;
        ghost var done := objects - left;
        left := left - {p};
        assert objects - left == done + {p};
        OneGone(node, done, p, outcome);
        CountOne(done, p);
        MinusTwice(old(mappings.data), Gone(node, done, outcome),
                   if outcome(p.0, p.1) != Failed then {Key(node, p.0, p.1)} else {});
        if outcome(p.0, p.1) != Failed { mappings.Remove(node, p.0, p.1); }
        if Counts(p) { removed := removed + 1; }
      }
      assert objects - left == objects;
    }

    lemma CountOne(done: set<Object>, p: Object)
      requires p !in done
      ensures |Counted(done + {p})| == |Counted(done)| + if Counts(p) then 1 else 0
    {
      assert Counted(done + {p}) == Counted(done) + if Counts(p) then {p} else {};
    }

    method DeleteEntities(ids: set<string>) returns (removed: nat)
      ensures removed == |set id | id in ids && !entityFails(id)|
    {
      removed := 0;
      var left := ids;
      while left != {}
        invariant left <= ids && removed == |set id | id in ids - left && !entityFails(id)|
        decreases left
      {
        var id :| id in left;
        ghost var before := set i | i in ids - left && !entityFails(i);
        left := left - {id};
        assert (set i | i in ids - left && !entityFails(i)) == before + if entityFails(id) then {} else {id};
        if !entityFails(id) { removed := removed + 1; }
      }
      assert ids - left == ids;
    }

    method DropPages(node: string)
      modifies mappings
      ensures mappings.data == old(mappings.data) - KeysOf(node, Pages(old(mappings.data), node))
    {
      hide KeysOf, Tracked, AllObjects, KindsOf;
      var remaining := mappings.Kinds(node);
      ObjectsAreTracked(mappings.data, node);
      var pages := set p | p in AllObjects(remaining) && IsPage(p.0);
      var left := pages;
      assert pages - left == {};
      NoKeys(node);
      while left != {}
        invariant left <= pages
        invariant mappings.data == old(mappings.data) - KeysOf(node, pages - left)
        decreases left
      {
        var p :| p in left;
        ghost var done := pages - left;
        left := left - {p};
        assert pages - left == done + {p};
        OneKey(node, done, p);
        MinusTwice(old(mappings.data), KeysOf(node, done), {Key(node, p.0, p.1)});
        mappings.Remove(node, p.0, p.1);
      }
      assert pages - left == pages;
      assert pages == Pages(old(mappings.data), node);
    }

    method CountLeft(node: string) returns (left: nat)
      ensures left == |Tracked(mappings.data, node)|
    {
      hide Tracked, AllObjects, KindsOf, ObjectsOf;
      var kinds := mappings.Kinds(node);
      ObjectsAreTracked(mappings.data, node);
      left := 0;
      var names := kinds.Keys;
      ghost var done: set<Object> := {};
      NothingCounted(kinds);
      while names != {}
        invariant names <= kinds.Keys && left == |done| && CountedBut(kinds, names, done)
        decreases names
      {
        var kind :| kind in names;
        OneKind(kinds, names, kind, done);
        names := names - {kind};
        left := left + |kinds[kind]|;
        done := done + ObjectsOf(kind, kinds[kind]);
      }
      assert done == AllObjects(kinds);
    }

    /** Removes what the Primary put here. `switched` tells whether another profile had to become active first.
        The ghost result is what was tried: every object of the known kinds and one resource for each name, the one
        that the Primary lists last where it lists any. */
    method Purge(node: string, entities: set<string>, resources: seq<Resource>, switched: bool)
      returns (report: Report, ghost attempted: set<Object>, ghost table: map<string, Resource>)
      modifies mappings
      ensures IsTable(table, Candidates(KindsOf(old(mappings.data), node), resources)) && LastKept(table, resources)
      ensures attempted == Ordered(KindsOf(old(mappings.data), node), |DELETE_ORDER|) + ResourceObjects(table)
      ensures mappings.data == Purged(old(mappings.data), node, attempted, outcome)
      ensures report.remaining == |Tracked(mappings.data, node)|
      ensures report.removed == (if switched then 1 else 0) + |Counted(attempted)|
        + |set id | id in entities - {""} + {Membership.RELAY_ENTITY_ID} && !entityFails(id)|
    {
      hide Gone, KeysOf, Pages, Tracked, KindsOf, IsTable, LastKept, Candidates, ResourceObjects, Counted, Ordered,
           ObjectsOf;
      ghost var before := mappings.data;
      var kinds := mappings.Kinds(node);
      var removed := if switched then 1 else 0;
      NothingGone(node);
      NothingOrdered(kinds);
      attempted := {};
      for i := 0 to |DELETE_ORDER|
        invariant attempted == Ordered(kinds, i)
        invariant mappings.data == before - Gone(node, attempted, outcome)
        invariant removed == (if switched then 1 else 0) + |Counted(attempted)|
      {
        var kind := DELETE_ORDER[i];
        var more := DeleteKind(node, kind, Lookup(kinds, kind));
        MoreGone(node, attempted, ObjectsOf(kind, Lookup(kinds, kind)));
        MinusTwice(before, Gone(node, attempted, outcome), Gone(node, ObjectsOf(kind, Lookup(kinds, kind)), outcome));
        NotYet(kinds, i);
        OrderedNext(kinds, i);
        attempted := attempted + ObjectsOf(kind, Lookup(kinds, kind));
        removed := removed + more;
      }
      var deleted := DeleteEntities(entities - {""} + {Membership.RELAY_ENTITY_ID});
      var collected := CollectResources(kinds, resources);
      table := collected;
      var more := DeleteAll(node, ResourceObjects(collected));
      MoreGone(node, attempted, ResourceObjects(collected));
      MinusTwice(before, Gone(node, attempted, outcome), Gone(node, ResourceObjects(collected), outcome));
      NoResources(kinds, collected);
      attempted := attempted + ResourceObjects(collected);
      DropPages(node);
      var remaining := CountLeft(node);
      report := Report(removed + deleted + more, remaining);
    }

    lemma NothingGone(node: string)
      ensures Gone(node, {}, outcome) == {} && Counted({}) == {}
    {}

    lemma MoreGone(node: string, a: set<Object>, b: set<Object>)
      ensures Gone(node, a + b, outcome) == Gone(node, a, outcome) + Gone(node, b, outcome)
      ensures a !! b ==> |Counted(a + b)| == |Counted(a)| + |Counted(b)|
    {
      assert Counted(a + b) == Counted(a) + Counted(b);
    }
  }

  lemma OneGone(node: string, done: set<Object>, p: Object, outcome: (string, string) -> Outcome)
    ensures Gone(node, done + {p}, outcome)
      == Gone(node, done, outcome) + if outcome(p.0, p.1) != Failed then {Key(node, p.0, p.1)} else {}
  {}

  lemma MinusTwice(data: Table, a: set<string>, b: set<string>)
    ensures (data - a) - b == data - (a + b)
  {}

  lemma NoKeys(node: string)
    ensures KeysOf(node, {}) == {}
  {}

  lemma OneKey(node: string, done: set<Object>, p: Object)
    ensures KeysOf(node, done + {p}) == KeysOf(node, done) + {Key(node, p.0, p.1)}
  {}

  lemma ObjectsAreTracked(data: Table, node: string)
    ensures AllObjects(KindsOf(data, node)) == Tracked(data, node)
  {
    hide KindsOf, Tracked;
    forall p: Object ensures p in AllObjects(KindsOf(data, node)) <==> p in Tracked(data, node) {
      KindsExactly(data, node, p.0, p.1);
      TrackedExactly(data, node, p.0, p.1);
      assert p == (p.0, p.1);
    }
  }

  /** All objects but those of some kinds. */
  ghost predicate CountedBut(kinds: map<string, Table>, names: set<string>, done: set<Object>) {
    done == set p | p in AllObjects(kinds) && p.0 !in names
  }

  lemma NothingCounted(kinds: map<string, Table>)
    ensures CountedBut(kinds, kinds.Keys, {})
  {}

  lemma {:induction false} OneKind(kinds: map<string, Table>, names: set<string>, kind: string, done: set<Object>)
    requires kind in names && names <= kinds.Keys && CountedBut(kinds, names, done)
    ensures CountedBut(kinds, names - {kind}, done + ObjectsOf(kind, kinds[kind]))
    ensures |done + ObjectsOf(kind, kinds[kind])| == |done| + |kinds[kind]|
  {
    SameSize(kind, kinds[kind].Keys);
    assert ObjectsOf(kind, kinds[kind]) == set id | id in kinds[kind].Keys :: (kind, id);
    assert done !! ObjectsOf(kind, kinds[kind]);
  }

  lemma NothingOrdered(kinds: map<string, Table>)
    ensures Ordered(kinds, 0) == {}
  {}

  lemma {:induction false} SameSize(kind: string, ids: set<string>)
    ensures |set id | id in ids :: (kind, id)| == |ids|
  {
    if ids != {} {
      var id :| id in ids;
      SameSize(kind, ids - {id});
      assert (set i | i in ids :: (kind, i)) == (set i | i in ids - {id} :: (kind, i)) + {(kind, id)};
    }
  }

  lemma {:induction false} OrderedNext(kinds: map<string, Table>, n: nat)
    requires n < |DELETE_ORDER|
    ensures Ordered(kinds, n + 1) == Ordered(kinds, n) + ObjectsOf(DELETE_ORDER[n], Lookup(kinds, DELETE_ORDER[n]))
  {}

  /** What was tried so far is of the kinds before. */
  lemma {:induction false} OrderedKinds(kinds: map<string, Table>, n: nat, p: Object)
    requires n <= |DELETE_ORDER|
    ensures p in Ordered(kinds, n) <==> p.0 in DELETE_ORDER[..n] && p.1 in Lookup(kinds, p.0)
  {
    if n > 0 {
      OrderedKinds(kinds, n - 1, p);
      assert DELETE_ORDER[..n] == DELETE_ORDER[..n - 1] + [DELETE_ORDER[n - 1]];
    }
  }

  lemma NotYet(kinds: map<string, Table>, n: nat)
    requires n < |DELETE_ORDER|
    ensures Ordered(kinds, n) !! ObjectsOf(DELETE_ORDER[n], Lookup(kinds, DELETE_ORDER[n]))
  {
    hide Ordered;
    forall p | p in Ordered(kinds, n) ensures p.0 != DELETE_ORDER[n] {
      OrderedKinds(kinds, n, p);
      var i :| 0 <= i < n && DELETE_ORDER[i] == p.0;
      KindsDiffer(i, n);
    }
  }

  lemma KindsDiffer(i: nat, j: nat)
    requires i < j < |DELETE_ORDER|
    ensures DELETE_ORDER[i] != DELETE_ORDER[j]
  {
    assert |DELETE_ORDER| == 6;
  }

  lemma NoResources(kinds: map<string, Table>, table: map<string, Resource>)
    ensures Ordered(kinds, |DELETE_ORDER|) !! ResourceObjects(table)
  {
    hide Ordered;
    forall p | p in Ordered(kinds, |DELETE_ORDER|) ensures !(RESOURCE <= p.0) {
      OrderedKinds(kinds, |DELETE_ORDER|, p);
      NotResource(p.0);
    }
  }

  lemma NotResource(kind: string)
    requires kind in DELETE_ORDER
    ensures !(RESOURCE <= kind) && Plain(kind) && !IsPage(kind)
  {
    assert |RESOURCE| == 9 && RESOURCE[0] == 'r';
    assert kind in ["profile", "activity_group", "activity", "macro", "remote", "dock"];
    assert |"profile_page:"| == 13 && |"profile_group:"| == 14 && "profile_group:"[0] == 'p';
    assert |kind| < 9 || kind == "activity_group";
    assert "activity_group"[0] == 'a';
  }

  // ---------------------------------------------------------------------------
  // What is left, exactly
  // ---------------------------------------------------------------------------

  /** Pages and groups of a profile, which go with it. */
  predicate PageKind(kind: string) {
    (|kind| >= 13 && kind[..13] == "profile_page:") || (|kind| >= 14 && kind[..14] == "profile_group:")
  }

  lemma PagesAreExact(kind: string)
    ensures PageKind(kind) <==> IsPage(kind)
  {
    assert |"profile_page:"| == 13 && |"profile_group:"| == 14;
  }

  /** Kinds of which a purge deletes every object. */
  predicate KnownKind(kind: string) {
    || kind == "profile" || kind == "activity_group" || kind == "activity" || kind == "macro" || kind == "remote"
    || kind == "dock" || (|kind| >= 9 && kind[..9] == "resource:")
  }

  lemma KnownKinds(kind: string)
    ensures KnownKind(kind) <==> kind in DELETE_ORDER || RESOURCE <= kind
  {
    assert |RESOURCE| == 9;
  }

  function Attempted(data: Table, node: string, table: map<string, Resource>): set<Object> {
    Ordered(KindsOf(data, node), |DELETE_ORDER|) + ResourceObjects(table)
  }

  /** The Primary lists resources whose types have no bar. */
  ghost predicate PlainResources(resources: seq<Resource>) {
    forall r :: r in resources ==> Plain(r.kind)
  }

  lemma {:induction false} CandidateTracked(data: Table, node: string, r: Resource)
    ensures r in TrackedResources(KindsOf(data, node)) <==> (RESOURCE + r.kind, r.id) in Tracked(data, node)
  {
    hide KindsOf, Tracked;
    ObjectsAreTracked(data, node);
    assert (RESOURCE + r.kind)[|RESOURCE|..] == r.kind;
    if r in TrackedResources(KindsOf(data, node)) {
      var p :| p in AllObjects(KindsOf(data, node)) && RESOURCE <= p.0 && r == Resource(p.0[|RESOURCE|..], p.1);
      assert p.0 == RESOURCE + p.0[|RESOURCE|..];
    }
    if (RESOURCE + r.kind, r.id) in Tracked(data, node) {
      var p := (RESOURCE + r.kind, r.id);
      assert p in AllObjects(KindsOf(data, node)) && RESOURCE <= p.0 && r == Resource(p.0[|RESOURCE|..], p.1);
    }
  }

  lemma {:induction false} AttemptedPlain(data: Table, node: string, resources: seq<Resource>,
                                          table: map<string, Resource>, p: Object)
    requires IsTable(table, Candidates(KindsOf(data, node), resources)) && PlainResources(resources)
    requires p in Attempted(data, node, table)
    ensures Plain(p.0)
  {
    hide KindsOf, Ordered, Tracked, TrackedResources;
    if p in Ordered(KindsOf(data, node), |DELETE_ORDER|) {
      OrderedKinds(KindsOf(data, node), |DELETE_ORDER|, p);
      NotResource(p.0);
    } else {
      var name :| name in table && p == (RESOURCE + table[name].kind, table[name].id);
      var r := table[name];
      if r in TrackedResources(KindsOf(data, node)) {
        CandidateTracked(data, node, r);
        TrackedExactly(data, node, p.0, p.1);
      } else {
        PlainTogether(r.kind);
      }
    }
  }

  lemma PlainTogether(kind: string)
    requires Plain(kind)
    ensures Plain(RESOURCE + kind)
  {
    assert '|' !in RESOURCE;
  }

  /** After a purge an object of the node is still tracked exactly when it was before, is no page or group of a
      profile, and was not tried or could not be deleted. */
  lemma {:induction false} PurgeIsExact(data: Table, node: string, resources: seq<Resource>,
                                        table: map<string, Resource>, outcome: (string, string) -> Outcome,
                                        kind: string, id: string)
    requires IsTable(table, Candidates(KindsOf(data, node), resources)) && PlainResources(resources)
    ensures (kind, id) in Tracked(Purged(data, node, Attempted(data, node, table), outcome), node) <==>
      && (kind, id) in Tracked(data, node) && !PageKind(kind)
      && ((kind, id) in Attempted(data, node, table) ==> outcome(kind, id) == Failed)
  {
    hide Tracked, Attempted, KindsOf, IsTable, Candidates, IsPage, PageKind;
    forall k: string { PagesAreExact(k); }
    var attempted := Attempted(data, node, table);
    var rest := data - Gone(node, attempted, outcome);
    var key := Key(node, kind, id);
    TrackedExactly(data, node, kind, id);
    TrackedExactly(rest, node, kind, id);
    TrackedExactly(Purged(data, node, attempted, outcome), node, kind, id);
    if Plain(kind) {
      ParsedKey(node, kind, id);
      if key in Gone(node, attempted, outcome) {
        var p :| p in attempted && outcome(p.0, p.1) != Failed && Key(node, p.0, p.1) == key;
        AttemptedPlain(data, node, resources, table, p);
        ParsedKey(node, p.0, p.1);
      }
      if key in KeysOf(node, Pages(rest, node)) {
        var p :| p in Pages(rest, node) && Key(node, p.0, p.1) == key;
        TrackedExactly(rest, node, p.0, p.1);
        ParsedKey(node, p.0, p.1);
      }
      assert (kind, id) in attempted && outcome(kind, id) != Failed ==> key in Gone(node, attempted, outcome);
      assert (kind, id) in Pages(rest, node) ==> key in KeysOf(node, Pages(rest, node));
    }
  }

  lemma KeyStart(node: string, kind: string, id: string)
    ensures node + "|" <= Key(node, kind, id)
  {
    assert Key(node, kind, id) == (node + "|") + (kind + "|" + id);
  }

  /** Nothing of another node changes. */
  lemma OtherNodesStay(data: Table, node: string, attempted: set<Object>, outcome: (string, string) -> Outcome,
                       node': string, kind: string, id: string)
    requires Plain(node) && Plain(node') && node != node'
    ensures var after := Purged(data, node, attempted, outcome);
      && ((kind, id) in Tracked(after, node') <==> (kind, id) in Tracked(data, node'))
      && Stored(after, node', kind, id) == Stored(data, node', kind, id)
  {
    hide Tracked;
    var after := Purged(data, node, attempted, outcome);
    var key := Key(node', kind, id);
    NodesApart(node, node', kind, id);
    forall k | k in data && k !in after ensures node + "|" <= k {
      var p: Object :| k == Key(node, p.0, p.1);
      KeyStart(node, p.0, p.1);
    }
    TrackedExactly(data, node', kind, id);
    TrackedExactly(after, node', kind, id);
  }

  /** Only kinds that the appliers record. */
  ghost predicate Recorded(data: Table, node: string) {
    forall p :: p in Tracked(data, node) ==> KnownKind(p.0) || PageKind(p.0)
  }

  /** No two resources share a name. */
  ghost predicate NamesApart(candidates: set<Resource>) {
    forall r, s :: r in candidates && s in candidates && Join(r) == Join(s) ==> r == s
  }

  lemma ResourceTried(table: map<string, Resource>, candidates: set<Resource>, r: Resource)
    requires IsTable(table, candidates)
    ensures (RESOURCE + r.kind, r.id) in ResourceObjects(table) <==> Join(r) in table && table[Join(r)] == r
  {
    if (RESOURCE + r.kind, r.id) in ResourceObjects(table) {
      var name :| name in table && (RESOURCE + r.kind, r.id) == (RESOURCE + table[name].kind, table[name].id);
      assert r.kind == (RESOURCE + r.kind)[|RESOURCE|..] == (RESOURCE + table[name].kind)[|RESOURCE|..]
        == table[name].kind;
      assert r == table[name];
    }
  }

  /** No tracked resource gives its name up to another one: the Primary lists nothing else last under that name,
      and no other tracked resource has it. */
  ghost predicate NamesKept(tracked: set<Resource>, resources: seq<Resource>) {
    && (forall r :: r in tracked ==> LastListed(resources, Join(r)).None? || LastListed(resources, Join(r)).value == r)
    && NamesApart(tracked)
  }

  ghost predicate NoneFails(data: Table, node: string, outcome: (string, string) -> Outcome) {
    forall p :: p in Tracked(data, node) && !PageKind(p.0) ==> outcome(p.0, p.1) != Failed
  }

  lemma {:induction false} ResourceIsAttempted(data: Table, node: string, resources: seq<Resource>,
                                               table: map<string, Resource>, r: Resource)
    requires IsTable(table, Candidates(KindsOf(data, node), resources))
    ensures (RESOURCE + r.kind, r.id) in Attempted(data, node, table) <==> Join(r) in table && table[Join(r)] == r
  {
    hide KindsOf, Ordered, Candidates, IsTable;
    ResourceTried(table, Candidates(KindsOf(data, node), resources), r);
    OrderedKinds(KindsOf(data, node), |DELETE_ORDER|, (RESOURCE + r.kind, r.id));
    if RESOURCE + r.kind in DELETE_ORDER { NotResource(RESOURCE + r.kind); }
  }

  /** Which tracked resources a purge tries to delete. */
  lemma {:induction false} ResourceIsKept(data: Table, node: string, resources: seq<Resource>,
                                          table: map<string, Resource>, r: Resource)
    requires IsTable(table, Candidates(KindsOf(data, node), resources)) && LastKept(table, resources)
    requires r in TrackedResources(KindsOf(data, node)) && NamesKept(TrackedResources(KindsOf(data, node)), resources)
    ensures (RESOURCE + r.kind, r.id) in Attempted(data, node, table)
  {
    hide KindsOf, TrackedResources, Attempted;
    ResourceIsAttempted(data, node, resources, table, r);
    var kept := table[Join(r)];
    if kept in Listed(resources) { ListedAreFound(resources, kept); }
  }

  /** A purge leaves nothing behind exactly when everything tracked is of a recorded kind, no deletion fails, and
      no tracked resource gives its name up to another one. */
  lemma {:induction false} NothingStaysExactly(data: Table, node: string, resources: seq<Resource>,
                                               table: map<string, Resource>, outcome: (string, string) -> Outcome)
    requires IsTable(table, Candidates(KindsOf(data, node), resources)) && LastKept(table, resources)
    requires PlainResources(resources)
    ensures Tracked(Purged(data, node, Attempted(data, node, table), outcome), node) == {} <==>
      && Recorded(data, node) && NoneFails(data, node, outcome)
      && NamesKept(TrackedResources(KindsOf(data, node)), resources)
  {
    hide Purged, Tracked, KindsOf, IsTable, LastKept, Attempted, Candidates, TrackedResources, NamesKept;
    var after := Tracked(Purged(data, node, Attempted(data, node, table), outcome), node);
    forall p: Object
      ensures p in after <==>
        && p in Tracked(data, node) && !PageKind(p.0)
        && (p in Attempted(data, node, table) ==> outcome(p.0, p.1) == Failed)
    {
      assert p == (p.0, p.1);
      PurgeIsExact(data, node, resources, table, outcome, p.0, p.1);
    }
    if after == {} {
      AllWasTried(data, node, resources, table);
    }
    if Recorded(data, node) && NoneFails(data, node, outcome)
      && NamesKept(TrackedResources(KindsOf(data, node)), resources)
    {
      forall p: Object | p in Tracked(data, node) && !PageKind(p.0) ensures p in Attempted(data, node, table) {
        AllIsTried(data, node, resources, table, p);
      }
    }
  }

  lemma {:induction false} AllWasTried(data: Table, node: string, resources: seq<Resource>,
                                       table: map<string, Resource>)
    requires IsTable(table, Candidates(KindsOf(data, node), resources)) && LastKept(table, resources)
    requires forall p :: p in Tracked(data, node) && !PageKind(p.0) ==> p in Attempted(data, node, table)
    ensures Recorded(data, node) && NamesKept(TrackedResources(KindsOf(data, node)), resources)
  {
    hide Tracked, KindsOf, TrackedResources, Attempted, IsTable, Candidates;
    forall p | p in Tracked(data, node) && !PageKind(p.0) ensures p.0 in DELETE_ORDER || RESOURCE <= p.0 {
      AttemptedKind(data, node, table, p);
    }
    forall r | r in TrackedResources(KindsOf(data, node)) ensures Join(r) in table && table[Join(r)] == r {
      CandidateTracked(data, node, r);
      NoPage(r.kind);
      ResourceIsAttempted(data, node, resources, table, r);
    }
    assert NamesApart(TrackedResources(KindsOf(data, node)));
    forall r | r in TrackedResources(KindsOf(data, node))
      ensures LastListed(resources, Join(r)).None? || LastListed(resources, Join(r)).value == r
    {
      assert Join(r) in table && table[Join(r)] == r;
    }
  }

  lemma NoPage(kind: string)
    ensures !PageKind(RESOURCE + kind)
  {
    assert (RESOURCE + kind)[0] == 'r';
  }

  lemma AttemptedKind(data: Table, node: string, table: map<string, Resource>, p: Object)
    requires p in Attempted(data, node, table)
    ensures p.0 in DELETE_ORDER || RESOURCE <= p.0
  {
    hide Ordered;
    OrderedKinds(KindsOf(data, node), |DELETE_ORDER|, p);
  }

  lemma {:induction false} AllIsTried(data: Table, node: string, resources: seq<Resource>, table: map<string, Resource>,
                                      p: Object)
    requires IsTable(table, Candidates(KindsOf(data, node), resources)) && LastKept(table, resources)
    requires Recorded(data, node) && NamesKept(TrackedResources(KindsOf(data, node)), resources)
    requires p in Tracked(data, node) && !PageKind(p.0)
    ensures p in Attempted(data, node, table)
  {
    hide Tracked, KindsOf, TrackedResources, Ordered, IsTable, Candidates, LastKept, NamesKept;
    if p.0 in DELETE_ORDER {
      OrderedKinds(KindsOf(data, node), |DELETE_ORDER|, p);
      TrackedExactly(data, node, p.0, p.1);
      KindsExactly(data, node, p.0, p.1);
    } else {
      var r := Resource(p.0[|RESOURCE|..], p.1);
      assert p.0 == RESOURCE + p.0[|RESOURCE|..];
      CandidateTracked(data, node, r);
      ResourceIsKept(data, node, resources, table, r);
    }
  }

  lemma SlashFreeNames(tracked: set<Resource>, resources: seq<Resource>)
    requires forall r :: r in tracked + Listed(resources) ==> '/' !in r.kind
    ensures NamesKept(tracked, resources)
  {
    forall r, s | r in tracked && s in tracked + Listed(resources) && Join(r) == Join(s) ensures r == s {
      Bytes.SplitAt('/', r.kind, r.id, s.kind, s.id);
    }
    forall r | r in tracked && LastListed(resources, Join(r)).Some?
      ensures LastListed(resources, Join(r)).value == r
    {
      assert LastListed(resources, Join(r)).value in Listed(resources);
    }
  }

  /** Not tried, and tracked when the purge is over. */
  ghost predicate Lost(data: Table, node: string, table: map<string, Resource>, outcome: (string, string) -> Outcome,
                       r: Resource)
  {
    && (RESOURCE + r.kind, r.id) !in Attempted(data, node, table)
    && (RESOURCE + r.kind, r.id) in Tracked(Purged(data, node, Attempted(data, node, table), outcome), node)
  }

  /** Of two tracked resources with one name, one is not tried and stays tracked, however the Core answers. */
  lemma SharedNameIsLost(data: Table, node: string, resources: seq<Resource>, table: map<string, Resource>,
                         outcome: (string, string) -> Outcome, r: Resource, s: Resource)
    requires IsTable(table, Candidates(KindsOf(data, node), resources)) && PlainResources(resources)
    requires {r, s} <= TrackedResources(KindsOf(data, node)) && r != s && Join(r) == Join(s)
    ensures Lost(data, node, table, outcome, r) || Lost(data, node, table, outcome, s)
  {
    hide Tracked, KindsOf, Purged, Attempted, IsTable, TrackedResources;
    var x := if Join(r) in table && table[Join(r)] == r then s else r;
    ResourceIsAttempted(data, node, resources, table, x);
    CandidateTracked(data, node, x);
    NoPage(x.kind);
    PurgeIsExact(data, node, resources, table, outcome, RESOURCE + x.kind, x.id);
  }

  lemma NamesCanBeShared()
    ensures Join(Resource("a/b", "c")) == Join(Resource("a", "b/c"))
  {}

  /** Two recorded resources with one name. */
  function TwoIcons(): Table {
    map[Key("n", RESOURCE + "a/b", "c") := "c", Key("n", RESOURCE + "a", "b/c") := "b/c"]
  }

  /** A purge of these leaves one of them tracked, even when every deletion succeeds. */
  lemma SharedNameStays(table: map<string, Resource>, outcome: (string, string) -> Outcome)
    requires IsTable(table, Candidates(KindsOf(TwoIcons(), "n"), []))
    ensures Tracked(Purged(TwoIcons(), "n", Attempted(TwoIcons(), "n", table), outcome), "n") != {}
  {
    hide Key, Tracked, KindsOf, Purged, Attempted, Candidates, IsTable, TrackedResources;
    var r, s := Resource("a/b", "c"), Resource("a", "b/c");
    NamesCanBeShared();
    PlainTogether(r.kind);
    PlainTogether(s.kind);
    TrackedExactly(TwoIcons(), "n", RESOURCE + r.kind, r.id);
    TrackedExactly(TwoIcons(), "n", RESOURCE + s.kind, s.id);
    CandidateTracked(TwoIcons(), "n", r);
    CandidateTracked(TwoIcons(), "n", s);
    SharedNameIsLost(TwoIcons(), "n", [], table, outcome, r, s);
  }

  /** One resource is tracked and the Primary lists another one of its name: the tracked one stays, however the
      Core answers. */
  lemma ListedNameStays(data: Table, node: string, resources: seq<Resource>, table: map<string, Resource>,
                        outcome: (string, string) -> Outcome, r: Resource, s: Resource)
    requires IsTable(table, Candidates(KindsOf(data, node), resources)) && LastKept(table, resources)
    requires PlainResources(resources)
    requires r in TrackedResources(KindsOf(data, node)) && LastListed(resources, Join(r)) == Some(s) && r != s
    ensures Lost(data, node, table, outcome, r)
  {
    hide Tracked, KindsOf, Purged, Attempted, IsTable, TrackedResources;
    ResourceIsAttempted(data, node, resources, table, r);
    CandidateTracked(data, node, r);
    NoPage(r.kind);
    PurgeIsExact(data, node, resources, table, outcome, RESOURCE + r.kind, r.id);
  }

  /** When no tracked resource gives its name up, a purge leaves exactly the objects that could not be deleted. */
  lemma {:induction false} OnlyFailuresStay(data: Table, node: string, resources: seq<Resource>,
                                            table: map<string, Resource>, outcome: (string, string) -> Outcome,
                                            kind: string, id: string)
    requires IsTable(table, Candidates(KindsOf(data, node), resources)) && LastKept(table, resources)
    requires PlainResources(resources)
    requires Recorded(data, node) && NamesKept(TrackedResources(KindsOf(data, node)), resources)
    ensures (kind, id) in Tracked(Purged(data, node, Attempted(data, node, table), outcome), node) <==>
      (kind, id) in Tracked(data, node) && !PageKind(kind) && outcome(kind, id) == Failed
  {
    hide Purged, Tracked, KindsOf, IsTable, LastKept, NamesKept, Attempted;
    PurgeIsExact(data, node, resources, table, outcome, kind, id);
    if (kind, id) in Tracked(data, node) && !PageKind(kind) { AllIsTried(data, node, resources, table, (kind, id)); }
  }
}
