/** Which object of the Satellite stands for which object of a Primary, in one flat table. */
module Mappings {
  import opened Options

  type Table = map<string, string>

  function Key(node: string, kind: string, id: string): string {
    node + "|" + kind + "|" + id
  }

  predicate Plain(name: string) {
    '|' !in name
  }

  /** Where the first bar stands, or the length. */
  function IndexOfBar(text: string): (i: nat)
    ensures i <= |text| && '|' !in text[..i] && (i < |text| ==> text[i] == '|')
  {
    if text == "" || text[0] == '|' then 0
    else
      var i := IndexOfBar(text[1..]);
      assert text[..i + 1] == [text[0]] + text[1..][..i];
      i + 1
  }

  /** The kind and the id in a key of this node: the kind ends at the first bar. */
  function Parsed(node: string, key: string): (r: Option<(string, string)>)
    ensures r.Some? ==> Plain(r.value.0) && key == Key(node, r.value.0, r.value.1)
  {
    if !(node + "|" <= key) then None
    else
      var rest := key[|node| + 1..];
      var bar := IndexOfBar(rest);
      if bar == |rest| then None
      else
        assert rest == rest[..bar] + "|" + rest[bar + 1..];
        assert key == (node + "|") + rest;
        Some((rest[..bar], rest[bar + 1..]))
  }

  lemma {:induction false} FirstBar(kind: string, id: string)
    requires Plain(kind)
    ensures IndexOfBar(kind + "|" + id) == |kind|
  {
    if kind != "" {
      assert (kind + "|" + id)[1..] == kind[1..] + "|" + id;
      FirstBar(kind[1..], id);
    }
  }

  lemma ParsedKey(node: string, kind: string, id: string)
    requires Plain(kind)
    ensures Parsed(node, Key(node, kind, id)) == Some((kind, id))
  {
    var key, rest := Key(node, kind, id), kind + "|" + id;
    assert key == (node + "|") + rest;
    assert key[|node| + 1..] == rest;
    FirstBar(kind, id);
    assert rest[..|kind|] == kind && rest[|kind| + 1..] == id;
  }

  /** Keys without bars in their node and kind stand for one triple only. */
  lemma KeysApart(node: string, kind: string, id: string, node': string, kind': string, id': string)
    requires Plain(node) && Plain(kind) && Plain(node') && Plain(kind')
    ensures Key(node, kind, id) == Key(node', kind', id') <==> node == node' && kind == kind' && id == id'
  {
    if Key(node, kind, id) == Key(node', kind', id') {
      assert Key(node, kind, id) == node + "|" + (kind + "|" + id);
      assert Key(node', kind', id') == node' + "|" + (kind' + "|" + id');
      FirstBar(node, kind + "|" + id);
      FirstBar(node', kind' + "|" + id');
      assert node == Key(node, kind, id)[..|node|] && node' == Key(node', kind', id')[..|node|];
      ParsedKey(node, kind, id);
      ParsedKey(node', kind', id');
    }
  }

  /** The prefix of a node is the prefix of its own keys only. */
  lemma NodesApart(node: string, node': string, kind': string, id': string)
    requires Plain(node) && Plain(node')
    ensures node + "|" <= Key(node', kind', id') <==> node == node'
  {
    var key := Key(node', kind', id');
    assert key == node' + "|" + (kind' + "|" + id');
    FirstBar(node', kind' + "|" + id');
    if node + "|" <= key {
      var rest := key[|node| + 1..];
      assert key == node + "|" + rest;
      FirstBar(node, rest);
      assert node == key[..|node|] && node' == key[..|node'|];
    }
  }

  /** A bar inside a kind makes two triples share one key. */
  lemma BarsCollide()
    ensures Key("remote", "resource:a|b", "c") == Key("remote", "resource:a", "b|c")
  {}

  // ---------------------------------------------------------------------------
  // The nested view
  // ---------------------------------------------------------------------------

  function Tracked(data: Table, node: string): set<(string, string)> {
    set key | key in data && Parsed(node, key).Some? :: Parsed(node, key).value
  }

  /** Kind and id are in the nested view exactly when their key is in the table. */
  lemma TrackedExactly(data: Table, node: string, kind: string, id: string)
    ensures (kind, id) in Tracked(data, node) <==> Plain(kind) && Key(node, kind, id) in data
  {
    if Plain(kind) && Key(node, kind, id) in data { ParsedKey(node, kind, id); }
  }

  function IdsOf(data: Table, node: string, kind: string): set<string> {
    set p | p in Tracked(data, node) && p.0 == kind :: p.1
  }

  function KindsOf(data: Table, node: string): map<string, Table> {
    map kind | kind in (set p | p in Tracked(data, node) :: p.0) ::
      map id | id in IdsOf(data, node, kind) :: Stored(data, node, kind, id)
  }

  function Stored(data: Table, node: string, kind: string, id: string): string {
    if Key(node, kind, id) in data then data[Key(node, kind, id)] else ""
  }

  function ItemsOf(data: Table, node: string, kind: string): Table {
    var prefix := node + "|" + kind + "|";
    map id | id in (set key | key in data && prefix <= key :: key[|prefix|..]) :: Stored(data, node, kind, id)
  }

  function Lookup(kinds: map<string, Table>, kind: string): Table {
    if kind in kinds then kinds[kind] else map[]
  }

  lemma ItemExactly(data: Table, node: string, kind: string, id: string)
    ensures id in ItemsOf(data, node, kind) <==> Key(node, kind, id) in data
    ensures id in ItemsOf(data, node, kind) ==> ItemsOf(data, node, kind)[id] == data[Key(node, kind, id)]
  {
    var prefix := node + "|" + kind + "|";
    var key := Key(node, kind, id);
    assert key == prefix + id && key[|prefix|..] == id;
    forall k | k in data && prefix <= k && k[|prefix|..] == id ensures k == key { assert k == prefix + k[|prefix|..]; }
  }

  /** What the nested view holds. */
  lemma KindsExactly(data: Table, node: string, kind: string, id: string)
    ensures kind in KindsOf(data, node) ==> Plain(kind) && KindsOf(data, node)[kind] != map[]
    ensures id in Lookup(KindsOf(data, node), kind) <==> Plain(kind) && Key(node, kind, id) in data
    ensures id in Lookup(KindsOf(data, node), kind) ==> KindsOf(data, node)[kind][id] == data[Key(node, kind, id)]
  {
    TrackedExactly(data, node, kind, id);
    if kind in KindsOf(data, node) {
      var p :| p in Tracked(data, node) && p.0 == kind;
      TrackedExactly(data, node, kind, p.1);
      assert p == (kind, p.1);
      assert p.1 in KindsOf(data, node)[kind];
    }
    if (kind, id) in Tracked(data, node) { assert (kind, id).1 in IdsOf(data, node, kind); }
    if id in IdsOf(data, node, kind) {
      var p :| p in Tracked(data, node) && p.0 == kind && p.1 == id;
      assert p == (kind, id);
    }
  }

  /** The two views of one kind agree, exactly when the kind has no bar or nothing is stored for it. */
  lemma {:induction false} ViewsAgree(data: Table, node: string, kind: string)
    ensures ItemsOf(data, node, kind) == Lookup(KindsOf(data, node), kind) <==>
      Plain(kind) || ItemsOf(data, node, kind) == map[]
  {
    hide ItemsOf, KindsOf;
    var items, nested := ItemsOf(data, node, kind), Lookup(KindsOf(data, node), kind);
    forall id ensures id in nested <==> Plain(kind) && id in items
      ensures id in nested ==> nested[id] == items[id]
    {
      ItemExactly(data, node, kind, id);
      KindsExactly(data, node, kind, id);
    }
    if Plain(kind) {
      assert items == nested;
    } else {
      assert nested == map[];
    }
  }

  /** A bar inside a kind hides its items from the nested view. */
  lemma BarredKindIsHidden()
    ensures var data := map[Key("remote", "resource:a|b", "c") := "c"];
      && ItemsOf(data, "remote", "resource:a|b") == map["c" := "c"]
      && Lookup(KindsOf(data, "remote"), "resource:a|b") == map[]
  {
    hide KindsOf, Key, ItemsOf;
    var data := map[Key("remote", "resource:a|b", "c") := "c"];
    var items := ItemsOf(data, "remote", "resource:a|b");
    assert "resource:a|b"[10] == '|';
    forall id ensures id in items <==> id == "c" {
      ItemExactly(data, "remote", "resource:a|b", id);
      if id in items && id != "c" { SameIds("remote", "resource:a|b", id, "c"); }
    }
    ItemExactly(data, "remote", "resource:a|b", "c");
    ViewsAgree(data, "remote", "resource:a|b");
    forall id ensures id !in Lookup(KindsOf(data, "remote"), "resource:a|b") {
      KindsExactly(data, "remote", "resource:a|b", id);
    }
  }

  lemma SameIds(node: string, kind: string, id: string, id': string)
    requires Key(node, kind, id) == Key(node, kind, id')
    ensures id == id'
  {
    var prefix := node + "|" + kind + "|";
    assert Key(node, kind, id)[|prefix|..] == id && Key(node, kind, id')[|prefix|..] == id';
  }

  // ---------------------------------------------------------------------------
  // The store
  // ---------------------------------------------------------------------------

  class MappingStore {
    var data: Table

    constructor (stored: Table)
      ensures data == stored
    {
      data := stored;
    }

    /** What stands for one object; an empty id counts as nothing. */
    function Get(node: string, kind: string, id: string): (r: Option<string>)
      reads this
      ensures r.Some? <==> Key(node, kind, id) in data && |data[Key(node, kind, id)]| > 0
      ensures r.Some? ==> r.value == data[Key(node, kind, id)]
    {
      if Stored(data, node, kind, id) == "" then None else Some(Stored(data, node, kind, id))
    }

    method Set(node: string, kind: string, id: string, target: string)
      modifies this
      ensures data == old(data)[Key(node, kind, id) := target]
    {
      data := data[Key(node, kind, id) := target];
    }

    method Remove(node: string, kind: string, id: string)
      modifies this
      ensures data == old(data) - {Key(node, kind, id)}
    {
      data := data - {Key(node, kind, id)};
    }

    /** Everything recorded for a node, by kind. */
    method Kinds(node: string) returns (result: map<string, Table>)
      ensures result == KindsOf(data, node)
    {
      hide KindsOf, Parsed;
      result := map[];
      NothingTracked(node);
      var left := data.Keys;
      ghost var done: Table := map[];
      while left != {}
        invariant left <= data.Keys && done.Keys == data.Keys - left
        invariant forall k :: k in done ==> done[k] == data[k]
        invariant result == KindsOf(done, node)
        decreases left
      {
        var key :| key in left;
        left := left - {key};
        OneMore(done, node, key, data[key]);
        done := done[key := data[key]];
        var parsed := Parsed(node, key);
        if parsed.Some? {
          var (kind, id) := parsed.value;
          if kind !in result { result := result[kind := map[]]; }
          result := result[kind := result[kind][id := data[key]]];
        }
      }
      assert done == data;
    }

    /** Forgets everything of a node. */
    method ClearNode(node: string)
      modifies this
      ensures data == map key | key in old(data) && !(node + "|" <= key) :: old(data)[key]
    {
      var left := data.Keys;
      while left != {}
        invariant left <= old(data).Keys
        invariant data == map key | key in old(data) && (key in left || !(node + "|" <= key)) :: old(data)[key]
        decreases left
      {
        var key :| key in left;
        left := left - {key};
        if node + "|" <= key { data := data - {key}; }
      }
    }
  }

  lemma OneMore(data: Table, node: string, key: string, value: string)
    requires key !in data
    ensures KindsOf(data[key := value], node) ==
      match Parsed(node, key)
      case None => KindsOf(data, node)
      case Some(p) => KindsOf(data, node)[p.0 := Lookup(KindsOf(data, node), p.0)[p.1 := value]]
  {
    hide KindsOf;
    var after := KindsOf(data[key := value], node);
    var parsed := Parsed(node, key);
    var expected := match parsed
      case None => KindsOf(data, node)
      case Some(p) => KindsOf(data, node)[p.0 := Lookup(KindsOf(data, node), p.0)[p.1 := value]];
    forall kind: string, id: string
      ensures id in Lookup(after, kind) <==> id in Lookup(expected, kind)
      ensures id in Lookup(after, kind) ==> Lookup(after, kind)[id] == Lookup(expected, kind)[id]
    {
      KindsExactly(data, node, kind, id);
      KindsExactly(data[key := value], node, kind, id);
      if Plain(kind) { ParsedKey(node, kind, id); }
    }
    forall kind: string ensures Lookup(after, kind) == Lookup(expected, kind) {}
    forall kind: string
      ensures kind in after <==> Lookup(after, kind) != map[]
    {
      KindsExactly(data[key := value], node, kind, "");
    }
    forall kind: string ensures kind in expected <==> Lookup(expected, kind) != map[] {
      KindsExactly(data, node, kind, "");
      if parsed.Some? && kind == parsed.value.0 { assert parsed.value.1 in Lookup(expected, kind); }
    }
    SameNesting(after, expected);
  }

  lemma SameNesting(a: map<string, Table>, b: map<string, Table>)
    requires forall kind :: Lookup(a, kind) == Lookup(b, kind)
    requires forall kind :: kind in a <==> Lookup(a, kind) != map[]
    requires forall kind :: kind in b <==> Lookup(b, kind) != map[]
    ensures a == b
  {
    forall kind
      ensures kind in a <==> kind in b
      ensures kind in a ==> a[kind] == b[kind]
    {
      assert Lookup(a, kind) == Lookup(b, kind);
    }
  }

  lemma NothingTracked(node: string)
    ensures KindsOf(map[], node) == map[]
  {}

  // ---------------------------------------------------------------------------
  // One triple at a time
  // ---------------------------------------------------------------------------

  /** Setting and removing touch one triple, and clearing touches one node, as long as no name has a bar. */
  lemma {:induction false} OneTriple(data: Table, node: string, kind: string, id: string, target: string, node': string,
                                     kind': string, id': string)
    requires Plain(node) && Plain(kind) && Plain(node') && Plain(kind')
    ensures var same := node == node' && kind == kind' && id == id';
      && ((kind', id') in Tracked(data[Key(node, kind, id) := target], node') <==>
          same || (kind', id') in Tracked(data, node'))
      && Stored(data[Key(node, kind, id) := target], node', kind', id')
        == (if same then target else Stored(data, node', kind', id'))
      && ((kind', id') in Tracked(data - {Key(node, kind, id)}, node') <==>
          !same && (kind', id') in Tracked(data, node'))
      && (!same ==> Stored(data - {Key(node, kind, id)}, node', kind', id') == Stored(data, node', kind', id'))
    ensures (kind', id') in Tracked(map key | key in data && !(node + "|" <= key) :: data[key], node')
      <==> node != node' && (kind', id') in Tracked(data, node')
  {
    hide Tracked;
    KeysApart(node, kind, id, node', kind', id');
    NodesApart(node, node', kind', id');
    TrackedExactly(data, node', kind', id');
    TrackedExactly(data[Key(node, kind, id) := target], node', kind', id');
    TrackedExactly(data - {Key(node, kind, id)}, node', kind', id');
    TrackedExactly(map key | key in data && !(node + "|" <= key) :: data[key], node', kind', id');
  }
}
