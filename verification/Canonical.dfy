/** The canonical text of a JSON value and the form of it that ignores volatile state. */
module Canonical {
  import opened Options
  import opened Json
  import opened Ordering

  // ---------------------------------------------------------------------------
  // Normal form
  // ---------------------------------------------------------------------------

  /** Keys that an object lists first, in numeric order. */
  predicate IsIndex(key: string) {
    && 0 < |key| <= 10
    && (forall i :: 0 <= i < |key| ==> '0' <= key[i] <= '9')
    && (key[0] == '0' ==> |key| == 1)
    && (|key| == 10 ==> Below(key, "4294967295"))
  }

  predicate IndexBelow(a: string, b: string) {
    IsIndex(a) && (!IsIndex(b) || |a| < |b| || (|a| == |b| && Below(a, b)))
  }

  predicate ByKey(f: Field, g: Field) {
    Below(f.key, g.key)
  }

  predicate ByIndex(f: Field, g: Field) {
    IndexBelow(f.key, g.key)
  }

  /** Sorted keys, as an object made from them lists them again. */
  function Arranged(fields: seq<Field>): seq<Field> {
    Sorted(Sorted(fields, ByKey), ByIndex)
  }

  function Normalized(value: Json): Json
    decreases value, 1
  {
    match value
    case Arr(items) => Arr(NormalizedItems(items))
    case Obj(fields) => Obj(Arranged(NormalizedFields(fields)))
    case _ => value
  }

  function NormalizedItems(items: seq<Json>): (r: seq<Json>)
    ensures |r| == |items|
    decreases items, 0
  {
    if items == [] then [] else [Normalized(items[0])] + NormalizedItems(items[1..])
  }

  function NormalizedFields(fields: seq<Field>): (r: seq<Field>)
    ensures |r| == |fields|
    decreases fields, 0
  {
    if fields == [] then [] else [Field(fields[0].key, Normalized(fields[0].value))] + NormalizedFields(fields[1..])
  }

  // ---------------------------------------------------------------------------
  // Printing
  // ---------------------------------------------------------------------------

  const HEX: string := "0123456789abcdef"

  function Escaped(c: char): string {
    if c == '"' then "\\\"" else if c == '\\' then "\\\\"
    else if c as int == 8 then "\\b" else if c as int == 9 then "\\t" else if c as int == 10 then "\\n"
    else if c as int == 12 then "\\f" else if c as int == 13 then "\\r"
    else if c as int < 32 then "\\u00" + [HEX[c as int / 16], HEX[c as int % 16]]
    else [c]
  }

  /** The characters of a string and its closing quote. */
  function Quoted(text: string): string {
    if text == "" then "\"" else Escaped(text[0]) + Quoted(text[1..])
  }

  function Print(value: Json): string
    decreases value, 2
  {
    match value
    case Null => "null"
    case Bool(flag) => if flag then "true" else "false"
    case Num(text) => text
    case Str(text) => "\"" + Quoted(text)
    case Arr(items) => "[" + (if items == [] then "]" else Print(items[0]) + PrintItems(items[1..]))
    case Obj(fields) => "{" + (if fields == [] then "}" else PrintField(fields[0]) + PrintFields(fields[1..]))
  }

  function PrintField(f: Field): string
    decreases f, 3
  {
    "\"" + Quoted(f.key) + ":" + Print(f.value)
  }

  /** Further items and the closing bracket. */
  function PrintItems(items: seq<Json>): string
    decreases items, 0
  {
    if items == [] then "]" else "," + Print(items[0]) + PrintItems(items[1..])
  }

  function PrintFields(fields: seq<Field>): string
    decreases fields, 0
  {
    if fields == [] then "}" else "," + PrintField(fields[0]) + PrintFields(fields[1..])
  }

  function CanonicalText(value: Json): string {
    Print(Normalized(value))
  }

  // ---------------------------------------------------------------------------
  // The configuration without its volatile state
  // ---------------------------------------------------------------------------

  const VOLATILE_KEYS: set<string> := {
    "attributes", "state", "device_state", "driver_state", "connection_state", "connected", "online", "last_seen",
    "updated_at", "media_position_updated_at"}

  function StableConfiguration(value: Json): Json
    decreases value, 1
  {
    match value
    case Arr(items) => Arr(StableItems(items))
    case Obj(fields) => Obj(StableFields(fields))
    case _ => value
  }

  function StableItems(items: seq<Json>): (r: seq<Json>)
    ensures |r| == |items|
    decreases items, 0
  {
    if items == [] then [] else [StableConfiguration(items[0])] + StableItems(items[1..])
  }

  function StableFields(fields: seq<Field>): seq<Field>
    decreases fields, 0
  {
    if fields == [] then []
    else
      (if fields[0].key in VOLATILE_KEYS then [] else [Field(fields[0].key, StableConfiguration(fields[0].value))])
      + StableFields(fields[1..])
  }

  // ---------------------------------------------------------------------------
  // Values
  // ---------------------------------------------------------------------------

  predicate NumberChar(c: char) {
    c in {'-', '+', '.', 'e', 'E'} || '0' <= c <= '9'
  }

  predicate NumberText(text: string) {
    text != "" && forall i :: 0 <= i < |text| ==> NumberChar(text[i])
  }

  ghost predicate DistinctKeys(fields: seq<Field>) {
    forall i, j :: 0 <= i < j < |fields| ==> fields[i].key != fields[j].key
  }

  /** Every object has each key once and every number prints as a number. */
  ghost predicate WellFormed(value: Json)
    decreases value
  {
    match value
    case Num(text) => NumberText(text)
    case Arr(items) => forall i :: 0 <= i < |items| ==> WellFormed(items[i])
    case Obj(fields) => DistinctKeys(fields) && forall i :: 0 <= i < |fields| ==> WellFormed(fields[i].value)
    case _ => true
  }

  /** Equal up to the order of keys, at every depth. */
  ghost predicate Same(a: Json, b: Json)
    decreases a
  {
    match (a, b)
    case (Arr(xs), Arr(ys)) => |xs| == |ys| && forall i :: 0 <= i < |xs| ==> Same(xs[i], ys[i])
    case (Obj(fs), Obj(gs)) =>
      |fs| == |gs| && forall i :: 0 <= i < |fs| ==> Has(gs, fs[i].key) && Same(fs[i].value, Get(gs, fs[i].key).value)
    case _ => a == b
  }

  /** Equal up to the order of keys and whatever stands under volatile keys, at every depth. */
  ghost predicate SameConfiguration(a: Json, b: Json)
    decreases a
  {
    match (a, b)
    case (Arr(xs), Arr(ys)) => |xs| == |ys| && forall i :: 0 <= i < |xs| ==> SameConfiguration(xs[i], ys[i])
    case (Obj(fs), Obj(gs)) =>
      && (forall i :: 0 <= i < |fs| && fs[i].key !in VOLATILE_KEYS ==>
            Has(gs, fs[i].key) && SameConfiguration(fs[i].value, Get(gs, fs[i].key).value))
      && (forall j :: 0 <= j < |gs| && gs[j].key !in VOLATILE_KEYS ==> Has(fs, gs[j].key))
    case _ => a == b
  }

  // ---------------------------------------------------------------------------
  // Printing is unambiguous
  // ---------------------------------------------------------------------------

  /** What may follow a value inside a text. */
  predicate Stop(rest: string) {
    rest == "" || rest[0] in {',', ']', '}'}
  }

  lemma {:induction false} EscapedApart(c: char, d: char, x: string, y: string)
    requires Escaped(c) + x == Escaped(d) + y
    ensures c == d && x == y
  {
    var u, v := Escaped(c), Escaped(d);
    assert (u + x)[0] == u[0] && (v + y)[0] == v[0];
    if |u| >= 2 { assert (u + x)[1] == u[1] && (v + y)[1] == (v + y)[1]; }
    if |v| >= 2 { assert (v + y)[1] == v[1]; }
    if |u| == 6 && |v| == 6 {
      assert u[4] == (u + x)[4] == (v + y)[4] == v[4] && u[5] == (u + x)[5] == (v + y)[5] == v[5];
      HexApart(c as int / 16, d as int / 16);
      HexApart(c as int % 16, d as int % 16);
    }
    assert c == d;
    assert x == (u + x)[|u|..] && y == (v + y)[|u|..];
  }

  lemma HexApart(i: nat, j: nat)
    requires i < 16 && j < 16 && HEX[i] == HEX[j]
    ensures i == j
  {}

  lemma Drop(head: string, x: string, y: string)
    requires head + x == head + y
    ensures x == y
  {
    assert x == (head + x)[|head|..] && y == (head + y)[|head|..];
  }

  lemma Joined(a: string, b: string, c: string)
    ensures (a + b) + c == a + (b + c)
  {}

  lemma {:induction false} QuotedApart(s: string, t: string, x: string, y: string)
    requires Quoted(s) + x == Quoted(t) + y
    ensures s == t && x == y
  {
    hide Escaped;
    QuotedStart(s, x);
    QuotedStart(t, y);
    if s != "" && t != "" {
      Joined(Escaped(s[0]), Quoted(s[1..]), x);
      Joined(Escaped(t[0]), Quoted(t[1..]), y);
      EscapedApart(s[0], t[0], Quoted(s[1..]) + x, Quoted(t[1..]) + y);
      QuotedApart(s[1..], t[1..], x, y);
      assert s == [s[0]] + s[1..] && t == [t[0]] + t[1..];
    } else {
      assert s == t == "";
      Drop("\"", x, y);
    }
  }

  lemma QuotedStart(s: string, x: string)
    ensures Quoted(s) != "" && ((Quoted(s) + x)[0] == '"' <==> s == "")
  {
    if s != "" { assert Escaped(s[0])[0] != '"'; }
  }

  /** The kind of a value shows in its first character. */
  function Kind(c: char): int {
    if c == 'n' then 0 else if c == 't' then 1 else if c == 'f' then 2 else if c == '"' then 3
    else if c == '[' then 4 else if c == '{' then 5 else if c in {',', ':', ']', '}'} then 6 else 7
  }

  lemma PrintStart(value: Json)
    requires WellFormed(value)
    ensures Print(value) != ""
    ensures Kind(Print(value)[0]) == match value
      case Null => 0
      case Bool(flag) => (if flag then 1 else 2)
      case Str(_) => 3
      case Arr(_) => 4
      case Obj(_) => 5
      case Num(_) => 7
  {
    hide Quoted, PrintItems, PrintFields, PrintField, NumberText, WellFormed;
    match value
    case Num(text) => NumberStart(text);
    case _ =>
  }

  lemma NumberStart(text: string)
    requires WellFormed(Num(text))
    ensures text != "" && Kind(text[0]) == 7
  {}

  lemma NotShorter(s: string, t: string, x: string, y: string)
    requires NumberText(t) && Stop(x) && |s| < |t|
    ensures s + x != t + y
  {
    assert (t + y)[|s|] == t[|s|];
    if x != "" { assert (s + x)[|s|] == x[0]; }
  }

  lemma NumbersApart(s: string, t: string, x: string, y: string)
    requires NumberText(s) && NumberText(t) && Stop(x) && Stop(y) && s + x == t + y
    ensures s == t && x == y
  {
    assert |s| == |t| by {
      if |s| < |t| { NotShorter(s, t, x, y); }
      if |t| < |s| { NotShorter(t, s, y, x); }
    }
    assert s == (s + x)[..|s|] && t == (t + y)[..|s|];
    Drop(s, x, y);
  }

  /** Two values whose texts, followed by whatever may follow, are equal, are equal themselves. */
  lemma {:induction false} PrintApart(a: Json, b: Json, x: string, y: string)
    requires WellFormed(a) && WellFormed(b) && Stop(x) && Stop(y) && Print(a) + x == Print(b) + y
    ensures a == b && x == y
    decreases a, 2
  {
    hide Quoted, Kind, NumberText, PrintItems, PrintFields, PrintField;
    SameKind(a, b, x, y);
    match a
    case Null => Drop(Print(a), x, y);
    case Bool(_) => Drop(Print(a), x, y);
    case Num(text) => NumbersApart(text, b.text, x, y);
    case Str(text) =>
      Joined("\"", Quoted(text), x);
      Joined("\"", Quoted(b.text), y);
      Drop("\"", Quoted(text) + x, Quoted(b.text) + y);
      QuotedApart(text, b.text, x, y);
    case Arr(_) => ArraysApart(a, b, x, y);
    case Obj(_) => ObjectsApart(a, b, x, y);
  }

  lemma {:induction false} SameKind(a: Json, b: Json, x: string, y: string)
    requires WellFormed(a) && WellFormed(b) && Print(a) + x == Print(b) + y
    ensures a.Null? == b.Null? && a.Bool? == b.Bool? && a.Num? == b.Num? && a.Str? == b.Str? && a.Arr? == b.Arr?
      && a.Obj? == b.Obj?
    ensures a.Bool? ==> a == b
  {
    PrintStart(a);
    PrintStart(b);
    assert Print(a)[0] == (Print(a) + x)[0] == (Print(b) + y)[0] == Print(b)[0];
  }

  lemma {:induction false} ArraysApart(a: Json, b: Json, x: string, y: string)
    requires a.Arr? && b.Arr? && WellFormed(a) && WellFormed(b) && Print(a) + x == Print(b) + y
    ensures a == b && x == y
    decreases a, 1
  {
    hide PrintItems, Kind;
    var xs, ys := a.items, b.items;
    var u := if xs == [] then "]" else Print(xs[0]) + PrintItems(xs[1..]);
    var v := if ys == [] then "]" else Print(ys[0]) + PrintItems(ys[1..]);
    assert Print(a) == "[" + u && Print(b) == "[" + v;
    Joined("[", u, x);
    Joined("[", v, y);
    Drop("[", u + x, v + y);
    ItemsStart(a, x);
    ItemsStart(b, y);
    if xs == [] || ys == [] {
      assert xs == ys == [];
      Drop("]", x, y);
    } else {
      Joined(Print(xs[0]), PrintItems(xs[1..]), x);
      Joined(Print(ys[0]), PrintItems(ys[1..]), y);
      ItemsStop(xs[1..], x);
      ItemsStop(ys[1..], y);
      PrintApart(xs[0], ys[0], PrintItems(xs[1..]) + x, PrintItems(ys[1..]) + y);
      ItemsApart(xs[1..], ys[1..], x, y);
      assert xs == [xs[0]] + xs[1..] && ys == [ys[0]] + ys[1..];
    }
  }

  lemma ItemsStart(a: Json, x: string)
    requires a.Arr? && WellFormed(a)
    ensures a.items != [] ==> Print(a.items[0]) != "" && ((Print(a.items[0]) + PrintItems(a.items[1..])) + x)[0] != ']'
  {
    if a.items != [] { PrintStart(a.items[0]); }
  }

  lemma ItemsStop(items: seq<Json>, x: string)
    ensures PrintItems(items) != "" && Stop(PrintItems(items) + x)
    ensures (PrintItems(items) + x)[0] == ',' <==> items != []
  {}

  lemma {:induction false} ItemsApart(xs: seq<Json>, ys: seq<Json>, x: string, y: string)
    requires forall i :: 0 <= i < |xs| ==> WellFormed(xs[i])
    requires forall i :: 0 <= i < |ys| ==> WellFormed(ys[i])
    requires PrintItems(xs) + x == PrintItems(ys) + y
    ensures xs == ys && x == y
    decreases xs, 0
  {
    hide Print, WellFormed, Stop;
    ItemsStop(xs, x);
    ItemsStop(ys, y);
    if xs == [] {
      Drop("]", x, y);
    } else {
      var u, v := PrintItems(xs[1..]), PrintItems(ys[1..]);
      assert PrintItems(xs) + x == "," + (Print(xs[0]) + (u + x));
      assert PrintItems(ys) + y == "," + (Print(ys[0]) + (v + y));
      Drop(",", Print(xs[0]) + (u + x), Print(ys[0]) + (v + y));
      ItemsStop(xs[1..], x);
      ItemsStop(ys[1..], y);
      PrintApart(xs[0], ys[0], u + x, v + y);
      ItemsApart(xs[1..], ys[1..], x, y);
      assert xs == [xs[0]] + xs[1..] && ys == [ys[0]] + ys[1..];
    }
  }

  lemma {:induction false} FieldApart(f: Field, g: Field, x: string, y: string)
    requires WellFormed(f.value) && WellFormed(g.value) && Stop(x) && Stop(y) && PrintField(f) + x == PrintField(g) + y
    ensures f == g && x == y
    decreases f, 3
  {
    hide Quoted, Print, WellFormed, Stop;
    var u, v := Print(f.value) + x, Print(g.value) + y;
    assert PrintField(f) + x == "\"" + (Quoted(f.key) + (":" + u));
    assert PrintField(g) + y == "\"" + (Quoted(g.key) + (":" + v));
    Drop("\"", Quoted(f.key) + (":" + u), Quoted(g.key) + (":" + v));
    QuotedApart(f.key, g.key, ":" + u, ":" + v);
    Drop(":", u, v);
    PrintApart(f.value, g.value, x, y);
  }

  lemma {:induction false} ObjectsApart(a: Json, b: Json, x: string, y: string)
    requires a.Obj? && b.Obj? && WellFormed(a) && WellFormed(b) && Print(a) + x == Print(b) + y
    ensures a == b && x == y
    decreases a, 1
  {
    hide PrintFields;
    var fs, gs := a.fields, b.fields;
    var u := if fs == [] then "}" else PrintField(fs[0]) + PrintFields(fs[1..]);
    var v := if gs == [] then "}" else PrintField(gs[0]) + PrintFields(gs[1..]);
    assert Print(a) == "{" + u && Print(b) == "{" + v;
    Joined("{", u, x);
    Joined("{", v, y);
    Drop("{", u + x, v + y);
    if fs == [] || gs == [] {
      assert (u + x)[0] == (v + y)[0];
      assert fs == gs == [];
      Drop("}", x, y);
    } else {
      hide PrintField;
      Joined(PrintField(fs[0]), PrintFields(fs[1..]), x);
      Joined(PrintField(gs[0]), PrintFields(gs[1..]), y);
      FieldsStop(fs[1..], x);
      FieldsStop(gs[1..], y);
      FieldApart(fs[0], gs[0], PrintFields(fs[1..]) + x, PrintFields(gs[1..]) + y);
      FieldsApart(fs[1..], gs[1..], x, y);
      assert fs == [fs[0]] + fs[1..] && gs == [gs[0]] + gs[1..];
    }
  }

  lemma FieldsStop(fields: seq<Field>, x: string)
    ensures PrintFields(fields) != "" && Stop(PrintFields(fields) + x)
    ensures (PrintFields(fields) + x)[0] == ',' <==> fields != []
  {}

  lemma {:induction false} FieldsApart(fs: seq<Field>, gs: seq<Field>, x: string, y: string)
    requires forall i :: 0 <= i < |fs| ==> WellFormed(fs[i].value)
    requires forall i :: 0 <= i < |gs| ==> WellFormed(gs[i].value)
    requires PrintFields(fs) + x == PrintFields(gs) + y
    ensures fs == gs && x == y
    decreases fs, 0
  {
    hide PrintField, WellFormed, Stop;
    FieldsStop(fs, x);
    FieldsStop(gs, y);
    if fs == [] {
      Drop("}", x, y);
    } else {
      var u, v := PrintFields(fs[1..]), PrintFields(gs[1..]);
      assert PrintFields(fs) + x == "," + (PrintField(fs[0]) + (u + x));
      assert PrintFields(gs) + y == "," + (PrintField(gs[0]) + (v + y));
      Drop(",", PrintField(fs[0]) + (u + x), PrintField(gs[0]) + (v + y));
      FieldsStop(fs[1..], x);
      FieldsStop(gs[1..], y);
      FieldApart(fs[0], gs[0], u + x, v + y);
      FieldsApart(fs[1..], gs[1..], x, y);
      assert fs == [fs[0]] + fs[1..] && gs == [gs[0]] + gs[1..];
    }
  }

  lemma PrintInjective(a: Json, b: Json)
    requires WellFormed(a) && WellFormed(b) && Print(a) == Print(b)
    ensures a == b
  {
    assert Print(a) + "" == Print(a) && Print(b) + "" == Print(b);
    PrintApart(a, b, "", "");
  }

  // ---------------------------------------------------------------------------
  // Lists of fields without repeated keys
  // ---------------------------------------------------------------------------

  ghost predicate OneKey(fields: multiset<Field>) {
    && (forall f :: f in fields ==> fields[f] == 1)
    && (forall f, g :: f in fields && g in fields && f.key == g.key ==> f == g)
  }

  lemma {:induction false} DistinctIsOne(fields: seq<Field>)
    ensures DistinctKeys(fields) <==> OneKey(multiset(fields))
  {
    if fields != [] {
      var f, rest := fields[0], fields[1..];
      DistinctIsOne(rest);
      assert fields == [f] + rest;
      assert multiset(fields) == multiset{f} + multiset(rest);
      DistinctFirst(f, rest);
      OneFirst(f, multiset(rest));
    }
  }

  lemma DistinctFirst(f: Field, rest: seq<Field>)
    ensures DistinctKeys([f] + rest) <==> DistinctKeys(rest) && forall g :: g in rest ==> g.key != f.key
  {
    var all := [f] + rest;
    assert forall i :: 0 <= i < |rest| ==> all[i + 1] == rest[i];
    if DistinctKeys(all) {
      forall i, j | 0 <= i < j < |rest| ensures rest[i].key != rest[j].key { assert all[i + 1].key != all[j + 1].key; }
      forall g | g in rest ensures g.key != f.key {
        var j :| 0 <= j < |rest| && rest[j] == g;
        assert all[0].key != all[j + 1].key;
      }
    }
  }

  lemma OneFirst(f: Field, rest: multiset<Field>)
    ensures OneKey(multiset{f} + rest) <==> OneKey(rest) && forall g :: g in rest ==> g.key != f.key
  {
    var all := multiset{f} + rest;
    assert forall g :: g in all <==> g == f || g in rest;
    assert all[f] == rest[f] + 1;
    if OneKey(all) {
      assert f !in rest;
      forall g | g in rest ensures rest[g] == 1 && g.key != f.key { assert g in all && all[g] == rest[g]; }
    }
  }

  /** Without repeated keys, the same members make the same collection. */
  lemma SameMembers(fs: seq<Field>, gs: seq<Field>)
    requires DistinctKeys(fs) && DistinctKeys(gs) && forall f :: f in fs <==> f in gs
    ensures multiset(fs) == multiset(gs)
  {
    DistinctIsOne(fs);
    DistinctIsOne(gs);
    forall f ensures multiset(fs)[f] == multiset(gs)[f] {
      assert f in multiset(fs) <==> f in fs;
      assert f in multiset(gs) <==> f in gs;
    }
  }

  lemma {:induction false} GetAt(fields: seq<Field>, i: nat)
    requires DistinctKeys(fields) && i < |fields|
    ensures Get(fields, fields[i].key) == Some(fields[i].value)
  {
    if i > 0 {
      assert fields[0].key != fields[i].key;
      GetAt(fields[1..], i - 1);
    }
  }

  // ---------------------------------------------------------------------------
  // The normal form forgets exactly the order of keys
  // ---------------------------------------------------------------------------

  lemma KeyOrder()
    ensures WeakOrder(ByKey)
  {
    forall f: Field, g: Field | Below(f.key, g.key) ensures !Below(g.key, f.key) { OneBelow(f.key, g.key); }
    forall f: Field, g: Field, h: Field | Below(f.key, g.key) && !Below(h.key, g.key) ensures Below(f.key, h.key) {
      BelowThrough(f.key, g.key, h.key);
    }
  }

  lemma NoKeyTies(fields: seq<Field>)
    requires DistinctKeys(fields)
    ensures NoTies(multiset(fields), ByKey)
  {
    DistinctIsOne(fields);
    forall f, g | f in multiset(fields) && g in multiset(fields) && !ByKey(f, g) && !ByKey(g, f) ensures f == g {
      OneBelow(f.key, g.key);
    }
  }

  lemma ArrangedKeeps(fields: seq<Field>)
    ensures multiset(Arranged(fields)) == multiset(fields)
  {
    SortedIsPermutation(fields, ByKey);
    SortedIsPermutation(Sorted(fields, ByKey), ByIndex);
  }

  lemma ArrangedIsCanonical(fs: seq<Field>, gs: seq<Field>)
    requires DistinctKeys(fs) && multiset(fs) == multiset(gs)
    ensures Arranged(fs) == Arranged(gs)
  {
    hide WeakOrder, NoTies, DistinctKeys, ByKey, ByIndex;
    KeyOrder();
    NoKeyTies(fs);
    SortIsCanonical(fs, gs, ByKey);
  }

  lemma {:induction false} NormalizedItem(items: seq<Json>, i: nat)
    requires i < |items|
    ensures NormalizedItems(items)[i] == Normalized(items[i])
  {
    if i > 0 { NormalizedItem(items[1..], i - 1); }
  }

  lemma {:induction false} NormalizedField(fields: seq<Field>, i: nat)
    requires i < |fields|
    ensures NormalizedFields(fields)[i] == Field(fields[i].key, Normalized(fields[i].value))
  {
    if i > 0 { NormalizedField(fields[1..], i - 1); }
  }

  lemma NormalizedKeys(fields: seq<Field>)
    requires DistinctKeys(fields)
    ensures DistinctKeys(NormalizedFields(fields))
  {
    forall i, j | 0 <= i < j < |fields| ensures NormalizedFields(fields)[i].key != NormalizedFields(fields)[j].key {
      NormalizedField(fields, i);
      NormalizedField(fields, j);
    }
  }

  lemma {:induction false} NormalizedWellFormed(value: Json)
    requires WellFormed(value)
    ensures WellFormed(Normalized(value))
  {
    match value
    case Arr(items) =>
      forall i | 0 <= i < |items| ensures WellFormed(NormalizedItems(items)[i]) {
        NormalizedItem(items, i);
        NormalizedWellFormed(items[i]);
      }
    case Obj(fields) =>
      var inner := NormalizedFields(fields);
      NormalizedKeys(fields);
      ArrangedKeeps(inner);
      DistinctIsOne(inner);
      DistinctIsOne(Arranged(inner));
      forall f | f in multiset(Arranged(inner)) ensures WellFormed(f.value) {
        assert f in multiset(inner);
        var i: nat :| i < |inner| && inner[i] == f;
        NormalizedField(fields, i);
        NormalizedWellFormed(fields[i].value);
      }
      forall i | 0 <= i < |Arranged(inner)| ensures WellFormed(Arranged(inner)[i].value) {
        assert Arranged(inner)[i] in multiset(Arranged(inner));
      }
    case _ =>
  }

  /** Values that differ in nothing but the order of keys have one normal form. */
  lemma {:induction false} SameNormalized(a: Json, b: Json)
    requires WellFormed(a) && WellFormed(b) && Same(a, b)
    ensures Normalized(a) == Normalized(b)
  {
    match a
    case Arr(xs) =>
      forall i | 0 <= i < |xs| ensures NormalizedItems(xs)[i] == NormalizedItems(b.items)[i] {
        NormalizedItem(xs, i);
        NormalizedItem(b.items, i);
        SameNormalized(xs[i], b.items[i]);
      }
    case Obj(fs) =>
      var gs := b.fields;
      forall i | 0 <= i < |fs| ensures NormalizedFields(fs)[i] in NormalizedFields(gs) {
        GetIsField(gs, fs[i].key);
        var j: nat :| j < |gs| && gs[j] == Field(fs[i].key, Get(gs, fs[i].key).value);
        NormalizedField(fs, i);
        NormalizedField(gs, j);
        SameNormalized(fs[i].value, gs[j].value);
      }
      NormalizedKeys(fs);
      NormalizedKeys(gs);
      Pigeonhole(NormalizedFields(fs), NormalizedFields(gs));
      SameMembers(NormalizedFields(fs), NormalizedFields(gs));
      ArrangedIsCanonical(NormalizedFields(fs), NormalizedFields(gs));
    case _ =>
  }

  /** As many different keys, all of them there: nothing else is there. */
  lemma {:induction false} Pigeonhole(fs: seq<Field>, gs: seq<Field>)
    requires DistinctKeys(fs) && DistinctKeys(gs) && |fs| == |gs|
    requires forall i :: 0 <= i < |fs| ==> fs[i] in gs
    ensures forall f :: f in fs <==> f in gs
  {
    hide OneKey, DistinctKeys;
    DistinctIsOne(fs);
    DistinctIsOne(gs);
    var all, some := multiset(gs), multiset(fs);
    forall f | f in some ensures some[f] <= all[f] {
      var i :| 0 <= i < |fs| && fs[i] == f;
      assert f in all;
      AtMostOnce(some, f);
    }
    SameBags(some, all);
    forall f ensures f in fs <==> f in gs { assert f in some <==> f in all; }
  }

  lemma AtMostOnce(fields: multiset<Field>, f: Field)
    requires OneKey(fields) && f in fields
    ensures fields[f] == 1
  {}

  lemma SameBags<T>(some: multiset<T>, all: multiset<T>)
    requires some <= all && |some| == |all|
    ensures some == all
  {
    assert all == some + (all - some);
    assert |all - some| == 0;
  }

  /** One normal form only for values that differ in nothing but the order of keys. */
  lemma {:induction false} NormalizedSame(a: Json, b: Json)
    requires WellFormed(a) && WellFormed(b) && Normalized(a) == Normalized(b)
    ensures Same(a, b)
  {
    match a
    case Arr(xs) =>
      assert |xs| == |b.items|;
      forall i | 0 <= i < |xs| ensures Same(xs[i], b.items[i]) {
        NormalizedItem(xs, i);
        NormalizedItem(b.items, i);
        NormalizedSame(xs[i], b.items[i]);
      }
    case Obj(fs) =>
      var gs := b.fields;
      SameCollection(fs, gs);
      forall i | 0 <= i < |fs| ensures Has(gs, fs[i].key) && Same(fs[i].value, Get(gs, fs[i].key).value) {
        NormalizedField(fs, i);
        assert NormalizedFields(fs)[i] in multiset(NormalizedFields(gs));
        var j: nat :| j < |gs| && NormalizedFields(gs)[j] == NormalizedFields(fs)[i];
        NormalizedField(gs, j);
        GetAt(gs, j);
        NormalizedSame(fs[i].value, gs[j].value);
      }
    case _ =>
  }

  lemma {:induction false} SameCollection(fs: seq<Field>, gs: seq<Field>)
    requires Arranged(NormalizedFields(fs)) == Arranged(NormalizedFields(gs))
    ensures |fs| == |gs| && multiset(NormalizedFields(fs)) == multiset(NormalizedFields(gs))
  {
    ArrangedKeeps(NormalizedFields(fs));
    ArrangedKeeps(NormalizedFields(gs));
    assert |multiset(NormalizedFields(fs))| == |fs| && |multiset(NormalizedFields(gs))| == |gs|;
  }

  /** Two values print to one canonical text exactly when they are equal up to the order of keys at every depth. */
  lemma CanonicalExactly(a: Json, b: Json)
    requires WellFormed(a) && WellFormed(b)
    ensures CanonicalText(a) == CanonicalText(b) <==> Same(a, b)
  {
    NormalizedWellFormed(a);
    NormalizedWellFormed(b);
    if CanonicalText(a) == CanonicalText(b) {
      PrintInjective(Normalized(a), Normalized(b));
      NormalizedSame(a, b);
    } else if Same(a, b) {
      SameNormalized(a, b);
    }
  }

  lemma {:induction false} NormalizedTwice(value: Json)
    requires WellFormed(value)
    ensures Normalized(Normalized(value)) == Normalized(value)
  {
    match value
    case Arr(items) =>
      var inner := NormalizedItems(items);
      forall i | 0 <= i < |items| ensures NormalizedItems(inner)[i] == inner[i] {
        NormalizedItem(items, i);
        NormalizedItem(inner, i);
        NormalizedTwice(items[i]);
      }
    case Obj(fields) =>
      var inner := NormalizedFields(fields);
      var arranged := Arranged(inner);
      NormalizedKeys(fields);
      ArrangedKeeps(inner);
      forall i | 0 <= i < |arranged| ensures NormalizedFields(arranged)[i] == arranged[i] {
        NormalizedField(arranged, i);
        assert arranged[i] in multiset(inner);
        var j: nat :| j < |inner| && inner[j] == arranged[i];
        NormalizedField(fields, j);
        NormalizedTwice(fields[j].value);
      }
      assert NormalizedFields(arranged) == arranged;
      ArrangedIsCanonical(inner, arranged);
    case _ =>
  }

  // ---------------------------------------------------------------------------
  // One order of fields
  // ---------------------------------------------------------------------------

  /** Indices in numeric order, then all other keys by code units. */
  predicate Listed(f: Field, g: Field) {
    IndexBelow(f.key, g.key) || (!IsIndex(f.key) && !IsIndex(g.key) && Below(f.key, g.key))
  }

  lemma ListedOrder()
    ensures WeakOrder(Listed)
  {
    hide IsIndex;
    forall f: Field, g: Field | Listed(f, g) ensures !Listed(g, f) { OneBelow(f.key, g.key); }
    forall f: Field, g: Field, h: Field | Listed(f, g) && !Listed(h, g) ensures Listed(f, h) {
      if Below(f.key, g.key) && !Below(h.key, g.key) { BelowThrough(f.key, g.key, h.key); }
    }
  }

  lemma NoListedTies(fields: seq<Field>)
    requires DistinctKeys(fields)
    ensures NoTies(multiset(fields), Listed)
  {
    hide IsIndex;
    DistinctIsOne(fields);
    forall f, g | f in multiset(fields) && g in multiset(fields) && !Listed(f, g) && !Listed(g, f) ensures f == g {
      OneBelow(f.key, g.key);
    }
  }

  lemma {:induction false} InsertListed(f: Field, sorted: seq<Field>)
    requires InOrder(sorted, Listed) && forall g :: g in sorted ==> !Below(g.key, f.key)
    ensures InOrder(Insert(f, sorted, ByIndex), Listed)
  {
    hide IndexBelow, IsIndex, Below;
    var result := Insert(f, sorted, ByIndex);
    if sorted == [] {
      assert result[1..] == [];
    } else if !ByIndex(sorted[0], f) {
      assert result[1..] == sorted;
      assert !Listed(sorted[0], f);
      FirstIsLeast(f, sorted);
    } else {
      InsertListed(f, sorted[1..]);
      InsertKeeps(f, sorted[1..], ByIndex);
      assert result[1..] == Insert(f, sorted[1..], ByIndex);
      IndexFirst(sorted[0], f);
      forall g | g in result[1..] ensures !Listed(g, sorted[0]) { assert g in multiset(result[1..]); }
    }
  }

  lemma IndexFirst(f: Field, g: Field)
    requires ByIndex(f, g)
    ensures !Listed(g, f)
  {
    ListedOrder();
  }

  lemma FirstIsLeast(f: Field, sorted: seq<Field>)
    requires sorted != [] && InOrder(sorted, Listed) && !Listed(sorted[0], f)
    ensures forall g :: g in sorted ==> !Listed(g, f)
  {
    hide IndexBelow, IsIndex, Below, Listed;
    ListedOrder();
    assert sorted == [sorted[0]] + sorted[1..];
  }

  lemma {:induction false} SortedListed(fields: seq<Field>)
    requires InOrder(fields, ByKey)
    ensures InOrder(Sorted(fields, ByIndex), Listed)
  {
    hide Listed, ByIndex;
    if fields != [] {
      SortedListed(fields[1..]);
      SortedIsPermutation(fields[1..], ByIndex);
      forall g | g in Sorted(fields[1..], ByIndex) ensures !Below(g.key, fields[0].key) {
        assert g in multiset(Sorted(fields[1..], ByIndex));
        assert !ByKey(g, fields[0]);
      }
      InsertListed(fields[0], Sorted(fields[1..], ByIndex));
    }
  }

  /** A normalized object lists its indices in numeric order, then its other keys by code units. */
  lemma ArrangedInOrder(fields: seq<Field>)
    ensures InOrder(Arranged(fields), Listed)
  {
    KeyOrder();
    SortedInOrder(fields, ByKey);
    SortedListed(Sorted(fields, ByKey));
  }

  // ---------------------------------------------------------------------------
  // The stable configuration and the normal form
  // ---------------------------------------------------------------------------

  lemma {:induction false} StableItem(items: seq<Json>, i: nat)
    requires i < |items|
    ensures StableItems(items)[i] == StableConfiguration(items[i])
  {
    if i > 0 { StableItem(items[1..], i - 1); }
  }

  lemma {:induction false} StableMember(fields: seq<Field>, f: Field)
    ensures f in StableFields(fields) <==>
      f.key !in VOLATILE_KEYS
        && exists i :: 0 <= i < |fields| && fields[i].key == f.key && StableConfiguration(fields[i].value) == f.value
  {
    hide StableConfiguration;
    if fields != [] {
      var rest := fields[1..];
      StableMember(rest, f);
      assert forall i :: 0 <= i < |rest| ==> rest[i] == fields[i + 1];
      assert forall i :: 0 < i < |fields| ==> fields[i] == rest[i - 1];
    }
  }

  lemma {:induction false} StableOrder(fields: seq<Field>)
    requires InOrder(fields, Listed)
    ensures InOrder(StableFields(fields), Listed)
  {
    hide StableConfiguration, IndexBelow, IsIndex, Below;
    if fields != [] {
      var first, rest := fields[0], fields[1..];
      StableOrder(rest);
      if first.key !in VOLATILE_KEYS {
        assert StableFields(fields)[1..] == StableFields(rest);
        forall g | g in StableFields(rest) ensures !Listed(g, StableFields(fields)[0]) {
          StableMember(rest, g);
          var i :| 0 <= i < |rest| && rest[i].key == g.key;
          assert !Listed(rest[i], first);
        }
      } else {
        assert StableFields(fields) == StableFields(rest);
      }
    }
  }

  lemma {:induction false} StableKeys(fields: seq<Field>)
    requires DistinctKeys(fields)
    ensures DistinctKeys(StableFields(fields))
  {
    hide StableConfiguration;
    if fields != [] {
      var first, rest := fields[0], fields[1..];
      StableKeys(rest);
      if first.key !in VOLATILE_KEYS {
        var kept := Field(first.key, StableConfiguration(first.value));
        assert StableFields(fields) == [kept] + StableFields(rest);
        forall g | g in StableFields(rest) ensures g.key != first.key { StableMember(rest, g); }
        DistinctFirst(kept, StableFields(rest));
      }
    }
  }

  lemma {:induction false} StableWellFormed(value: Json)
    requires WellFormed(value)
    ensures WellFormed(StableConfiguration(value))
  {
    match value
    case Arr(items) =>
      forall i | 0 <= i < |items| ensures WellFormed(StableItems(items)[i]) {
        StableItem(items, i);
        StableWellFormed(items[i]);
      }
    case Obj(fields) =>
      StableKeys(fields);
      forall i | 0 <= i < |StableFields(fields)| ensures WellFormed(StableFields(fields)[i].value) {
        StableMember(fields, StableFields(fields)[i]);
        var j :| 0 <= j < |fields| && StableConfiguration(fields[j].value) == StableFields(fields)[i].value;
        StableWellFormed(fields[j].value);
      }
    case _ =>
  }

  /** Ignoring volatile keys and sorting keys can be done in either order. */
  lemma {:induction false} StableCommutes(value: Json)
    requires WellFormed(value)
    ensures Normalized(StableConfiguration(value)) == StableConfiguration(Normalized(value))
  {
    match value
    case Arr(items) =>
      var stable, normal := StableItems(items), NormalizedItems(items);
      forall i | 0 <= i < |items| ensures NormalizedItems(stable)[i] == StableItems(normal)[i] {
        StableItem(items, i);
        NormalizedItem(stable, i);
        NormalizedItem(items, i);
        StableItem(normal, i);
        StableCommutes(items[i]);
      }
    case Obj(fields) =>
      forall i | 0 <= i < |fields|
        ensures Normalized(StableConfiguration(fields[i].value)) == StableConfiguration(Normalized(fields[i].value))
      {
        StableCommutes(fields[i].value);
      }
      ObjectCommutes(fields);
    case _ =>
  }

  lemma {:induction false} ObjectCommutes(fields: seq<Field>)
    requires DistinctKeys(fields)
    requires forall i :: 0 <= i < |fields| ==>
      Normalized(StableConfiguration(fields[i].value)) == StableConfiguration(Normalized(fields[i].value))
    ensures Arranged(NormalizedFields(StableFields(fields))) == StableFields(Arranged(NormalizedFields(fields)))
  {
    hide Arranged, StableFields, NormalizedFields, DistinctKeys, WeakOrder, NoTies;
    var stable, normal := StableFields(fields), NormalizedFields(fields);
    var left, right := NormalizedFields(stable), StableFields(Arranged(normal));
    StableKeys(fields);
    NormalizedKeys(stable);
    NormalizedKeys(fields);
    ArrangedKeys(normal);
    StableKeys(Arranged(normal));
    forall f ensures f in left <==> f in right { CommutesAt(fields, f); }
    SameMembers(left, right);
    ArrangedInOrder(left);
    ArrangedInOrder(normal);
    StableOrder(Arranged(normal));
    ArrangedKeeps(left);
    NoListedTies(left);
    OneOrder(Arranged(left), right, Listed);
  }

  lemma ArrangedKeys(fields: seq<Field>)
    requires DistinctKeys(fields)
    ensures DistinctKeys(Arranged(fields))
  {
    ArrangedKeeps(fields);
    DistinctIsOne(fields);
    DistinctIsOne(Arranged(fields));
  }

  lemma NormalizedMember(fields: seq<Field>, f: Field)
    ensures f in NormalizedFields(fields) <==>
      exists i :: 0 <= i < |fields| && fields[i].key == f.key && Normalized(fields[i].value) == f.value
  {
    hide Normalized, NormalizedFields;
    forall i: nat | i < |fields|
      ensures NormalizedFields(fields)[i] == Field(fields[i].key, Normalized(fields[i].value))
    {
      NormalizedField(fields, i);
    }
  }

  ghost predicate StableOf(g: Field, f: Field) {
    g.key == f.key && StableConfiguration(g.value) == f.value
  }

  ghost predicate NormalOf(g: Field, f: Field) {
    g.key == f.key && Normalized(g.value) == f.value
  }

  lemma StableThere(fields: seq<Field>, f: Field)
    ensures f in StableFields(fields) <==> f.key !in VOLATILE_KEYS && exists g :: g in fields && StableOf(g, f)
  {
    hide StableConfiguration, StableFields;
    StableMember(fields, f);
    forall i | 0 <= i < |fields| && fields[i].key == f.key && StableConfiguration(fields[i].value) == f.value
      ensures StableOf(fields[i], f) && fields[i] in fields {}
  }

  lemma NormalThere(fields: seq<Field>, f: Field)
    ensures f in NormalizedFields(fields) <==> exists g :: g in fields && NormalOf(g, f)
  {
    hide Normalized, NormalizedFields;
    NormalizedMember(fields, f);
    forall i | 0 <= i < |fields| && fields[i].key == f.key && Normalized(fields[i].value) == f.value
      ensures NormalOf(fields[i], f) && fields[i] in fields {}
  }

  lemma {:induction false} CommutesAt(fields: seq<Field>, f: Field)
    requires forall i :: 0 <= i < |fields| ==>
      Normalized(StableConfiguration(fields[i].value)) == StableConfiguration(Normalized(fields[i].value))
    ensures f in NormalizedFields(StableFields(fields)) <==> f in StableFields(Arranged(NormalizedFields(fields)))
  {
    hide Arranged, StableFields, NormalizedFields, Normalized, StableConfiguration;
    if f in NormalizedFields(StableFields(fields)) { CommutesForth(fields, f); }
    if f in StableFields(Arranged(NormalizedFields(fields))) { CommutesBack(fields, f); }
  }

  lemma {:induction false} CommutesForth(fields: seq<Field>, f: Field)
    requires forall i :: 0 <= i < |fields| ==>
      Normalized(StableConfiguration(fields[i].value)) == StableConfiguration(Normalized(fields[i].value))
    requires f in NormalizedFields(StableFields(fields))
    ensures f in StableFields(Arranged(NormalizedFields(fields)))
  {
    hide Arranged, StableFields, NormalizedFields, StableOf, NormalOf, Normalized, StableConfiguration;
    NormalThere(StableFields(fields), f);
    var g :| g in StableFields(fields) && NormalOf(g, f);
    var n := StableThenNormal(fields, g, f);
    ArrangedMembers(NormalizedFields(fields));
    StableThere(Arranged(NormalizedFields(fields)), f);
  }

  lemma {:induction false} CommutesBack(fields: seq<Field>, f: Field)
    requires forall i :: 0 <= i < |fields| ==>
      Normalized(StableConfiguration(fields[i].value)) == StableConfiguration(Normalized(fields[i].value))
    requires f in StableFields(Arranged(NormalizedFields(fields)))
    ensures f in NormalizedFields(StableFields(fields))
  {
    hide Arranged, StableFields, NormalizedFields, StableOf, NormalOf, Normalized, StableConfiguration;
    StableThere(Arranged(NormalizedFields(fields)), f);
    var g :| g in Arranged(NormalizedFields(fields)) && StableOf(g, f);
    ArrangedMembers(NormalizedFields(fields));
    var n := NormalThenStable(fields, g, f);
    NormalThere(StableFields(fields), f);
  }

  lemma ArrangedMembers(fields: seq<Field>)
    ensures forall f :: f in Arranged(fields) <==> f in fields
  {
    ArrangedKeeps(fields);
    forall f ensures f in Arranged(fields) <==> f in fields {
      assert f in multiset(Arranged(fields)) <==> f in multiset(fields);
    }
  }

  lemma {:induction false} StableThenNormal(fields: seq<Field>, g: Field, f: Field) returns (n: Field)
    requires forall i :: 0 <= i < |fields| ==>
      Normalized(StableConfiguration(fields[i].value)) == StableConfiguration(Normalized(fields[i].value))
    requires g in StableFields(fields) && NormalOf(g, f)
    ensures n in NormalizedFields(fields) && StableOf(n, f) && f.key !in VOLATILE_KEYS
  {
    hide StableFields, NormalizedFields, Normalized, StableConfiguration;
    StableThere(fields, g);
    var h :| h in fields && StableOf(h, g);
    var i :| 0 <= i < |fields| && fields[i] == h;
    n := Field(h.key, Normalized(h.value));
    assert NormalOf(h, n);
    NormalThere(fields, n);
  }

  lemma {:induction false} NormalThenStable(fields: seq<Field>, g: Field, f: Field) returns (n: Field)
    requires forall i :: 0 <= i < |fields| ==>
      Normalized(StableConfiguration(fields[i].value)) == StableConfiguration(Normalized(fields[i].value))
    requires g in NormalizedFields(fields) && StableOf(g, f) && f.key !in VOLATILE_KEYS
    ensures n in StableFields(fields) && NormalOf(n, f)
  {
    hide StableFields, NormalizedFields, Normalized, StableConfiguration;
    NormalThere(fields, g);
    var h :| h in fields && NormalOf(h, g);
    var i :| 0 <= i < |fields| && fields[i] == h;
    n := Field(h.key, StableConfiguration(h.value));
    assert StableOf(h, n);
    StableThere(fields, n);
  }

  // ---------------------------------------------------------------------------
  // The change hash
  // ---------------------------------------------------------------------------

  lemma {:induction false} GetStable(fields: seq<Field>, key: string)
    ensures Get(StableFields(fields), key)
      == if key in VOLATILE_KEYS || !Has(fields, key) then None else Some(StableConfiguration(Get(fields, key).value))
  {
    hide StableConfiguration;
    if fields != [] {
      GetStable(fields[1..], key);
      if fields[0].key !in VOLATILE_KEYS {
        assert StableFields(fields)[1..] == StableFields(fields[1..]);
      } else {
        assert StableFields(fields) == StableFields(fields[1..]);
      }
    }
  }

  function Bare(fields: seq<Field>): seq<Field> {
    seq(|fields|, i requires 0 <= i < |fields| => Field(fields[i].key, Null))
  }

  lemma BareHas(fields: seq<Field>, key: string)
    ensures Has(fields, key) <==> Field(key, Null) in Bare(fields)
  {
    GetIsField(fields, key);
    if Has(fields, key) {
      var i :| 0 <= i < |fields| && fields[i] == Field(key, Get(fields, key).value);
      assert Bare(fields)[i] == Field(key, Null);
    }
  }

  lemma BareKeys(fields: seq<Field>)
    requires DistinctKeys(fields)
    ensures DistinctKeys(Bare(fields)) && forall f :: f in Bare(fields) ==> f == Field(f.key, Null)
  {}

  /** As many different keys on both sides: inclusion goes both ways. */
  lemma KeysEqual(fs: seq<Field>, gs: seq<Field>)
    requires DistinctKeys(fs) && DistinctKeys(gs)
    ensures (|fs| == |gs| && forall i :: 0 <= i < |fs| ==> Has(gs, fs[i].key))
      <==> (forall i :: 0 <= i < |fs| ==> Has(gs, fs[i].key)) && (forall j :: 0 <= j < |gs| ==> Has(fs, gs[j].key))
  {
    hide Get;
    BareKeys(fs);
    BareKeys(gs);
    if forall i :: 0 <= i < |fs| ==> Has(gs, fs[i].key) {
      forall i | 0 <= i < |fs| ensures Bare(fs)[i] in Bare(gs) { BareHas(gs, fs[i].key); }
      if |fs| == |gs| {
        Pigeonhole(Bare(fs), Bare(gs));
        forall j | 0 <= j < |gs| ensures Has(fs, gs[j].key) {
          assert Bare(gs)[j] in Bare(fs);
          BareHas(fs, gs[j].key);
        }
      }
      if forall j :: 0 <= j < |gs| ==> Has(fs, gs[j].key) {
        forall j | 0 <= j < |gs| ensures Bare(gs)[j] in Bare(fs) { BareHas(fs, gs[j].key); }
        SameMembers(Bare(fs), Bare(gs));
        assert |fs| == |multiset(Bare(fs))| == |multiset(Bare(gs))| == |gs|;
      }
    }
  }

  ghost predicate SameAt(fs: seq<Field>, gs: seq<Field>, key: string) {
    && (Has(fs, key) <==> Has(gs, key))
    && (Has(fs, key) ==> Same(Get(fs, key).value, Get(gs, key).value))
  }

  ghost predicate ConfigurationAt(fs: seq<Field>, gs: seq<Field>, key: string) {
    || key in VOLATILE_KEYS
    || ((Has(fs, key) <==> Has(gs, key))
        && (Has(fs, key) ==> SameConfiguration(Get(fs, key).value, Get(gs, key).value)))
  }

  lemma KeyIsAt(fields: seq<Field>, key: string) returns (i: nat)
    requires Has(fields, key)
    ensures i < |fields| && fields[i] == Field(key, Get(fields, key).value)
  {
    GetIsField(fields, key);
    i :| i < |fields| && fields[i] == Field(key, Get(fields, key).value);
  }

  lemma SameByKeys(fs: seq<Field>, gs: seq<Field>)
    requires DistinctKeys(fs) && DistinctKeys(gs)
    ensures Same(Obj(fs), Obj(gs)) <==> forall key :: SameAt(fs, gs, key)
  {
    hide Get, DistinctKeys;
    KeysEqual(fs, gs);
    if Same(Obj(fs), Obj(gs)) {
      forall key ensures SameAt(fs, gs, key) {
        if Has(fs, key) { var i := KeyIsAt(fs, key); }
        if Has(gs, key) { var j := KeyIsAt(gs, key); }
      }
    }
    if forall key :: SameAt(fs, gs, key) {
      forall i: nat | i < |fs| ensures Has(gs, fs[i].key) && Same(fs[i].value, Get(gs, fs[i].key).value) {
        GetAt(fs, i);
        assert SameAt(fs, gs, fs[i].key);
      }
      forall j: nat | j < |gs| ensures Has(fs, gs[j].key) {
        GetAt(gs, j);
        assert SameAt(fs, gs, gs[j].key);
      }
    }
  }

  lemma ConfigurationByKeys(fs: seq<Field>, gs: seq<Field>)
    requires DistinctKeys(fs) && DistinctKeys(gs)
    ensures SameConfiguration(Obj(fs), Obj(gs)) <==> forall key :: ConfigurationAt(fs, gs, key)
  {
    hide Get, DistinctKeys;
    if SameConfiguration(Obj(fs), Obj(gs)) {
      forall key ensures ConfigurationAt(fs, gs, key) {
        if Has(fs, key) { var i := KeyIsAt(fs, key); }
        if Has(gs, key) { var j := KeyIsAt(gs, key); }
      }
    }
    if forall key :: ConfigurationAt(fs, gs, key) {
      forall i: nat | i < |fs| && fs[i].key !in VOLATILE_KEYS
        ensures Has(gs, fs[i].key) && SameConfiguration(fs[i].value, Get(gs, fs[i].key).value)
      {
        GetAt(fs, i);
        assert ConfigurationAt(fs, gs, fs[i].key);
      }
      forall j: nat | j < |gs| && gs[j].key !in VOLATILE_KEYS ensures Has(fs, gs[j].key) {
        GetAt(gs, j);
        assert ConfigurationAt(fs, gs, gs[j].key);
      }
    }
  }

  lemma {:induction false} StableSame(a: Json, b: Json)
    requires WellFormed(a) && WellFormed(b)
    ensures Same(StableConfiguration(a), StableConfiguration(b)) <==> SameConfiguration(a, b)
    decreases a, 1
  {
    match (a, b)
    case (Arr(xs), Arr(ys)) =>
      if |xs| == |ys| {
        forall i: nat | i < |xs|
          ensures Same(StableItems(xs)[i], StableItems(ys)[i]) <==> SameConfiguration(xs[i], ys[i])
        {
          StableItem(xs, i);
          StableItem(ys, i);
          StableSame(xs[i], ys[i]);
        }
      }
    case (Obj(fs), Obj(gs)) =>
      ObjectsSame(fs, gs);
    case _ =>
  }

  lemma {:induction false} ObjectsSame(fs: seq<Field>, gs: seq<Field>)
    requires WellFormed(Obj(fs)) && WellFormed(Obj(gs))
    ensures Same(Obj(StableFields(fs)), Obj(StableFields(gs))) <==> SameConfiguration(Obj(fs), Obj(gs))
    decreases Obj(fs), 0
  {
    hide DistinctKeys, Get, Same, SameConfiguration, StableFields;
    StableKeys(fs);
    StableKeys(gs);
    SameByKeys(StableFields(fs), StableFields(gs));
    ConfigurationByKeys(fs, gs);
    forall key ensures SameAt(StableFields(fs), StableFields(gs), key) <==> ConfigurationAt(fs, gs, key) {
      GetStable(fs, key);
      GetStable(gs, key);
      if Has(fs, key) && Has(gs, key) {
        var i := KeyIsAt(fs, key);
        var j := KeyIsAt(gs, key);
        StableSame(fs[i].value, gs[j].value);
      }
    }
  }

  /** What the change hash is taken of. */
  function ChangeSubject(data: Json, resources: Json, required: Json): Json {
    Obj([Field("data", StableConfiguration(data)), Field("resources", resources),
         Field("required_integrations", required)])
  }

  /** The change hash is taken of one text exactly when the resources and integrations are the same and the
      data differ in nothing but the order of keys and whatever stands under volatile keys. */
  lemma {:induction false} ChangeHashSubject(data: Json, resources: Json, required: Json, data': Json, resources': Json,
                                             required': Json)
    requires WellFormed(data) && WellFormed(resources) && WellFormed(required)
    requires WellFormed(data') && WellFormed(resources') && WellFormed(required')
    ensures CanonicalText(ChangeSubject(data, resources, required))
      == CanonicalText(ChangeSubject(data', resources', required'))
      <==> SameConfiguration(data, data') && Same(resources, resources') && Same(required, required')
  {
    hide CanonicalText, StableConfiguration, SameConfiguration, Same, WellFormed;
    SubjectWellFormed(data, resources, required);
    SubjectWellFormed(data', resources', required');
    StableSame(data, data');
    SubjectsSame(StableConfiguration(data), resources, required, StableConfiguration(data'), resources', required');
    CanonicalExactly(ChangeSubject(data, resources, required), ChangeSubject(data', resources', required'));
  }

  lemma SubjectWellFormed(data: Json, resources: Json, required: Json)
    requires WellFormed(data) && WellFormed(resources) && WellFormed(required)
    ensures WellFormed(ChangeSubject(data, resources, required))
  {
    hide StableConfiguration;
    StableWellFormed(data);
  }

  lemma {:induction false} SubjectsSame(a: Json, b: Json, c: Json, a': Json, b': Json, c': Json)
    ensures var keys := ["data", "resources", "required_integrations"];
      Same(Obj([Field(keys[0], a), Field(keys[1], b), Field(keys[2], c)]),
           Obj([Field(keys[0], a'), Field(keys[1], b'), Field(keys[2], c')]))
      <==> Same(a, a') && Same(b, b') && Same(c, c')
  {
    var fs := [Field("data", a), Field("resources", b), Field("required_integrations", c)];
    var gs := [Field("data", a'), Field("resources", b'), Field("required_integrations", c')];
    hide Get, Same;
    ThreeFields(a', b', c');
    SameFields(fs, gs);
    assert fs[0].value == a && fs[1].value == b && fs[2].value == c;
    assert gs[0].value == a' && gs[1].value == b' && gs[2].value == c';
  }

  lemma SameFields(fs: seq<Field>, gs: seq<Field>)
    requires |fs| == |gs| && forall i :: 0 <= i < |fs| ==> Get(gs, fs[i].key) == Some(gs[i].value)
    ensures Same(Obj(fs), Obj(gs)) <==> forall i :: 0 <= i < |fs| ==> Same(fs[i].value, gs[i].value)
  {}

  lemma GetNext(f: Field, rest: seq<Field>, key: string)
    ensures Get([f] + rest, key) == if f.key == key then Some(f.value) else Get(rest, key)
  {
    assert ([f] + rest)[1..] == rest;
  }

  lemma ThreeFields(a: Json, b: Json, c: Json)
    ensures var fields := [Field("data", a), Field("resources", b), Field("required_integrations", c)];
      Get(fields, "data") == Some(a) && Get(fields, "resources") == Some(b)
        && Get(fields, "required_integrations") == Some(c)
  {
    hide Get;
    var d, r, q := Field("data", a), Field("resources", b), Field("required_integrations", c);
    assert |"data"| == 4 && |"resources"| == 9 && |"required_integrations"| == 21;
    assert [d, r, q] == [d] + [r, q] && [r, q] == [r] + [q] && [q] == [q] + [];
    GetNext(d, [r, q], "data");
    GetNext(d, [r, q], "resources");
    GetNext(r, [q], "resources");
    GetNext(d, [r, q], "required_integrations");
    GetNext(r, [q], "required_integrations");
    GetNext(q, [], "required_integrations");
  }
}
