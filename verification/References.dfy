/** Rewriting of a Primary's identifiers into the Satellite's, and what is dropped on the way. */
module References {
  import opened Options
  import opened Json

  type Mapping = map<string, string>

  const REFERENCE_KEYS: set<string> := {"entity_id", "activity_id", "macro_id", "remote_id"}
  const SEQUENCE_KEYS: set<string> := {"on_sequence", "off_sequence", "sequence", "items"}
  const MAIN: string := ".main."

  predicate IdChar(c: char) {
    'A' <= c <= 'Z' || 'a' <= c <= 'z' || '0' <= c <= '9' || c == '_' || c == ':' || c == '-'
  }

  /** An integration name, then ".main.", at the start of the text. */
  predicate IsFullEntityId(text: string) {
    text != [] && IdChar(text[0]) && (MAIN <= text[1..] || IsFullEntityId(text[1..]))
  }

  /** A truthy entry of the mapping object. */
  predicate Mapped(m: Mapping, text: string) {
    text in m && m[text] != ""
  }

  predicate Supported(m: Mapping, text: string) {
    Mapped(m, text) || text in m.Values || !IsFullEntityId(text)
  }

  predicate EmptyObject(value: Json) {
    value == Obj([])
  }

  /** The object names an entity the Satellite does not have. */
  predicate NamesUnsupported(fields: seq<Field>, m: Mapping) {
    match Get(fields, "entity_id")
    case Some(Str(text)) => !Supported(m, text)
    case _ => false
  }

  predicate LostWrapper(before: seq<Field>, after: seq<Field>, wrapper: string) {
    Has(before, wrapper) && (!Has(after, wrapper) || EmptyObject(Get(after, wrapper).value))
  }

  /** One value under one key; `None` is JavaScript's undefined. The key of the top-level value is "". */
  function Rewrite(item: Json, key: string, m: Mapping): Option<Json>
    decreases item, 1
  {
    match item
    case Str(text) =>
      if key in REFERENCE_KEYS && Mapped(m, text) then Some(Str(m[text]))
      else if key in REFERENCE_KEYS && text in m.Values then Some(item)
      else if key in REFERENCE_KEYS && IsFullEntityId(text) then None
      else Some(Str(if text in m then m[text] else text))
    case Arr(items) => Some(Arr(RewriteItems(items, key, m)))
    case Obj(fields) =>
      if NamesUnsupported(fields, m) then None
      else
        var output := RewriteFields(fields, m);
        if LostWrapper(fields, output, "command") || LostWrapper(fields, output, "entity") then None
        else if key in SEQUENCE_KEYS && output == [] then None
        else Some(Obj(output))
    case _ => Some(item)
  }

  predicate Kept(entry: Option<Json>, key: string) {
    entry.Some? && !(EmptyObject(entry.value) && key in SEQUENCE_KEYS)
  }

  function RewriteItems(items: seq<Json>, key: string, m: Mapping): seq<Json>
    decreases items, 0
  {
    if items == [] then []
    else
      var entry := Rewrite(items[0], key, m);
      (if Kept(entry, key) then [entry.value] else []) + RewriteItems(items[1..], key, m)
  }

  function RewriteFields(fields: seq<Field>, m: Mapping): seq<Field>
    decreases fields, 0
  {
    if fields == [] then []
    else
      var entry := Rewrite(fields[0].value, fields[0].key, m);
      (if entry.Some? then [Field(fields[0].key, entry.value)] else []) + RewriteFields(fields[1..], m)
  }

  /** The ids reported as removed. */
  function Dropped(item: Json, key: string, m: Mapping): set<string>
    decreases item, 1
  {
    match item
    case Str(text) => if key in REFERENCE_KEYS && !Supported(m, text) then {text} else {}
    case Arr(items) => DroppedItems(items, key, m)
    case Obj(fields) =>
      if NamesUnsupported(fields, m) then {Get(fields, "entity_id").value.text} else DroppedFields(fields, m)
    case _ => {}
  }

  function DroppedItems(items: seq<Json>, key: string, m: Mapping): set<string>
    decreases items, 0
  {
    if items == [] then {} else Dropped(items[0], key, m) + DroppedItems(items[1..], key, m)
  }

  function DroppedFields(fields: seq<Field>, m: Mapping): set<string>
    decreases fields, 0
  {
    if fields == [] then {} else Dropped(fields[0].value, fields[0].key, m) + DroppedFields(fields[1..], m)
  }

  /** The whole operation: an undefined or null result becomes an empty object. */
  function RewriteConfiguredReferences(value: Json, m: Mapping): Json {
    match Rewrite(value, "", m)
    case Some(result) => if result == Null then Obj([]) else result
    case None => if value.Arr? then Arr([]) else Obj([])
  }

  // ---------------------------------------------------------------------------
  // Soundness
  // ---------------------------------------------------------------------------

  predicate ReferenceKey(key: string) {
    key == "entity_id" || key == "activity_id" || key == "macro_id" || key == "remote_id"
  }

  predicate SequenceKey(key: string) {
    key == "on_sequence" || key == "off_sequence" || key == "sequence" || key == "items"
  }

  lemma KeysOfBothKinds(key: string)
    ensures key in REFERENCE_KEYS <==> ReferenceKey(key)
    ensures key in SEQUENCE_KEYS <==> SequenceKey(key)
  {}

  predicate Permitted(c: char) {
    'A' <= c <= 'Z' || 'a' <= c <= 'z' || '0' <= c <= '9' || c == '_' || c == ':' || c == '-'
  }

  lemma PermittedIsIdChar(c: char)
    ensures Permitted(c) <==> IdChar(c)
  {}

  /** The first `n` characters are letters, digits, underscores, colons and dashes, and then comes ".main.". */
  ghost predicate FullAt(text: string, n: nat) {
    && 1 <= n && n + 6 <= |text| && text[n..n + 6] == ".main."
    && forall j :: 0 <= j < n ==> Permitted(text[j])
  }

  lemma FullLater(text: string, n: nat)
    requires text != [] && Permitted(text[0]) && n >= 1
    ensures FullAt(text[1..], n) <==> FullAt(text, n + 1)
  {
    var rest := text[1..];
    if n + 7 <= |text| {
      assert rest[n..n + 6] == text[n + 1..n + 7];
      assert forall j :: 0 <= j < n ==> rest[j] == text[j + 1];
      assert forall j :: 0 < j < n + 1 ==> text[j] == rest[j - 1];
    }
  }

  lemma FullNow(text: string)
    requires text != [] && Permitted(text[0])
    ensures FullAt(text, 1) <==> MAIN <= text[1..]
  {
    if |text| >= 7 { assert text[1..7] == text[1..][..6]; }
  }

  /** Which texts pass for full ids. */
  lemma {:induction false} FullEntityIds(text: string)
    ensures IsFullEntityId(text) <==> exists n: nat :: FullAt(text, n)
  {
    hide Permitted, IdChar, FullAt;
    if text == [] {
      NoneFull(text);
    } else {
      PermittedIsIdChar(text[0]);
      if IdChar(text[0]) {
        FullEntityIds(text[1..]);
        FullNow(text);
        if n: nat :| FullAt(text[1..], n) {
          FullSize(text[1..], n);
          FullLater(text, n);
        }
        if n: nat :| FullAt(text, n) {
          FullSize(text, n);
          if n > 1 { FullLater(text, n - 1); }
        }
      } else {
        NoneFull(text);
      }
    }
  }

  lemma FullSize(text: string, n: nat)
    requires FullAt(text, n)
    ensures n >= 1
  {}

  lemma NoneFull(text: string)
    requires text == [] || !Permitted(text[0])
    ensures forall n: nat :: !FullAt(text, n)
  {}

  /** At every depth: a text under a reference key is a mapping target or no full entity id, no wrapper holds
      an empty object, no sequence holds one either. */
  predicate Clean(item: Json, key: string, m: Mapping)
    decreases item, 1
  {
    match item
    case Str(text) => ReferenceKey(key) ==> text in m.Values || !IsFullEntityId(text)
    case Arr(items) => CleanItems(items, key, m)
    case Obj(fields) => CleanFields(fields, m) && FilledWrapper(fields, "command") && FilledWrapper(fields, "entity")
    case _ => true
  }

  predicate FilledWrapper(fields: seq<Field>, wrapper: string) {
    Has(fields, wrapper) ==> !EmptyObject(Get(fields, wrapper).value)
  }

  predicate CleanItems(items: seq<Json>, key: string, m: Mapping)
    decreases items, 0
  {
    items == [] ||
      (Clean(items[0], key, m) && !(SequenceKey(key) && EmptyObject(items[0])) && CleanItems(items[1..], key, m))
  }

  predicate CleanFields(fields: seq<Field>, m: Mapping)
    decreases fields, 0
  {
    fields == [] ||
      (Clean(fields[0].value, fields[0].key, m) && CleanFields(fields[1..], m))
  }

  lemma {:induction false} CleanGet(fields: seq<Field>, key: string, m: Mapping)
    requires CleanFields(fields, m) && Has(fields, key)
    ensures Clean(Get(fields, key).value, key, m)
    decreases fields
  {
    if fields[0].key != key { CleanGet(fields[1..], key, m); }
  }

  /** The result of a rewrite is clean, whatever went in. */
  lemma {:induction false} RewriteIsClean(item: Json, key: string, m: Mapping)
    requires Rewrite(item, key, m).Some?
    ensures Clean(Rewrite(item, key, m).value, key, m)
    decreases item, 1
  {
    match item
    case Str(text) => if text in m { assert m[text] in m.Values; }
    case Arr(items) => ItemsAreClean(items, key, m);
    case Obj(fields) =>
      FieldsAreClean(fields, m);
      NoNewKeys(fields, m, "command");
      NoNewKeys(fields, m, "entity");
    case _ =>
  }

  lemma {:induction false} NoNewKeys(fields: seq<Field>, m: Mapping, key: string)
    ensures Has(RewriteFields(fields, m), key) ==> Has(fields, key)
  {
    if fields != [] {
      NoNewKeys(fields[1..], m, key);
      var entry, rest := Rewrite(fields[0].value, fields[0].key, m), RewriteFields(fields[1..], m);
      if entry.Some? {
        assert ([Field(fields[0].key, entry.value)] + rest)[1..] == rest;
      } else {
        assert [] + rest == rest;
      }
    }
  }

  lemma {:induction false} ItemsAreClean(items: seq<Json>, key: string, m: Mapping)
    ensures CleanItems(RewriteItems(items, key, m), key, m)
    decreases items, 0
  {
    if items != [] {
      ItemsAreClean(items[1..], key, m);
      var entry, rest := Rewrite(items[0], key, m), RewriteItems(items[1..], key, m);
      if Kept(entry, key) {
        RewriteIsClean(items[0], key, m);
        assert ([entry.value] + rest)[1..] == rest;
      } else {
        assert [] + rest == rest;
      }
    }
  }

  lemma {:induction false} FieldsAreClean(fields: seq<Field>, m: Mapping)
    ensures CleanFields(RewriteFields(fields, m), m)
    decreases fields, 0
  {
    if fields != [] {
      FieldsAreClean(fields[1..], m);
      var entry, rest := Rewrite(fields[0].value, fields[0].key, m), RewriteFields(fields[1..], m);
      if entry.Some? {
        RewriteIsClean(fields[0].value, fields[0].key, m);
        assert ([Field(fields[0].key, entry.value)] + rest)[1..] == rest;
      } else {
        assert [] + rest == rest;
      }
    }
  }

  /** An object that had a `command` or `entity` comes out with it, and not empty, or not at all. */
  lemma WrappersSurvive(fields: seq<Field>, key: string, m: Mapping, wrapper: string)
    requires wrapper in {"command", "entity"} && Has(fields, wrapper)
    requires Rewrite(Obj(fields), key, m).Some?
    ensures var output := Rewrite(Obj(fields), key, m).value;
      output.Obj? && Has(output.fields, wrapper) && !EmptyObject(Get(output.fields, wrapper).value)
  {}

  // ---------------------------------------------------------------------------
  // What is reported
  // ---------------------------------------------------------------------------

  /** Every text under a reference key, at any depth, that the Satellite cannot resolve. */
  function Unresolvable(item: Json, key: string, m: Mapping): set<string>
    decreases item, 1
  {
    match item
    case Str(text) => if ReferenceKey(key) && !Supported(m, text) then {text} else {}
    case Arr(items) => UnresolvableItems(items, key, m)
    case Obj(fields) => UnresolvableFields(fields, m)
    case _ => {}
  }

  function UnresolvableItems(items: seq<Json>, key: string, m: Mapping): set<string>
    decreases items, 0
  {
    if items == [] then {} else Unresolvable(items[0], key, m) + UnresolvableItems(items[1..], key, m)
  }

  function UnresolvableFields(fields: seq<Field>, m: Mapping): set<string>
    decreases fields, 0
  {
    if fields == [] then {} else Unresolvable(fields[0].value, fields[0].key, m) + UnresolvableFields(fields[1..], m)
  }

  /** Every unresolvable text is reported or lies in an object whose own entity id is reported. */
  predicate Reported(item: Json, key: string, m: Mapping, report: set<string>)
    decreases item, 1
  {
    match item
    case Str(text) => ReferenceKey(key) && !Supported(m, text) ==> text in report
    case Arr(items) => ReportedItems(items, key, m, report)
    case Obj(fields) =>
      || (NamesUnsupported(fields, m) && Get(fields, "entity_id").value.text in report)
      || ReportedFields(fields, m, report)
    case _ => true
  }

  predicate ReportedItems(items: seq<Json>, key: string, m: Mapping, report: set<string>)
    decreases items, 0
  {
    items == [] || (Reported(items[0], key, m, report) && ReportedItems(items[1..], key, m, report))
  }

  predicate ReportedFields(fields: seq<Field>, m: Mapping, report: set<string>)
    decreases fields, 0
  {
    fields == [] || (Reported(fields[0].value, fields[0].key, m, report) && ReportedFields(fields[1..], m, report))
  }

  /** The report names only unresolvable ids, it accounts for every one of them, and it is empty exactly when
      there is none anywhere in the value. */
  lemma {:induction false} ReportIsExact(item: Json, key: string, m: Mapping, report: set<string>)
    requires Dropped(item, key, m) <= report
    ensures Dropped(item, key, m) <= Unresolvable(item, key, m)
    ensures Reported(item, key, m, report)
    ensures Dropped(item, key, m) == {} <==> Unresolvable(item, key, m) == {}
    decreases item, 1
  {
    match item
    case Arr(items) => ItemsReportIsExact(items, key, m, report);
    case Obj(fields) =>
      if NamesUnsupported(fields, m) {
        UnresolvableGet(fields, m);
      } else {
        FieldsReportIsExact(fields, m, report);
      }
    case _ =>
  }

  lemma {:induction false} ItemsReportIsExact(items: seq<Json>, key: string, m: Mapping, report: set<string>)
    requires DroppedItems(items, key, m) <= report
    ensures DroppedItems(items, key, m) <= UnresolvableItems(items, key, m)
    ensures ReportedItems(items, key, m, report)
    ensures DroppedItems(items, key, m) == {} <==> UnresolvableItems(items, key, m) == {}
    decreases items, 0
  {
    if items != [] {
      ReportIsExact(items[0], key, m, report);
      ItemsReportIsExact(items[1..], key, m, report);
    }
  }

  lemma {:induction false} FieldsReportIsExact(fields: seq<Field>, m: Mapping, report: set<string>)
    requires DroppedFields(fields, m) <= report
    ensures DroppedFields(fields, m) <= UnresolvableFields(fields, m)
    ensures ReportedFields(fields, m, report)
    ensures DroppedFields(fields, m) == {} <==> UnresolvableFields(fields, m) == {}
    decreases fields, 0
  {
    if fields != [] {
      ReportIsExact(fields[0].value, fields[0].key, m, report);
      FieldsReportIsExact(fields[1..], m, report);
    }
  }

  lemma {:induction false} UnresolvableGet(fields: seq<Field>, m: Mapping)
    requires NamesUnsupported(fields, m)
    ensures Get(fields, "entity_id").value.text in UnresolvableFields(fields, m)
  {
    if fields[0].key != "entity_id" { UnresolvableGet(fields[1..], m); }
  }

  // ---------------------------------------------------------------------------
  // Idempotence
  // ---------------------------------------------------------------------------

  /** Every target maps to itself or is not mapped. */
  predicate Closed(m: Mapping) {
    forall v :: v in m.Values && v in m ==> m[v] == v
  }

  lemma {:induction false} RewriteTwice(item: Json, key: string, m: Mapping)
    requires Closed(m) && Rewrite(item, key, m).Some?
    ensures var output := Rewrite(item, key, m).value;
      Rewrite(output, key, m) == Some(output) && Dropped(output, key, m) == {}
    decreases item, 1
  {
    match item
    case Str(text) => if text in m { assert m[text] in m.Values; }
    case Arr(items) => ItemsTwice(items, key, m);
    case Obj(fields) =>
      FieldsTwice(fields, m);
      RewriteIsClean(item, key, m);
      var output := RewriteFields(fields, m);
      if Has(output, "entity_id") { CleanGet(output, "entity_id", m); }
    case _ =>
  }

  lemma {:induction false} ItemsTwice(items: seq<Json>, key: string, m: Mapping)
    requires Closed(m)
    ensures var output := RewriteItems(items, key, m);
      RewriteItems(output, key, m) == output && DroppedItems(output, key, m) == {}
    decreases items, 0
  {
    if items != [] {
      ItemsTwice(items[1..], key, m);
      var entry, rest := Rewrite(items[0], key, m), RewriteItems(items[1..], key, m);
      if Kept(entry, key) {
        RewriteTwice(items[0], key, m);
        assert ([entry.value] + rest)[1..] == rest;
      } else {
        assert [] + rest == rest;
      }
    }
  }

  lemma {:induction false} FieldsTwice(fields: seq<Field>, m: Mapping)
    requires Closed(m)
    ensures var output := RewriteFields(fields, m);
      RewriteFields(output, m) == output && DroppedFields(output, m) == {}
    decreases fields, 0
  {
    if fields != [] {
      FieldsTwice(fields[1..], m);
      var entry, rest := Rewrite(fields[0].value, fields[0].key, m), RewriteFields(fields[1..], m);
      if entry.Some? {
        RewriteTwice(fields[0].value, fields[0].key, m);
        assert ([Field(fields[0].key, entry.value)] + rest)[1..] == rest;
      } else {
        assert [] + rest == rest;
      }
    }
  }

  ghost predicate Idempotent(value: Json, m: Mapping) {
    RewriteConfiguredReferences(RewriteConfiguredReferences(value, m), m) == RewriteConfiguredReferences(value, m)
  }

  /** Rewriting twice is rewriting once, on every value, exactly when every target maps to itself or is not
      mapped. */
  lemma IdempotentExactlyWhenClosed(m: Mapping)
    ensures Closed(m) <==> forall value: Json :: Idempotent(value, m)
  {
    if Closed(m) {
      forall value: Json ensures Idempotent(value, m) {
        if Rewrite(value, "", m).Some? { RewriteTwice(value, "", m); }
        EmptyResults(m);
      }
    } else {
      var v :| v in m.Values && v in m && m[v] != v;
      var source :| source in m && m[source] == v;
      assert RewriteConfiguredReferences(Str(source), m) == Str(v);
      assert !Idempotent(Str(source), m);
    }
  }

  /** Where one target is another source, the second rewriting goes on. */
  lemma ChainGoesOn()
    ensures var m := map["a" := "b", "b" := "c"];
      var once := RewriteConfiguredReferences(Str("a"), m);
      once == Str("b") && RewriteConfiguredReferences(once, m) == Str("c")
  {}

  lemma EmptyResults(m: Mapping)
    ensures RewriteConfiguredReferences(Obj([]), m) == Obj([]) && RewriteConfiguredReferences(Arr([]), m) == Arr([])
  {
    assert "" !in SEQUENCE_KEYS;
  }

  lemma {:induction false} ResultIsClean(value: Json, m: Mapping)
    ensures Clean(RewriteConfiguredReferences(value, m), "", m)
  {
    if Rewrite(value, "", m).Some? { RewriteIsClean(value, "", m); }
  }

  // ---------------------------------------------------------------------------
  // What is kept keeps its meaning
  // ---------------------------------------------------------------------------

  /** Plain renaming: every text that the mapping knows, and nothing else. */
  function Rename(item: Json, m: Mapping): Json
    decreases item, 1
  {
    match item
    case Str(text) => Str(if text in m then m[text] else text)
    case Arr(items) => Arr(RenameItems(items, m))
    case Obj(fields) => Obj(RenameFields(fields, m))
    case _ => item
  }

  function RenameItems(items: seq<Json>, m: Mapping): seq<Json>
    decreases items, 0
  {
    if items == [] then [] else [Rename(items[0], m)] + RenameItems(items[1..], m)
  }

  function RenameFields(fields: seq<Field>, m: Mapping): seq<Field>
    decreases fields, 0
  {
    if fields == [] then [] else [Field(fields[0].key, Rename(fields[0].value, m))] + RenameFields(fields[1..], m)
  }

  /** No empty object where the rewriter would remove one. */
  predicate Solid(item: Json, key: string)
    decreases item, 1
  {
    match item
    case Arr(items) => SolidItems(items, key)
    case Obj(fields) =>
      && !(SequenceKey(key) && fields == [])
      && FilledWrapper(fields, "command") && FilledWrapper(fields, "entity") && SolidFields(fields)
    case _ => true
  }

  predicate SolidItems(items: seq<Json>, key: string)
    decreases items, 0
  {
    items == [] || (Solid(items[0], key) && SolidItems(items[1..], key))
  }

  predicate SolidFields(fields: seq<Field>)
    decreases fields, 0
  {
    fields == [] || (Solid(fields[0].value, fields[0].key) && SolidFields(fields[1..]))
  }

  lemma {:induction false} GetRenamed(fields: seq<Field>, key: string, m: Mapping)
    ensures Get(RenameFields(fields, m), key) ==
      match Get(fields, key) case None => None case Some(value) => Some(Rename(value, m))
  {
    if fields != [] { GetRenamed(fields[1..], key, m); }
  }

  /** With nothing unresolvable and nothing empty in the way, the rewriter is plain renaming. */
  lemma {:induction false} ResolvableIsRenamed(item: Json, key: string, m: Mapping)
    requires "" !in m.Values && Unresolvable(item, key, m) == {} && Solid(item, key)
    ensures Rewrite(item, key, m) == Some(Rename(item, m))
    decreases item, 1
  {
    match item
    case Str(text) => if text in m { assert m[text] in m.Values; }
    case Arr(items) => ItemsAreRenamed(items, key, m);
    case Obj(fields) =>
      if NamesUnsupported(fields, m) { UnresolvableGet(fields, m); assert false; }
      FieldsAreRenamed(fields, m);
      GetRenamed(fields, "command", m);
      GetRenamed(fields, "entity", m);
    case _ =>
  }

  lemma {:induction false} ItemsAreRenamed(items: seq<Json>, key: string, m: Mapping)
    requires "" !in m.Values && UnresolvableItems(items, key, m) == {} && SolidItems(items, key)
    ensures RewriteItems(items, key, m) == RenameItems(items, m)
    decreases items, 0
  {
    if items != [] {
      ResolvableIsRenamed(items[0], key, m);
      ItemsAreRenamed(items[1..], key, m);
    }
  }

  lemma {:induction false} FieldsAreRenamed(fields: seq<Field>, m: Mapping)
    requires "" !in m.Values && UnresolvableFields(fields, m) == {} && SolidFields(fields)
    ensures RewriteFields(fields, m) == RenameFields(fields, m)
    decreases fields, 0
  {
    if fields != [] {
      ResolvableIsRenamed(fields[0].value, fields[0].key, m);
      FieldsAreRenamed(fields[1..], m);
    }
  }

  // ---------------------------------------------------------------------------
  // Every part for itself
  // ---------------------------------------------------------------------------

  /** A list is rewritten entry by entry. */
  lemma {:induction false} ItemsInTurn(a: seq<Json>, b: seq<Json>, key: string, m: Mapping)
    ensures RewriteItems(a + b, key, m) == RewriteItems(a, key, m) + RewriteItems(b, key, m)
  {
    hide Rewrite;
    if a == [] {
      assert a + b == b && [] + RewriteItems(b, key, m) == RewriteItems(b, key, m);
    } else {
      var entry := Rewrite(a[0], key, m);
      var first: seq<Json> := if Kept(entry, key) then [entry.value] else [];
      assert (a + b)[1..] == a[1..] + b && (a + b)[0] == a[0];
      assert RewriteItems(a + b, key, m) == first + RewriteItems(a[1..] + b, key, m);
      ItemsInTurn(a[1..], b, key, m);
      Regrouped(first, RewriteItems(a[1..], key, m), RewriteItems(b, key, m));
    }
  }

  lemma Regrouped<T>(a: seq<T>, b: seq<T>, c: seq<T>)
    ensures a + (b + c) == (a + b) + c
  {}

  /** An object is rewritten field by field. */
  lemma {:induction false} FieldsInTurn(a: seq<Field>, b: seq<Field>, m: Mapping)
    ensures RewriteFields(a + b, m) == RewriteFields(a, m) + RewriteFields(b, m)
  {
    hide Rewrite;
    if a == [] {
      assert a + b == b && [] + RewriteFields(b, m) == RewriteFields(b, m);
    } else {
      var entry := Rewrite(a[0].value, a[0].key, m);
      var first: seq<Field> := if entry.Some? then [Field(a[0].key, entry.value)] else [];
      assert (a + b)[1..] == a[1..] + b && (a + b)[0] == a[0];
      assert RewriteFields(a + b, m) == first + RewriteFields(a[1..] + b, m);
      FieldsInTurn(a[1..], b, m);
      Regrouped(first, RewriteFields(a[1..], m), RewriteFields(b, m));
    }
  }

  /** An entry that is resolvable and nowhere empty comes out renamed, in its place, whatever stands beside it. */
  lemma {:induction false} EntryStays(before: seq<Json>, entry: Json, after: seq<Json>, key: string, m: Mapping)
    requires "" !in m.Values && Unresolvable(entry, key, m) == {} && Solid(entry, key)
    ensures RewriteItems(before + [entry] + after, key, m)
      == RewriteItems(before, key, m) + [Rename(entry, m)] + RewriteItems(after, key, m)
  {
    ItemsInTurn(before + [entry], after, key, m);
    ItemsInTurn(before, [entry], key, m);
    ResolvableIsRenamed(entry, key, m);
    NotEmptied(entry, key, m);
    assert [entry][1..] == [] && RewriteItems([entry][1..], key, m) == [];
  }

  lemma NotEmptied(entry: Json, key: string, m: Mapping)
    requires Solid(entry, key)
    ensures Kept(Some(Rename(entry, m)), key)
  {
    match entry
    case Obj(fields) => if fields != [] { assert RenameFields(fields, m) != []; }
    case _ =>
  }

  /** So does a field. */
  lemma {:induction false} FieldStays(before: seq<Field>, field: Field, after: seq<Field>, m: Mapping)
    requires "" !in m.Values && Unresolvable(field.value, field.key, m) == {} && Solid(field.value, field.key)
    ensures RewriteFields(before + [field] + after, m)
      == RewriteFields(before, m) + [Field(field.key, Rename(field.value, m))] + RewriteFields(after, m)
  {
    FieldsInTurn(before + [field], after, m);
    FieldsInTurn(before, [field], m);
    ResolvableIsRenamed(field.value, field.key, m);
    assert [field][1..] == [] && RewriteFields([field][1..], m) == [];
  }

  ghost predicate EachKeyOnce(fields: seq<Field>) {
    forall i, j :: 0 <= i < j < |fields| ==> fields[i].key != fields[j].key
  }

  /** Under every key an object comes out with what that value comes to by itself. */
  lemma {:induction false} GetRewritten(fields: seq<Field>, key: string, m: Mapping)
    requires EachKeyOnce(fields)
    ensures Get(RewriteFields(fields, m), key) ==
      match Get(fields, key) case None => None case Some(value) => Rewrite(value, key, m)
  {
    if fields != [] {
      var f, rest := fields[0], fields[1..];
      var entry, more := Rewrite(f.value, f.key, m), RewriteFields(rest, m);
      GetRewritten(rest, key, m);
      assert entry.Some? ==> ([Field(f.key, entry.value)] + more)[1..] == more;
      assert [] + more == more;
      if f.key == key { OnlyOnce(fields, key); }
    }
  }

  lemma OnlyOnce(fields: seq<Field>, key: string)
    requires EachKeyOnce(fields) && fields != [] && fields[0].key == key
    ensures !Has(fields[1..], key)
  {
    GetIsField(fields[1..], key);
    forall f | f in fields[1..] ensures f.key != key {
      var i :| 0 <= i < |fields[1..]| && fields[1..][i] == f;
      assert fields[i + 1] == f;
    }
  }

  /** A wrapper that goes, or comes out as an empty object. */
  ghost predicate Breaks(fields: seq<Field>, wrapper: string, m: Mapping) {
    && Has(fields, wrapper)
    && (Rewrite(Get(fields, wrapper).value, wrapper, m).None?
        || Rewrite(Get(fields, wrapper).value, wrapper, m) == Some(Obj([])))
  }

  /** When a value goes: a text under a reference key that cannot be resolved; an object whose own entity id cannot be
      resolved, whose command or entity breaks, or that stands in a sequence with nothing left in it. Nothing else
      goes. */
  lemma {:induction false} ValueGoesExactly(item: Json, key: string, m: Mapping)
    requires item.Obj? ==> EachKeyOnce(item.fields)
    ensures Rewrite(item, key, m).None? <==>
      match item
      case Str(text) => ReferenceKey(key) && IsFullEntityId(text) && text !in m.Values && (text !in m || m[text] == "")
      case Obj(fields) =>
        || (exists text :: Get(fields, "entity_id") == Some(Str(text)) && IsFullEntityId(text) && text !in m.Values
                           && (text !in m || m[text] == ""))
        || Breaks(fields, "command", m) || Breaks(fields, "entity", m)
        || (SequenceKey(key) && forall f :: f in fields ==> Rewrite(f.value, f.key, m).None?)
      case _ => false
  {
    hide IsFullEntityId, RewriteFields, Get, REFERENCE_KEYS, SEQUENCE_KEYS;
    KeysOfBothKinds(key);
    match item
    case Obj(fields) =>
      GetRewritten(fields, "command", m);
      GetRewritten(fields, "entity", m);
      NothingLeft(fields, m);
    case _ =>
  }

  lemma {:induction false} NothingLeft(fields: seq<Field>, m: Mapping)
    ensures RewriteFields(fields, m) == [] <==> forall f :: f in fields ==> Rewrite(f.value, f.key, m).None?
  {
    if fields != [] {
      NothingLeft(fields[1..], m);
      assert fields == [fields[0]] + fields[1..];
    }
  }

  /** What a text comes to: the target of a reference, a target as it is, and anything else renamed if the mapping
      knows it. */
  lemma TextIsRewritten(text: string, key: string, m: Mapping)
    requires Rewrite(Str(text), key, m).Some?
    ensures Rewrite(Str(text), key, m) == Some(Str(
      if ReferenceKey(key) && text in m.Values && (text !in m || m[text] == "") then text
      else if text in m then m[text] else text))
  {
    KeysOfBothKinds(key);
  }
}
