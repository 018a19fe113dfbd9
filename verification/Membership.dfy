/** The entity ids an activity must be given before its sequences, and the relay its sequences become. */
module Membership {
  import opened Options
  import opened Json
  import opened Ordering

  const RELAY_ENTITY_ID: string := "remote_sync.main.activity_relay"

  /** `String(value)`. */
  function ToText(value: Json): string
    decreases value, 1
  {
    match value
    case Null => "null"
    case Bool(flag) => if flag then "true" else "false"
    case Num(text) => text
    case Str(text) => text
    case Arr(items) => JoinTexts(items)
    case Obj(_) => "[object Object]"
  }

  function JoinTexts(items: seq<Json>): string
    decreases items, 0
  {
    if items == [] then ""
    else
      var first := if items[0] == Null then "" else ToText(items[0]);
      if |items| == 1 then first else first + "," + JoinTexts(items[1..])
  }

  /** `String(value || "")`. */
  function TextOrEmpty(value: Json): string {
    match value
    case Null => ""
    case Bool(flag) => if flag then "true" else ""
    case Num(text) => if text == "0" || text == "-0" then "" else text
    case _ => ToText(value)
  }

  /** Every candidate id in the order it is met. */
  function Visited(value: Json, key: string): seq<string>
    decreases value, 1
  {
    match value
    case Str(text) => if key == "entity_id" then [text] else []
    case Arr(items) => if key == "entity_ids" then Texts(items) else VisitedItems(items, key)
    case Obj(fields) => VisitedFields(fields)
    case _ => []
  }

  function Texts(items: seq<Json>): seq<string> {
    if items == [] then [] else [TextOrEmpty(items[0])] + Texts(items[1..])
  }

  function VisitedItems(items: seq<Json>, key: string): seq<string>
    decreases items, 0
  {
    if items == [] then [] else Visited(items[0], key) + VisitedItems(items[1..], key)
  }

  function VisitedFields(fields: seq<Field>): seq<string>
    decreases fields, 0
  {
    if fields == [] then [] else Visited(fields[0].value, fields[0].key) + VisitedFields(fields[1..])
  }

  /** Adds ids one by one, skipping empty and known ones. */
  function Collect(result: seq<string>, ids: seq<string>): seq<string>
    decreases |ids|
  {
    if ids == [] then result
    else Collect(if ids[0] == "" || ids[0] in result then result else result + [ids[0]], ids[1..])
  }

  function VisitedMaybe(value: Option<Json>): seq<string> {
    match value case None => [] case Some(v) => Visited(v, "")
  }

  function MembershipIds(options: Json, buttons: Option<Json>, ui: Option<Json>): seq<string> {
    Collect([], Visited(options, "") + VisitedMaybe(buttons) + VisitedMaybe(ui))
  }

  // ---------------------------------------------------------------------------
  // Exactly the referenced ids, each once
  // ---------------------------------------------------------------------------

  /** `id` stands under `entity_id`, or in a list under `entity_ids`, somewhere in the value. */
  predicate References(value: Json, key: string, id: string)
    decreases value, 1
  {
    match value
    case Str(text) => key == "entity_id" && text == id
    case Arr(items) =>
      if key == "entity_ids" then exists i :: 0 <= i < |items| && TextOrEmpty(items[i]) == id
      else ItemReferences(items, key, id)
    case Obj(fields) => FieldReferences(fields, id)
    case _ => false
  }

  predicate ItemReferences(items: seq<Json>, key: string, id: string)
    decreases items, 0
  {
    items != [] && (References(items[0], key, id) || ItemReferences(items[1..], key, id))
  }

  predicate FieldReferences(fields: seq<Field>, id: string)
    decreases fields, 0
  {
    fields != [] && (References(fields[0].value, fields[0].key, id) || FieldReferences(fields[1..], id))
  }

  lemma {:induction false} VisitsReferences(value: Json, key: string, id: string)
    ensures id in Visited(value, key) <==> References(value, key, id)
    decreases value, 1
  {
    match value
    case Arr(items) => if key == "entity_ids" { TextsOfItems(items, id); } else { VisitsItems(items, key, id); }
    case Obj(fields) => VisitsFields(fields, id);
    case _ =>
  }

  lemma {:induction false} TextsOfItems(items: seq<Json>, id: string)
    ensures id in Texts(items) <==> exists i :: 0 <= i < |items| && TextOrEmpty(items[i]) == id
  {
    if items != [] {
      TextsOfItems(items[1..], id);
      if i :| 0 <= i < |items| && TextOrEmpty(items[i]) == id {
        assert i > 0 ==> items[1..][i - 1] == items[i];
      }
      if i :| 0 <= i < |items[1..]| && TextOrEmpty(items[1..][i]) == id {
        assert items[1..][i] == items[i + 1];
      }
    }
  }

  lemma {:induction false} VisitsItems(items: seq<Json>, key: string, id: string)
    ensures id in VisitedItems(items, key) <==> ItemReferences(items, key, id)
    decreases items, 0
  {
    if items != [] {
      VisitsReferences(items[0], key, id);
      VisitsItems(items[1..], key, id);
    }
  }

  lemma {:induction false} VisitsFields(fields: seq<Field>, id: string)
    ensures id in VisitedFields(fields) <==> FieldReferences(fields, id)
    decreases fields, 0
  {
    if fields != [] {
      VisitsReferences(fields[0].value, fields[0].key, id);
      VisitsFields(fields[1..], id);
    }
  }

  lemma {:induction false} CollectIsExact(result: seq<string>, ids: seq<string>)
    requires Distinct(result) && "" !in result
    ensures Distinct(Collect(result, ids)) && result <= Collect(result, ids)
    ensures forall id :: id in Collect(result, ids) <==> id in result || (id in ids && id != "")
    decreases |ids|
  {
    if ids != [] {
      var next := if ids[0] == "" || ids[0] in result then result else result + [ids[0]];
      CollectIsExact(next, ids[1..]);
    }
  }

  /** A list as a text: its entries as texts, null as nothing, with commas between them. */
  lemma {:induction false} ListsAsTexts(first: Json, rest: seq<Json>)
    ensures ToText(Arr([])) == ""
    ensures ToText(Arr([first])) == if first == Null then "" else ToText(first)
    ensures rest != [] ==> ToText(Arr([first] + rest)) == ToText(Arr([first])) + "," + ToText(Arr(rest))
  {
    assert [first][1..] == [] && ([first] + rest)[1..] == rest;
  }

  /** Which entries of a list of ids count, and as what: nothing for null, false, zero and the empty text, and else the
      entry as a text. */
  lemma EntriesAsTexts(text: string, fields: seq<Field>)
    ensures TextOrEmpty(Null) == "" && TextOrEmpty(Bool(false)) == "" && TextOrEmpty(Bool(true)) == "true"
    ensures TextOrEmpty(Num(text)) == if text == "0" || text == "-0" then "" else text
    ensures TextOrEmpty(Str(text)) == text && TextOrEmpty(Obj(fields)) == "[object Object]"
    ensures ToText(Null) == "null" && ToText(Bool(false)) == "false" && ToText(Bool(true)) == "true"
    ensures ToText(Num(text)) == text && ToText(Str(text)) == text && ToText(Obj(fields)) == "[object Object]"
  {}

  predicate ReferencesMaybe(value: Option<Json>, id: string) {
    value.Some? && References(value.value, "", id)
  }

  /** The membership of an activity holds exactly the ids its options, buttons and pages refer to, each once. */
  lemma MembershipIsExact(options: Json, buttons: Option<Json>, ui: Option<Json>)
    ensures Distinct(MembershipIds(options, buttons, ui))
    ensures forall id :: id in MembershipIds(options, buttons, ui) <==>
      id != "" && (References(options, "", id) || ReferencesMaybe(buttons, id) || ReferencesMaybe(ui, id))
  {
    CollectIsExact([], Visited(options, "") + VisitedMaybe(buttons) + VisitedMaybe(ui));
    forall id: string
      ensures id in Visited(options, "") + VisitedMaybe(buttons) + VisitedMaybe(ui) <==>
        References(options, "", id) || ReferencesMaybe(buttons, id) || ReferencesMaybe(ui, id)
    {
      VisitsReferences(options, "", id);
      if buttons.Some? { VisitsReferences(buttons.value, "", id); }
      if ui.Some? { VisitsReferences(ui.value, "", id); }
    }
  }

  // ---------------------------------------------------------------------------
  // The collector as written
  // ---------------------------------------------------------------------------

  /** One walk that pushes to a list and a set of known ids. */
  method Visit(value: Json, key: string, result0: seq<string>, seen0: set<string>)
    returns (result: seq<string>, seen: set<string>)
    requires seen0 == set x | x in result0
    ensures result == Collect(result0, Visited(value, key)) && seen == set x | x in result
    decreases value, 1
  {
    result, seen := result0, seen0;
    match value
    case Str(text) =>
      if key == "entity_id" {
        result, seen := Add(text, result, seen);
        assert [text][1..] == [];
      }
    case Arr(items) =>
      for i := 0 to |items|
        invariant seen == set x | x in result
        invariant key == "entity_ids" ==> Collect(result, Texts(items[i..])) == Collect(result0, Texts(items))
        invariant key != "entity_ids" ==>
          Collect(result, VisitedItems(items[i..], key)) == Collect(result0, VisitedItems(items, key))
      {
        assert items[i..][1..] == items[i + 1..];
        if key == "entity_ids" {
          var rest := Texts(items[i + 1..]);
          assert ([TextOrEmpty(items[i])] + rest)[1..] == rest;
          result, seen := Add(TextOrEmpty(items[i]), result, seen);
        } else {
          CollectAppend(result, Visited(items[i], key), VisitedItems(items[i + 1..], key));
          result, seen := Visit(items[i], key, result, seen);
        }
      }
    case Obj(fields) =>
      for i := 0 to |fields|
        invariant seen == set x | x in result
        invariant Collect(result, VisitedFields(fields[i..])) == Collect(result0, VisitedFields(fields))
      {
        assert fields[i..][1..] == fields[i + 1..];
        CollectAppend(result, Visited(fields[i].value, fields[i].key), VisitedFields(fields[i + 1..]));
        result, seen := Visit(fields[i].value, fields[i].key, result, seen);
      }
    case _ =>
  }

  method Add(id: string, result0: seq<string>, seen0: set<string>) returns (result: seq<string>, seen: set<string>)
    requires seen0 == set x | x in result0
    ensures result == (if id == "" || id in result0 then result0 else result0 + [id]) && seen == set x | x in result
  {
    if id == "" || id in seen0 { return result0, seen0; }
    return result0 + [id], seen0 + {id};
  }

  lemma {:induction false} CollectAppend(result: seq<string>, a: seq<string>, b: seq<string>)
    ensures Collect(result, a + b) == Collect(Collect(result, a), b)
    decreases |a|
  {
    if a == [] {
      assert a + b == b;
    } else {
      assert (a + b)[1..] == a[1..] + b;
      CollectAppend(if a[0] == "" || a[0] in result then result else result + [a[0]], a[1..], b);
    }
  }

  method ActivityEntityIds(options: Json, buttons: Option<Json>, ui: Option<Json>) returns (result: seq<string>)
    ensures result == MembershipIds(options, buttons, ui)
  {
    var seen: set<string>;
    result, seen := Visit(options, "", [], {});
    CollectAppend([], Visited(options, "") + VisitedMaybe(buttons), VisitedMaybe(ui));
    CollectAppend([], Visited(options, ""), VisitedMaybe(buttons));
    if buttons.Some? { result, seen := Visit(buttons.value, "", result, seen); }
    if ui.Some? { result, seen := Visit(ui.value, "", result, seen); }
  }

  // ---------------------------------------------------------------------------
  // Relay sequences
  // ---------------------------------------------------------------------------

  function FieldsOf(value: Option<Json>): seq<Field> {
    match value
    case Some(Obj(fields)) => fields
    case _ => []
  }

  function RelayStep(source: string, action: string): Json {
    Obj([
      Field("type", Str("command")),
      Field("command", Obj([
        Field("entity_id", Str(RELAY_ENTITY_ID)),
        Field("cmd_id", Str("button.push")),
        Field("params", Obj([Field("source_activity_id", Str(source)), Field("action", Str(action))]))]))])
  }

  function RelayOptions(options: seq<Field>, source: string): seq<Field> {
    var sequences := Put(Put(FieldsOf(Get(options, "sequences")), "on", Arr([RelayStep(source, "on")])),
                         "off", Arr([RelayStep(source, "off")]));
    Without(Without(Put(options, "sequences", Obj(sequences)), "on_sequence"), "off_sequence")
  }

  /** An activity's sequences become two relay commands; everything else of its update stays. */
  function ActivityRelayPayload(payload: Json, source: string): seq<Field> {
    var fields := FieldsOf(Some(payload));
    Put(fields, "options", Obj(RelayOptions(FieldsOf(Get(fields, "options")), source)))
  }

  /** What the driver of the Satellite is sent to switch an activity of the Primary: a push of the relay entity's
      button that names the activity and the action. */
  function Relay(source: string, action: string): Json {
    Obj([Field("type", Str("command")),
         Field("command", Obj([Field("entity_id", Str("remote_sync.main.activity_relay")),
                               Field("cmd_id", Str("button.push")),
                               Field("params", Obj([Field("source_activity_id", Str(source)),
                                                    Field("action", Str(action))]))]))])
  }

  /** Only `options` changes, its own sequences are gone, and turning the activity on or off is the relay. */
  lemma {:induction false} RelayReplacesSequences(payload: Json, source: string, key: string)
    ensures var result := ActivityRelayPayload(payload, source);
      var before := FieldsOf(Get(FieldsOf(Some(payload)), "options"));
      && (key != "options" ==> Get(result, key) == Get(FieldsOf(Some(payload)), key))
      && Get(result, "options").Some? && Get(result, "options").value.Obj?
      && var options := Get(result, "options").value.fields;
      && (key !in {"sequences", "on_sequence", "off_sequence"} ==> Get(options, key) == Get(before, key))
      && !Has(options, "on_sequence") && !Has(options, "off_sequence")
      && Get(options, "sequences").Some? && Get(options, "sequences").value.Obj?
      && var sequences := Get(options, "sequences").value.fields;
      && Get(sequences, "on") == Some(Arr([Relay(source, "on")]))
      && Get(sequences, "off") == Some(Arr([Relay(source, "off")]))
      && (key !in {"on", "off"} ==> Get(sequences, key) == Get(FieldsOf(Get(before, "sequences")), key))
  {
    hide Put, Without, Get;
    var fields := FieldsOf(Some(payload));
    var before := FieldsOf(Get(fields, "options"));
    var inner := FieldsOf(Get(before, "sequences"));
    var on, off := Arr([RelayStep(source, "on")]), Arr([RelayStep(source, "off")]);
    var sequences := Put(Put(inner, "on", on), "off", off);
    var replaced := Put(before, "sequences", Obj(sequences));
    var options := RelayOptions(before, source);
    forall k: string
      ensures Get(sequences, k) == if k == "off" then Some(off) else if k == "on" then Some(on) else Get(inner, k)
    {
      GetPut(inner, "on", on, k);
      GetPut(Put(inner, "on", on), "off", off, k);
    }
    forall k: string
      ensures Get(options, k) == if k == "on_sequence" || k == "off_sequence" then None
        else if k == "sequences" then Some(Obj(sequences)) else Get(before, k)
    {
      GetPut(before, "sequences", Obj(sequences), k);
      GetWithout(replaced, "on_sequence", k);
      GetWithout(Without(replaced, "on_sequence"), "off_sequence", k);
    }
    forall k: string
      ensures Get(ActivityRelayPayload(payload, source), k) == if k == "options" then Some(Obj(options))
        else Get(fields, k)
    {
      GetPut(fields, "options", Obj(options), k);
    }
  }
}
