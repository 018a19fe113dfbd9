/** What the requests that fill in a record carry of it. */
module ApplyPayloads {
  import opened Options
  import opened Json
  import opened References
  import opened ApplyTrace
  import Membership

  // ---------------------------------------------------------------------------
  // Selecting and cleaning
  // ---------------------------------------------------------------------------

  predicate UpdateKey(key: string) {
    key == "name" || key == "icon" || key == "description" || key == "options"
  }

  predicate CreateKey(key: string) {
    key == "name" || key == "icon" || key == "description"
  }

  /** What a Core reports of an entity and does not take back. */
  predicate ReadOnly(key: string) {
    || key == "entity_type" || key == "integration_id" || key == "features" || key == "attributes"
    || key == "available" || key == "state" || key == "device_state" || key == "driver_state"
    || key == "entity_commands" || key == "simple_commands" || key == "commands"
  }

  lemma {:induction false} SelectedExactly(fields: seq<Field>, allowed: seq<string>, key: string)
    ensures Get(Selected(fields, allowed), key) ==
      if key in allowed && Has(fields, key) && Get(fields, key).value != Null then Get(fields, key) else None
  {
    if allowed != [] {
      var rest := Selected(fields, allowed[1..]);
      SelectedExactly(fields, allowed[1..], key);
      assert allowed == [allowed[0]] + allowed[1..];
      assert [] + rest == rest;
      match Get(fields, allowed[0])
      case Some(value) => if value != Null { assert ([Field(allowed[0], value)] + rest)[1..] == rest; }
      case None =>
    }
  }

  lemma {:induction false} SelectedOnce(fields: seq<Field>, allowed: seq<string>)
    requires forall i, j :: 0 <= i < j < |allowed| ==> allowed[i] != allowed[j]
    ensures EachKeyOnce(Selected(fields, allowed))
    ensures forall f :: f in Selected(fields, allowed) ==> f.key in allowed
  {
    if allowed != [] {
      var rest := Selected(fields, allowed[1..]);
      SelectedOnce(fields, allowed[1..]);
      assert allowed == [allowed[0]] + allowed[1..];
      forall f | f in rest ensures f.key != allowed[0] {
        var i :| 0 <= i < |allowed[1..]| && allowed[1..][i] == f.key;
        assert allowed[i + 1] == f.key;
      }
    }
  }

  lemma {:induction false} CleanedList(items: seq<Json>)
    ensures |CleanList(items)| == |items|
      && forall i :: 0 <= i < |items| ==> CleanList(items)[i] == CleanPayload(items[i])
  {
    if items != [] {
      CleanedList(items[1..]);
      assert forall i :: 0 < i < |items| ==> items[i] == items[1..][i - 1];
    }
  }

  lemma {:induction false} CleanedObject(fields: seq<Field>, key: string)
    ensures Get(CleanObject(fields), key) ==
      if ReadOnly(key) then None
      else match Get(fields, key) case None => None case Some(value) => Some(CleanPayload(value))
  {
    if fields != [] {
      var f, rest := fields[0], CleanObject(fields[1..]);
      CleanedObject(fields[1..], key);
      assert f.key in READ_ONLY_KEYS <==> ReadOnly(f.key);
      assert ([Field(f.key, CleanPayload(f.value))] + rest)[1..] == rest && [] + rest == rest;
    }
  }

  lemma {:induction false} CleanedOnce(fields: seq<Field>)
    requires EachKeyOnce(fields)
    ensures EachKeyOnce(CleanObject(fields))
    ensures forall f :: f in CleanObject(fields) ==> exists g :: g in fields && g.key == f.key
  {
    if fields != [] {
      var f, rest := fields[0], CleanObject(fields[1..]);
      CleanedOnce(fields[1..]);
      assert fields == [f] + fields[1..];
      forall g | g in rest ensures g.key != f.key {
        var h :| h in fields[1..] && h.key == g.key;
        var i :| 0 <= i < |fields[1..]| && fields[1..][i] == h;
        assert fields[i + 1] == h;
      }
    }
  }

  /** The way into a value: by a key of an object or a place in a list. */
  datatype Way = Key(name: string) | Place(at: nat)

  function Follow(value: Json, way: seq<Way>): Option<Json>
    decreases |way|
  {
    if way == [] then Some(value)
    else
      match (value, way[0])
      case (Obj(fields), Key(name)) => (match Get(fields, name) case Some(v) => Follow(v, way[1..]) case None => None)
      case (Arr(items), Place(at)) => if at < |items| then Follow(items[at], way[1..]) else None
      case _ => None
  }

  /** Cleaning removes what stands below a read-only key, at any depth, and moves nothing else. */
  lemma {:induction false} CleaningIsExact(value: Json, way: seq<Way>)
    ensures Follow(CleanPayload(value), way) ==
      if exists k :: 0 <= k < |way| && way[k].Key? && ReadOnly(way[k].name) then None
      else match Follow(value, way) case None => None case Some(v) => Some(CleanPayload(v))
    decreases |way|
  {
    if way != [] {
      var rest := way[1..];
      assert forall k :: 0 <= k < |rest| ==> rest[k] == way[k + 1];
      assert forall k :: 0 < k < |way| ==> way[k] == rest[k - 1];
      match (value, way[0])
      case (Obj(fields), Key(name)) =>
        CleanedObject(fields, name);
        if Has(fields, name) { CleaningIsExact(Get(fields, name).value, rest); }
      case (Arr(items), Place(at)) =>
        CleanedList(items);
        if at < |items| { CleaningIsExact(items[at], rest); }
      case _ =>
    }
  }

  /** Without read-only keys at any depth. */
  predicate Free(value: Json)
    decreases value, 1
  {
    match value
    case Arr(items) => FreeItems(items)
    case Obj(fields) => FreeFields(fields)
    case _ => true
  }

  predicate FreeItems(items: seq<Json>)
    decreases items, 0
  {
    items == [] || (Free(items[0]) && FreeItems(items[1..]))
  }

  predicate FreeFields(fields: seq<Field>)
    decreases fields, 0
  {
    fields == [] || (!ReadOnly(fields[0].key) && Free(fields[0].value) && FreeFields(fields[1..]))
  }

  lemma {:induction false} FreeIsClean(value: Json)
    requires Free(value)
    ensures CleanPayload(value) == value
    decreases value, 1
  {
    match value
    case Arr(items) => FreeItemsAreClean(items);
    case Obj(fields) => FreeFieldsAreClean(fields);
    case _ =>
  }

  lemma {:induction false} FreeItemsAreClean(items: seq<Json>)
    requires FreeItems(items)
    ensures CleanList(items) == items
    decreases items, 0
  {
    if items != [] {
      FreeIsClean(items[0]);
      FreeItemsAreClean(items[1..]);
    }
  }

  lemma KeysAreReadOnly(key: string)
    ensures ReadOnly(key) <==> key in READ_ONLY_KEYS
  {}

  lemma {:induction false} FreeFieldsAreClean(fields: seq<Field>)
    requires FreeFields(fields)
    ensures CleanObject(fields) == fields
    decreases fields, 0
  {
    hide CleanPayload, ReadOnly;
    if fields != [] {
      assert fields[0].key !in READ_ONLY_KEYS by { KeysAreReadOnly(fields[0].key); }
      FreeIsClean(fields[0].value);
      FreeFieldsAreClean(fields[1..]);
      assert fields == [Field(fields[0].key, fields[0].value)] + fields[1..];
    }
  }

  // ---------------------------------------------------------------------------
  // The payloads
  // ---------------------------------------------------------------------------

  /** The update of a record holds its name, icon, description and options, as far as it has them, cleaned and
      rewritten, and nothing else. */
  lemma {:induction false} UpdateIsExact(item: Item, m: Mapping, key: string)
    ensures UpdatePayload(item, m).Obj?
    ensures Get(UpdatePayload(item, m).fields, key) ==
      if UpdateKey(key) && Has(item.detail, key) && Get(item.detail, key).value != Null
      then Rewrite(CleanPayload(Get(item.detail, key).value), key, m) else None
  {
    hide Rewrite, CleanPayload, Selected, CleanObject, RewriteFields, Get;
    var chosen := Selected(item.detail, UPDATE_FIELDS);
    var cleaned := CleanObject(chosen);
    SelectedOnce(item.detail, UPDATE_FIELDS);
    CleanedOnce(chosen);
    UpdateIsObject(item, m);
    GetRewritten(cleaned, key, m);
    CleanedObject(chosen, key);
    SelectedExactly(item.detail, UPDATE_FIELDS, key);
    assert key in UPDATE_FIELDS <==> UpdateKey(key);
  }

  lemma UpdateIsObject(item: Item, m: Mapping)
    ensures UpdatePayload(item, m) == Obj(RewriteFields(CleanObject(Selected(item.detail, UPDATE_FIELDS)), m))
  {
    hide CleanPayload, Selected, CleanObject, RewriteFields;
    var chosen := Selected(item.detail, UPDATE_FIELDS);
    forall key | key == "entity_id" || key == "command" || key == "entity" ensures Get(CleanObject(chosen), key).None? {
      CleanedObject(chosen, key);
      SelectedExactly(item.detail, UPDATE_FIELDS, key);
    }
  }

  /** A field that can be resolved, is nowhere empty and has no read-only keys is carried renamed. */
  lemma {:induction false} FieldIsCarried(item: Item, m: Mapping, key: string, value: Json)
    requires UpdateKey(key) && Get(item.detail, key) == Some(value) && value != Null && Free(value)
    requires "" !in m.Values && Unresolvable(value, key, m) == {} && Solid(value, key)
    ensures Get(Membership.FieldsOf(Some(UpdatePayload(item, m))), key) == Some(Rename(value, m))
  {
    hide Rewrite, UpdatePayload, Free, Solid, Unresolvable;
    UpdateIsExact(item, m, key);
    FreeIsClean(value);
    ResolvableIsRenamed(value, key, m);
  }

  /** A macro gets its whole update in one request. */
  lemma {:induction false} PlainCarries(p: Prepared, m: Mapping, key: string)
    ensures var r := PlainOf(p, m);
      && r.PatchPlain? && r.section == Macros && r.id == p.targetId
      && Get(r.fields, key) ==
        if UpdateKey(key) && Has(p.item.detail, key) && Get(p.item.detail, key).value != Null
        then Rewrite(CleanPayload(Get(p.item.detail, key).value), key, m) else None
  {
    hide UpdatePayload, Rewrite, CleanPayload;
    UpdateIsExact(p.item, m, key);
  }

  /** The members of an activity come with its name, icon and description, and without its options. */
  lemma {:induction false} MembershipCarries(p: Prepared, m: Mapping, key: string)
    ensures var r := MembershipOf(p, m);
      && r.PatchMembership? && r.id == p.targetId
      && Get(r.metadata, key) ==
        if CreateKey(key) && Has(p.item.detail, key) && Get(p.item.detail, key).value != Null
        then Rewrite(CleanPayload(Get(p.item.detail, key).value), key, m) else None
  {
    hide UpdatePayload, Rewrite, CleanPayload, Membership.ActivityRelayPayload, Without;
    UpdateIsExact(p.item, m, key);
    Membership.RelayReplacesSequences(UpdatePayload(p.item, m), p.item.sourceId, key);
    GetWithout(Rewritten(p.item, m), "options", key);
  }

  /** The id stands in these options, in the buttons or in the pages, rewritten. */
  ghost predicate Named(options: Json, p: Prepared, m: Mapping, id: string) {
    || Membership.References(options, "", id)
    || Membership.ReferencesMaybe(RewrittenMaybe(p.item.buttons, m), id)
    || Membership.ReferencesMaybe(RewrittenMaybe(OrEmpty(p.item.ui), m), id)
  }

  /** Null, false, zero and the empty text stand for a layout without pages; any other layout stays itself. */
  lemma LayoutsAreExact(text: string, items: seq<Json>, fields: seq<Field>)
    ensures OrEmpty(None) == None
    ensures OrEmpty(Some(Null)) == OrEmpty(Some(Bool(false))) == Some(Obj([]))
    ensures OrEmpty(Some(Bool(true))) == Some(Bool(true))
    ensures OrEmpty(Some(Num(text))) == Some(if text == "0" || text == "-0" then Obj([]) else Num(text))
    ensures OrEmpty(Some(Str(text))) == Some(if text == "" then Obj([]) else Str(text))
    ensures OrEmpty(Some(Arr(items))) == Some(Arr(items)) && OrEmpty(Some(Obj(fields))) == Some(Obj(fields))
  {}

  /** The options of an activity come cleaned and rewritten, but for its sequences: switching it on or off pushes the
      button of the relay. With them come the ids that these options, the buttons and the pages refer to. */
  lemma {:induction false} ContentCarries(p: Prepared, m: Mapping, key: string, id: string)
    ensures var r := ContentOf(p, m);
      var own := Membership.FieldsOf(
        if Has(p.item.detail, "options") && Get(p.item.detail, "options").value != Null
        then Rewrite(CleanPayload(Get(p.item.detail, "options").value), "options", m) else None);
      && r.PatchContent? && r.id == p.targetId
      && (key != "sequences" && key != "on_sequence" && key != "off_sequence" ==> Get(r.options, key) == Get(own, key))
      && !Has(r.options, "on_sequence") && !Has(r.options, "off_sequence")
      && Get(r.options, "sequences").Some? && Get(r.options, "sequences").value.Obj?
      && var sequences := Get(r.options, "sequences").value.fields;
      && Get(sequences, "on") == Some(Arr([Membership.Relay(p.item.sourceId, "on")]))
      && Get(sequences, "off") == Some(Arr([Membership.Relay(p.item.sourceId, "off")]))
      && (key != "on" && key != "off" ==> Get(sequences, key) == Get(Membership.FieldsOf(Get(own, "sequences")), key))
      && (id in r.ids <==> id != "" && Named(Obj(r.options), p, m, id))
  {
    hide UpdatePayload, Rewrite, CleanPayload, Membership.ActivityRelayPayload, Membership.References,
         RewriteConfiguredReferences;
    UpdateIsExact(p.item, m, "options");
    Membership.RelayReplacesSequences(UpdatePayload(p.item, m), p.item.sourceId, key);
    var options := Get(Rewritten(p.item, m), "options").value;
    Membership.MembershipIsExact(options, RewrittenMaybe(p.item.buttons, m), RewrittenMaybe(OrEmpty(p.item.ui), m));
  }

  /** A record that does not exist yet is created with its name, icon and description, renamed. */
  lemma {:induction false} CreationCarries(item: Item, m: Mapping, key: string)
    ensures NewPayload(item, m).Obj?
    ensures Get(NewPayload(item, m).fields, key) ==
      if CreateKey(key) && Has(item.detail, key) && Get(item.detail, key).value != Null
      then Some(Rename(Get(item.detail, key).value, m)) else None
  {
    hide Selected, Get;
    GetRenamed(Selected(item.detail, CREATE_FIELDS), key, m);
    SelectedExactly(item.detail, CREATE_FIELDS, key);
    assert key in CREATE_FIELDS <==> CreateKey(key);
  }
}
