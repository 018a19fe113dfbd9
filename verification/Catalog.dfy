/** The proxies a Satellite shows for the entities of its Primary, and how their identities evolve. */
module Catalog {
  import opened Options
  import opened Json
  import opened Ordering

  // ---------------------------------------------------------------------------
  // Records
  // ---------------------------------------------------------------------------

  /** An entity of a manifest: its id and type trimmed, its type in lower case; `details` are the fields that
      are only copied. */
  datatype Source = Source(id: string, entityType: string, features: seq<string>, deviceClass: Option<string>,
                           options: Option<Json>, details: Json)

  datatype Remote = Remote(sourceId: string, detail: Source, simpleCommands: Option<seq<Json>>, buttons: Option<Json>,
                           ui: Option<Json>)

  datatype Manifest = Manifest(data: Json, entities: seq<Source>, remotes: seq<Remote>)

  datatype Descriptor = Descriptor(localId: string, targetEntityId: string, sourceEntityId: string, sourceType: string,
                                   entityType: string, features: seq<string>, deviceClass: Option<string>,
                                   options: Option<Json>, details: Json)

  datatype Capability = Capability(entityType: string, features: seq<string>, deviceClass: Option<string>,
                                   options: Option<Json>)

  datatype Catalog = Catalog(entities: seq<Descriptor>, mapping: map<string, string>)

  const EMPTY: Catalog := Catalog([], map[])

  /** The shortened hashes and the order of source ids, which the model leaves open. */
  datatype Rules = Rules(sourceHash: string -> string, capabilityHash: Capability -> string,
                         below: (string, string) -> bool)

  const SOURCE_HASH_LENGTH := 24

  /** Every hash of a source has the length it is cut to. */
  ghost predicate Shortened(rules: Rules) {
    forall id :: |rules.sourceHash(id)| == SOURCE_HASH_LENGTH
  }

  // ---------------------------------------------------------------------------
  // Commands that the data refers to
  // ---------------------------------------------------------------------------

  function TextAt(fields: seq<Field>, key: string): Option<string> {
    match Get(fields, key)
    case Some(Str(text)) => Some(text)
    case _ => None
  }

  /** The command that an object itself names for an entity. */
  function OwnCommand(fields: seq<Field>, id: string): seq<string> {
    if TextAt(fields, "entity_id") == Some(id) && TextAt(fields, "cmd_id").Some?
    then [TextAt(fields, "cmd_id").value] else []
  }

  /** Every command named for an entity, in the order of the walk. */
  function Referenced(value: Json, id: string): seq<string>
    decreases value, 1
  {
    match value
    case Arr(items) => ReferencedItems(items, id)
    case Obj(fields) => OwnCommand(fields, id) + ReferencedFields(fields, id)
    case _ => []
  }

  function ReferencedItems(items: seq<Json>, id: string): seq<string>
    decreases items, 0
  {
    if items == [] then [] else Referenced(items[0], id) + ReferencedItems(items[1..], id)
  }

  function ReferencedFields(fields: seq<Field>, id: string): seq<string>
    decreases fields, 0
  {
    if fields == [] then [] else Referenced(fields[0].value, id) + ReferencedFields(fields[1..], id)
  }

  /** Some object at any depth names this command for this entity. */
  ghost predicate Uses(value: Json, id: string, command: string)
    decreases value
  {
    match value
    case Arr(items) => exists k :: 0 <= k < |items| && Uses(items[k], id, command)
    case Obj(fields) =>
      || (Get(fields, "entity_id") == Some(Str(id)) && Get(fields, "cmd_id") == Some(Str(command)))
      || (exists k :: 0 <= k < |fields| && Uses(fields[k].value, id, command))
    case _ => false
  }

  lemma {:induction false} ReferencedIsExact(value: Json, id: string, command: string)
    ensures command in Referenced(value, id) <==> Uses(value, id, command)
    decreases value, 1
  {
    match value
    case Arr(items) => ItemsAreExact(items, id, command);
    case Obj(fields) => FieldsAreExact(fields, id, command);
    case _ =>
  }

  lemma {:induction false} ItemsAreExact(items: seq<Json>, id: string, command: string)
    ensures command in ReferencedItems(items, id) <==> exists k :: 0 <= k < |items| && Uses(items[k], id, command)
    decreases items, 0
  {
    if items != [] {
      var rest := items[1..];
      ReferencedIsExact(items[0], id, command);
      ItemsAreExact(rest, id, command);
      assert forall k :: 0 <= k < |rest| ==> rest[k] == items[k + 1];
      assert forall k :: 0 < k < |items| ==> items[k] == rest[k - 1];
    }
  }

  lemma {:induction false} FieldsAreExact(fields: seq<Field>, id: string, command: string)
    ensures command in ReferencedFields(fields, id) <==>
      exists k :: 0 <= k < |fields| && Uses(fields[k].value, id, command)
    decreases fields, 0
  {
    if fields != [] {
      var rest := fields[1..];
      ReferencedIsExact(fields[0].value, id, command);
      FieldsAreExact(rest, id, command);
      assert forall k :: 0 <= k < |rest| ==> rest[k] == fields[k + 1];
      assert forall k :: 0 < k < |fields| ==> fields[k] == rest[k - 1];
    }
  }

  type Commands = map<string, seq<string>>

  function CommandsFor(commands: Commands, id: string): seq<string> {
    if id in commands then commands[id] else []
  }

  /** The walk as written: one table for all entities, filled on the way. */
  method CollectReferencedCommands(value: Json, table: Commands) returns (result: Commands)
    ensures forall id :: CommandsFor(result, id) == Unique(CommandsFor(table, id), Referenced(value, id))
    decreases value
  {
    result := table;
    match value
    case Arr(items) =>
      for i := 0 to |items|
        invariant forall id :: Unique(CommandsFor(result, id), ReferencedItems(items[i..], id))
                               == Unique(CommandsFor(table, id), ReferencedItems(items, id))
      {
        assert items[i..][1..] == items[i + 1..];
        ghost var before := result;
        result := CollectReferencedCommands(items[i], result);
        forall id ensures Unique(CommandsFor(result, id), ReferencedItems(items[i + 1..], id))
          == Unique(CommandsFor(before, id), ReferencedItems(items[i..], id))
        {
          UniqueAppend(CommandsFor(before, id), Referenced(items[i], id), ReferencedItems(items[i + 1..], id));
        }
      }
    case Obj(fields) =>
      var entity, command := TextAt(fields, "entity_id"), TextAt(fields, "cmd_id");
      if entity.Some? && command.Some? {
        if entity.value !in result { result := result[entity.value := []]; }
        result := result[entity.value := Added(result[entity.value], command.value)];
      }
      forall id
        ensures Unique(CommandsFor(result, id), ReferencedFields(fields[0..], id))
          == Unique(CommandsFor(table, id), Referenced(value, id))
      {
        assert fields[0..] == fields;
        UniqueAppend(CommandsFor(table, id), OwnCommand(fields, id), ReferencedFields(fields, id));
      }
      for i := 0 to |fields|
        invariant forall id :: Unique(CommandsFor(result, id), ReferencedFields(fields[i..], id))
                               == Unique(CommandsFor(table, id), Referenced(value, id))
      {
        assert fields[i..][1..] == fields[i + 1..];
        ghost var before := result;
        result := CollectReferencedCommands(fields[i].value, result);
        forall id ensures Unique(CommandsFor(result, id), ReferencedFields(fields[i + 1..], id))
          == Unique(CommandsFor(before, id), ReferencedFields(fields[i..], id))
        {
          UniqueAppend(CommandsFor(before, id), Referenced(fields[i].value, id), ReferencedFields(fields[i + 1..], id));
        }
      }
    case _ =>
  }

  // ---------------------------------------------------------------------------
  // Features that commands stand for
  // ---------------------------------------------------------------------------

  const MEDIA_PLAYER_COMMAND_FEATURES: map<string, string> := map[
    "on" := "on_off", "off" := "on_off", "toggle" := "toggle", "play_pause" := "play_pause", "stop" := "stop",
    "previous" := "previous", "next" := "next", "fast_forward" := "fast_forward", "rewind" := "rewind",
    "seek" := "seek",
    "volume" := "volume", "volume_up" := "volume_up_down", "volume_down" := "volume_up_down",
    "mute_toggle" := "mute_toggle", "mute" := "mute", "unmute" := "unmute", "repeat" := "repeat",
    "shuffle" := "shuffle",
    "channel_up" := "channel_switcher", "channel_down" := "channel_switcher",
    "cursor_up" := "dpad", "cursor_down" := "dpad", "cursor_left" := "dpad", "cursor_right" := "dpad",
    "cursor_enter" := "dpad", "home" := "home", "back" := "home", "menu" := "menu", "context_menu" := "context_menu",
    "guide" := "guide", "info" := "info",
    "select_source" := "select_source", "select_sound_mode" := "select_sound_mode", "settings" := "settings",
    "play_media" := "play_media"]

  /** What stands before the first dot. */
  function Head(text: string): string {
    if text == "" || text[0] == '.' then "" else [text[0]] + Head(text[1..])
  }

  lemma {:induction false} HeadIsPrefix(text: string)
    ensures Head(text) <= text
  {
    if text != "" && text[0] != '.' {
      HeadIsPrefix(text[1..]);
      assert text == [text[0]] + text[1..];
    }
  }

  predicate IsDigitCommand(command: string) {
    |command| == 7 && command[..6] == "digit_" && '0' <= command[6] <= '9'
  }

  /** The feature a command of an entity type needs: only the part between the first and the second dot counts. */
  function FeatureFor(entityType: string, cmdId: string): Option<string> {
    var prefix := Head(cmdId);
    HeadIsPrefix(cmdId);
    if prefix != entityType || |prefix| == |cmdId| then None
    else
      var command := Head(cmdId[|prefix| + 1..]);
      if command == "" then None
      else if entityType == "media_player" then
        if IsDigitCommand(command) then Some("numpad")
        else if command in MEDIA_PLAYER_COMMAND_FEATURES then Some(MEDIA_PLAYER_COMMAND_FEATURES[command])
        else None
      else if entityType in {"light", "switch"} && command in {"on", "off"} then Some("on_off")
      else if entityType == "button" && command == "push" then Some("press")
      else Some(command)
  }

  function FeaturesFor(entityType: string, commands: seq<string>): seq<string> {
    if commands == [] then []
    else
      (match FeatureFor(entityType, commands[0]) case Some(f) => [f] case None => [])
        + FeaturesFor(entityType, commands[1..])
  }

  function Augmented(d: Descriptor, commands: seq<string>): Descriptor {
    if commands == [] then d else d.(features := Unique(Unique([], d.features), FeaturesFor(d.entityType, commands)))
  }

  method AugmentReferencedCapabilities(d: Descriptor, commands: seq<string>) returns (result: Descriptor)
    ensures result == Augmented(d, commands)
  {
    if commands == [] { return d; }
    var features := Unique([], d.features);
    for i := 0 to |commands|
      invariant Unique(features, FeaturesFor(d.entityType, commands[i..]))
                == Unique(Unique([], d.features), FeaturesFor(d.entityType, commands))
    {
      assert commands[i..][1..] == commands[i + 1..];
      ghost var before, rest := features, FeaturesFor(d.entityType, commands[i + 1..]);
      var feature := FeatureFor(d.entityType, commands[i]);
      if feature.Some? {
        features := Added(features, feature.value);
        UniqueAppend(before, [feature.value], rest);
      } else {
        assert [] + rest == rest;
      }
    }
    return d.(features := features);
  }

  /** Nothing is lost, and exactly the features that some command needs are added, none twice. */
  lemma {:induction false} AugmentedIsExact(d: Descriptor, commands: seq<string>, f: string)
    ensures f in Augmented(d, commands).features <==>
      f in d.features || exists c :: c in commands && FeatureFor(d.entityType, c) == Some(f)
    ensures Augmented(d, commands).(features := d.features) == d
    ensures commands != [] ==> Distinct(Augmented(d, commands).features)
  {
    UniqueIsExact([], d.features);
    UniqueIsExact(Unique([], d.features), FeaturesFor(d.entityType, commands));
    FeaturesForExact(d.entityType, commands, f);
  }

  lemma {:induction false} FeaturesForExact(entityType: string, commands: seq<string>, f: string)
    ensures f in FeaturesFor(entityType, commands) <==>
      exists c :: c in commands && FeatureFor(entityType, c) == Some(f)
  {
    if commands != [] {
      FeaturesForExact(entityType, commands[1..], f);
      assert commands == [commands[0]] + commands[1..];
      assert commands[0] in commands && forall c :: c in commands <==> c == commands[0] || c in commands[1..];
    }
  }

  // ---------------------------------------------------------------------------
  // Descriptors and their identities
  // ---------------------------------------------------------------------------

  const SUPPORTED_ENTITY_TYPES: set<string> := {
    "button", "climate", "cover", "light", "media_player", "remote", "select", "sensor", "switch"}

  const ENTITY_TYPE_ALIASES: map<string, string> := map[
    "binary_sensor" := "sensor", "input_boolean" := "switch", "input_button" := "button", "input_select" := "select",
    "scene" := "button", "script" := "button"]

  const DRIVER_PREFIX := "remote_sync.main."

  function ProxyLocalId(rules: Rules, source: string): string {
    "proxy_" + rules.sourceHash(source)
  }

  /** The order in which features are listed does not matter. */
  function CapabilityOf(d: Descriptor): Capability {
    Capability(d.entityType, Sorted(d.features, Below), d.deviceClass, d.options)
  }

  function CapabilityHash(rules: Rules, d: Descriptor): string {
    rules.capabilityHash(CapabilityOf(d))
  }

  function RevisedLocalId(rules: Rules, d: Descriptor): string {
    ProxyLocalId(rules, d.sourceEntityId) + "_" + CapabilityHash(rules, d)
  }

  function ProxyDescriptor(rules: Rules, source: Source, forceType: string): Option<Descriptor> {
    var declared := if forceType != "" then forceType else source.entityType;
    var entityType := if declared in ENTITY_TYPE_ALIASES then ENTITY_TYPE_ALIASES[declared] else declared;
    if source.id == "" || entityType !in SUPPORTED_ENTITY_TYPES then None
    else
      Some(Descriptor(ProxyLocalId(rules, source.id), DRIVER_PREFIX + ProxyLocalId(rules, source.id), source.id,
                      if source.entityType != "" then source.entityType else entityType,
                      entityType, Unique([], source.features), source.deviceClass, source.options, source.details))
  }

  /** The last entry of a source, as a table filled from the list keeps it. */
  function LastOf(entities: seq<Descriptor>, source: string): Option<Descriptor> {
    if entities == [] then None
    else if entities[|entities| - 1].sourceEntityId == source then Some(entities[|entities| - 1])
    else LastOf(entities[..|entities| - 1], source)
  }

  function PreserveOrReviseIdentity(rules: Rules, d: Descriptor, previous: seq<Descriptor>): Descriptor {
    match LastOf(previous, d.sourceEntityId)
    case None => d
    case Some(p) =>
      if CapabilityHash(rules, p) == CapabilityHash(rules, d) then
        var localId := if p.localId != "" then p.localId else ProxyLocalId(rules, d.sourceEntityId);
        d.(localId := localId,
           targetEntityId := if p.targetEntityId != "" then p.targetEntityId else DRIVER_PREFIX + localId)
      else
        var localId := RevisedLocalId(rules, d);
        d.(localId := localId, targetEntityId := DRIVER_PREFIX + localId)
  }

  // ---------------------------------------------------------------------------
  // Catalogs
  // ---------------------------------------------------------------------------

  datatype Input = Input(source: Source, forceType: string)

  function RemoteInput(r: Remote): Input {
    var own := match r.detail.options case Some(Obj(fields)) => fields case _ => [];
    var commands := if r.simpleCommands.Some? then Put(own, "simple_commands", Arr(r.simpleCommands.value)) else own;
    var buttons := if r.buttons.Some? then Put(commands, "button_mapping", r.buttons.value) else commands;
    var options := if r.ui.Some? then Put(buttons, "user_interface", r.ui.value) else buttons;
    Input(r.detail.(id := if r.sourceId != "" then r.sourceId else r.detail.id, options := Some(Obj(options))),
          "remote")
  }

  function Inputs(manifest: Manifest): seq<Input> {
    seq(|manifest.entities|, i requires 0 <= i < |manifest.entities| => Input(manifest.entities[i], ""))
    + seq(|manifest.remotes|, i requires 0 <= i < |manifest.remotes| => RemoteInput(manifest.remotes[i]))
  }

  /** What one record asks for, before its identity is settled. */
  function Described(rules: Rules, input: Input, data: Json): Option<Descriptor> {
    match ProxyDescriptor(rules, input.source, input.forceType)
    case None => None
    case Some(d) => Some(Augmented(d, Unique([], Referenced(data, d.sourceEntityId))))
  }

  function Made(rules: Rules, input: Input, data: Json, previous: seq<Descriptor>): Option<Descriptor> {
    match Described(rules, input, data)
    case None => None
    case Some(d) => Some(PreserveOrReviseIdentity(rules, d, previous))
  }

  /** Assignment in a table that remembers the order of insertion. */
  function Upsert(entities: seq<Descriptor>, d: Descriptor): seq<Descriptor> {
    if entities == [] then [d]
    else if entities[0].sourceEntityId == d.sourceEntityId then [d] + entities[1..]
    else [entities[0]] + Upsert(entities[1..], d)
  }

  function UpsertMaybe(entities: seq<Descriptor>, made: Option<Descriptor>): seq<Descriptor> {
    match made case None => entities case Some(d) => Upsert(entities, d)
  }

  function Assembled(rules: Rules, inputs: seq<Input>, data: Json, previous: seq<Descriptor>): seq<Descriptor> {
    if inputs == [] then []
    else
      var n := |inputs| - 1;
      UpsertMaybe(Assembled(rules, inputs[..n], data, previous), Made(rules, inputs[n], data, previous))
  }

  function BySource(below: (string, string) -> bool): (Descriptor, Descriptor) -> bool {
    (a: Descriptor, b: Descriptor) => below(a.sourceEntityId, b.sourceEntityId)
  }

  function MappingOf(entities: seq<Descriptor>): map<string, string> {
    if entities == [] then map[]
    else
      var n := |entities| - 1;
      MappingOf(entities[..n])[entities[n].sourceEntityId := entities[n].targetEntityId]
  }

  function CatalogOf(entities: seq<Descriptor>): Catalog {
    Catalog(entities, MappingOf(entities))
  }

  function Built(rules: Rules, manifest: Manifest, previous: Catalog): Catalog {
    CatalogOf(Sorted(Assembled(rules, Inputs(manifest), manifest.data, previous.entities), BySource(rules.below)))
  }

  method BuildProxyCatalog(rules: Rules, manifest: Manifest, previous: Catalog) returns (catalog: Catalog)
    ensures catalog == Built(rules, manifest, previous)
  {
    hide Made, Assembled, RemoteInput, Sorted;
    var commands := CollectReferencedCommands(manifest.data, map[]);
    ghost var inputs := Inputs(manifest);
    var descriptors := [];
    NothingAssembled(rules, manifest.data, previous.entities);
    for i := 0 to |manifest.entities|
      invariant descriptors == Assembled(rules, inputs[..i], manifest.data, previous.entities)
    {
      AssembledNext(rules, inputs, i, manifest.data, previous.entities);
      var made := MakeDescriptor(rules, manifest.entities[i], "", commands, manifest.data, previous.entities);
      descriptors := UpsertMaybe(descriptors, made);
    }
    for i := 0 to |manifest.remotes|
      invariant descriptors == Assembled(rules, inputs[..|manifest.entities| + i], manifest.data, previous.entities)
    {
      AssembledNext(rules, inputs, |manifest.entities| + i, manifest.data, previous.entities);
      var input := RemoteInput(manifest.remotes[i]);
      var made := MakeDescriptor(rules, input.source, input.forceType, commands, manifest.data, previous.entities);
      descriptors := UpsertMaybe(descriptors, made);
    }
    assert inputs[..|inputs|] == inputs;
    catalog := CatalogOf(Sorted(descriptors, BySource(rules.below)));
  }

  lemma NothingAssembled(rules: Rules, data: Json, previous: seq<Descriptor>)
    ensures Assembled(rules, [], data, previous) == []
  {}

  lemma {:induction false} AssembledNext(rules: Rules, inputs: seq<Input>, i: nat, data: Json,
                                         previous: seq<Descriptor>)
    requires i < |inputs|
    ensures Assembled(rules, inputs[..i + 1], data, previous)
      == UpsertMaybe(Assembled(rules, inputs[..i], data, previous), Made(rules, inputs[i], data, previous))
  {
    assert inputs[..i + 1][..i] == inputs[..i];
  }

  method MakeDescriptor(rules: Rules, source: Source, forceType: string, commands: Commands, ghost data: Json,
                        previous: seq<Descriptor>)
    returns (made: Option<Descriptor>)
    requires forall id :: CommandsFor(commands, id) == Unique([], Referenced(data, id))
    ensures made == Made(rules, Input(source, forceType), data, previous)
  {
    var descriptor := ProxyDescriptor(rules, source, forceType);
    if descriptor.None? { return None; }
    var d := AugmentReferencedCapabilities(descriptor.value, CommandsFor(commands, descriptor.value.sourceEntityId));
    return Some(PreserveOrReviseIdentity(rules, d, previous));
  }

  // ---------------------------------------------------------------------------
  // One entry per source
  // ---------------------------------------------------------------------------

  ghost predicate OnePerSource(entities: seq<Descriptor>) {
    forall i, j :: 0 <= i < j < |entities| ==> entities[i].sourceEntityId != entities[j].sourceEntityId
  }

  /** What the last usable record of a source asks for. */
  function Latest(rules: Rules, inputs: seq<Input>, data: Json, previous: seq<Descriptor>,
                  source: string): Option<Descriptor>
  {
    if inputs == [] then None
    else
      var n := |inputs| - 1;
      var made := Made(rules, inputs[n], data, previous);
      if made.Some? && made.value.sourceEntityId == source then made
      else Latest(rules, inputs[..n], data, previous, source)
  }

  function Lookup(entities: seq<Descriptor>, source: string): Option<Descriptor> {
    if entities == [] then None
    else if entities[0].sourceEntityId == source then Some(entities[0])
    else Lookup(entities[1..], source)
  }

  function Sources(entities: seq<Descriptor>): seq<string> {
    seq(|entities|, i requires 0 <= i < |entities| => entities[i].sourceEntityId)
  }

  lemma {:induction false} UpsertLookup(entities: seq<Descriptor>, d: Descriptor, source: string)
    ensures Lookup(Upsert(entities, d), source) == if source == d.sourceEntityId then Some(d)
      else Lookup(entities, source)
  {
    if entities != [] && entities[0].sourceEntityId != d.sourceEntityId { UpsertLookup(entities[1..], d, source); }
  }

  /** A table keeps the place of a source that it knows. */
  lemma {:induction false} UpsertSources(entities: seq<Descriptor>, d: Descriptor)
    ensures Sources(Upsert(entities, d)) == Added(Sources(entities), d.sourceEntityId)
  {
    if entities != [] {
      var rest := entities[1..];
      assert Sources(entities) == [entities[0].sourceEntityId] + Sources(rest);
      if entities[0].sourceEntityId == d.sourceEntityId {
        assert Upsert(entities, d)[1..] == rest;
        assert Sources(Upsert(entities, d)) == Sources(entities);
      } else {
        UpsertSources(rest, d);
        assert Upsert(entities, d)[1..] == Upsert(rest, d);
        assert Sources(Upsert(entities, d)) == [entities[0].sourceEntityId] + Sources(Upsert(rest, d));
      }
    }
  }

  lemma NoSources()
    ensures Distinct(Sources([]))
  {}

  lemma {:induction false} AssembledIsLatest(rules: Rules, inputs: seq<Input>, data: Json, previous: seq<Descriptor>)
    ensures Distinct(Sources(Assembled(rules, inputs, data, previous)))
    ensures forall source ::
      Lookup(Assembled(rules, inputs, data, previous), source) == Latest(rules, inputs, data, previous, source)
  {
    hide Made, Sources;
    if inputs == [] {
      NoSources();
    } else {
      var n := |inputs| - 1;
      var before, made := Assembled(rules, inputs[..n], data, previous), Made(rules, inputs[n], data, previous);
      AssembledIsLatest(rules, inputs[..n], data, previous);
      if made.Some? {
        UpsertSources(before, made.value);
        forall source { UpsertLookup(before, made.value, source); }
      }
    }
  }

  lemma {:induction false} FoundOnce(entities: seq<Descriptor>, i: nat)
    requires OnePerSource(entities) && i < |entities|
    ensures Lookup(entities, entities[i].sourceEntityId) == Some(entities[i])
  {
    if i > 0 {
      assert entities[0].sourceEntityId != entities[i].sourceEntityId;
      FoundOnce(entities[1..], i - 1);
    }
  }

  lemma {:induction false} FoundIsThere(entities: seq<Descriptor>, source: string)
    ensures Lookup(entities, source).Some? ==>
      Lookup(entities, source).value in entities && Lookup(entities, source).value.sourceEntityId == source
    ensures Lookup(entities, source).None? ==> forall d :: d in entities ==> d.sourceEntityId != source
  {
    if entities != [] {
      FoundIsThere(entities[1..], source);
      assert entities == [entities[0]] + entities[1..];
    }
  }

  lemma {:induction false} LastIsThere(entities: seq<Descriptor>, source: string)
    ensures LastOf(entities, source).Some? ==>
      LastOf(entities, source).value in entities && LastOf(entities, source).value.sourceEntityId == source
    ensures LastOf(entities, source).None? ==> forall d :: d in entities ==> d.sourceEntityId != source
  {
    if entities != [] {
      var n := |entities| - 1;
      LastIsThere(entities[..n], source);
      assert entities == entities[..n] + [entities[n]];
    }
  }

  ghost predicate Single(entities: seq<Descriptor>) {
    forall a, b :: a in entities && b in entities && a.sourceEntityId == b.sourceEntityId ==> a == b
  }

  /** With one entry per source it does not matter from which end a table is filled. */
  lemma LookupIsLast(entities: seq<Descriptor>, source: string)
    requires Single(entities)
    ensures Lookup(entities, source) == LastOf(entities, source)
  {
    FoundIsThere(entities, source);
    LastIsThere(entities, source);
  }

  lemma Prepended(d: Descriptor, rest: seq<Descriptor>)
    requires OnePerSource(rest) && forall e :: e in rest ==> e.sourceEntityId != d.sourceEntityId
    ensures OnePerSource([d] + rest)
  {}

  lemma {:induction false} Insertion(d: Descriptor, sorted: seq<Descriptor>, below: (Descriptor, Descriptor) -> bool)
    requires OnePerSource(sorted) && forall e :: e in sorted ==> e.sourceEntityId != d.sourceEntityId
    ensures OnePerSource(Insert(d, sorted, below))
    ensures forall e :: e in Insert(d, sorted, below) <==> e == d || e in sorted
  {
    if sorted == [] || !below(sorted[0], d) {
      Prepended(d, sorted);
    } else {
      Insertion(d, sorted[1..], below);
      assert sorted == [sorted[0]] + sorted[1..];
      Prepended(sorted[0], Insert(d, sorted[1..], below));
    }
  }

  lemma {:induction false} SortKeepsEntries(entities: seq<Descriptor>, below: (Descriptor, Descriptor) -> bool)
    requires OnePerSource(entities)
    ensures OnePerSource(Sorted(entities, below))
    ensures forall e :: e in Sorted(entities, below) <==> e in entities
  {
    if entities != [] {
      SortKeepsEntries(entities[1..], below);
      Insertion(entities[0], Sorted(entities[1..], below), below);
      assert entities == [entities[0]] + entities[1..];
    }
  }

  lemma SortKeepsLookup(entities: seq<Descriptor>, below: (Descriptor, Descriptor) -> bool, source: string)
    requires OnePerSource(entities)
    ensures Lookup(Sorted(entities, below), source) == Lookup(entities, source)
  {
    SortKeepsEntries(entities, below);
    FoundIsThere(entities, source);
    FoundIsThere(Sorted(entities, below), source);
  }

  lemma DistinctSources(entities: seq<Descriptor>)
    requires Distinct(Sources(entities))
    ensures OnePerSource(entities)
  {
    forall i, j | 0 <= i < j < |entities| ensures entities[i].sourceEntityId != entities[j].sourceEntityId {
      assert Sources(entities)[i] != Sources(entities)[j];
    }
  }

  lemma {:induction false} MappingAgrees(entities: seq<Descriptor>)
    requires OnePerSource(entities)
    ensures forall source :: source in MappingOf(entities) <==> Lookup(entities, source).Some?
    ensures forall source :: source in MappingOf(entities) ==>
      MappingOf(entities)[source] == Lookup(entities, source).value.targetEntityId
  {
    forall source
      ensures source in MappingOf(entities) <==> Lookup(entities, source).Some?
      ensures source in MappingOf(entities) ==>
        MappingOf(entities)[source] == Lookup(entities, source).value.targetEntityId
    {
      MappingIsLast(entities, source);
      LookupIsLast(entities, source);
    }
  }

  lemma {:induction false} MappingIsLast(entities: seq<Descriptor>, source: string)
    ensures source in MappingOf(entities) <==> LastOf(entities, source).Some?
    ensures source in MappingOf(entities) ==>
      MappingOf(entities)[source] == LastOf(entities, source).value.targetEntityId
  {
    if entities != [] { MappingIsLast(entities[..|entities| - 1], source); }
  }

  /** Whatever the previous catalog: there is one entry per source, it is what the last usable record of that
      source asks for, and the mapping has exactly the sources of the entries and leads to their targets. */
  lemma {:induction false} CatalogIsExact(rules: Rules, manifest: Manifest, previous: Catalog, source: string)
    ensures var c := Built(rules, manifest, previous);
      && OnePerSource(c.entities)
      && Lookup(c.entities, source) == Latest(rules, Inputs(manifest), manifest.data, previous.entities, source)
      && (source in c.mapping <==> Lookup(c.entities, source).Some?)
      && (source in c.mapping ==> c.mapping[source] == Lookup(c.entities, source).value.targetEntityId)
  {
    hide Sorted, Assembled, Latest, Lookup, MappingOf, OnePerSource, Sources;
    var entities := Assembled(rules, Inputs(manifest), manifest.data, previous.entities);
    AssembledIsLatest(rules, Inputs(manifest), manifest.data, previous.entities);
    DistinctSources(entities);
    SortKeepsEntries(entities, BySource(rules.below));
    SortKeepsLookup(entities, BySource(rules.below), source);
    MappingAgrees(Sorted(entities, BySource(rules.below)));
  }

  // ---------------------------------------------------------------------------
  // Identity over runs
  // ---------------------------------------------------------------------------

  /** The catalog after a sequence of manifests, from nothing. */
  function Run(rules: Rules, manifests: seq<Manifest>): Catalog {
    if manifests == [] then EMPTY
    else
      var n := |manifests| - 1;
      Built(rules, manifests[n], Run(rules, manifests[..n]))
  }

  /** A run goes on from the catalog it has come to. */
  lemma RunGoesOn(rules: Rules, manifests: seq<Manifest>, next: Manifest)
    ensures Run(rules, []) == Catalog([], map[])
    ensures Run(rules, manifests + [next]) == Built(rules, next, Run(rules, manifests))
  {
    hide Built;
    assert (manifests + [next])[..|manifests|] == manifests;
  }

  /** The id is the plain one of the source or the one revised for the present capability. */
  predicate OwnIdentity(rules: Rules, d: Descriptor) {
    && d.sourceEntityId != ""
    && d.localId in {ProxyLocalId(rules, d.sourceEntityId), RevisedLocalId(rules, d)}
    && d.targetEntityId == DRIVER_PREFIX + d.localId
  }

  lemma LatestComesFrom(rules: Rules, inputs: seq<Input>, data: Json, previous: seq<Descriptor>, source: string)
    requires Latest(rules, inputs, data, previous, source).Some?
    ensures exists i ::
      0 <= i < |inputs| && Made(rules, inputs[i], data, previous) == Latest(rules, inputs, data, previous, source)
    ensures Latest(rules, inputs, data, previous, source).value.sourceEntityId == source
  {
    var n := |inputs| - 1;
    var made := Made(rules, inputs[n], data, previous);
    if !(made.Some? && made.value.sourceEntityId == source) {
      LatestComesFrom(rules, inputs[..n], data, previous, source);
      var i :|
        0 <= i < n && Made(rules, inputs[..n][i], data, previous) == Latest(rules, inputs[..n], data, previous, source);
      assert inputs[..n][i] == inputs[i];
    }
  }

  lemma DescribedIdentity(rules: Rules, input: Input, data: Json)
    requires Described(rules, input, data).Some?
    ensures var d := Described(rules, input, data).value;
      d.sourceEntityId != "" && d.localId == ProxyLocalId(rules, d.sourceEntityId)
        && d.targetEntityId == DRIVER_PREFIX + d.localId
  {}

  /** An entry keeps the id it had as long as its capability hash stays, and gets the revised one otherwise. */
  lemma {:induction false} MadeIdentity(rules: Rules, input: Input, data: Json, previous: seq<Descriptor>)
    requires Made(rules, input, data, previous).Some?
    ensures var d := Made(rules, input, data, previous).value; var p := LastOf(previous, d.sourceEntityId);
      && (p.None? ==> d.localId == ProxyLocalId(rules, d.sourceEntityId) && OwnIdentity(rules, d))
      && (p.Some? && OwnIdentity(rules, p.value) && p.value.sourceEntityId == d.sourceEntityId ==>
        && OwnIdentity(rules, d)
        && (CapabilityHash(rules, p.value) == CapabilityHash(rules, d) ==> d.localId == p.value.localId)
        && (CapabilityHash(rules, p.value) != CapabilityHash(rules, d) ==> d.localId == RevisedLocalId(rules, d)))
  {
    hide Described, CapabilityOf, ProxyLocalId;
    DescribedIdentity(rules, input, data);
    var d0 := Described(rules, input, data).value;
    var d := Made(rules, input, data, previous).value;
    SameCapability(d0, d);
    var p := LastOf(previous, d.sourceEntityId);
    if p.Some? && p.value.localId == "" && OwnIdentity(rules, p.value) { NotEmpty(rules, p.value); }
  }

  lemma SameCapability(a: Descriptor, b: Descriptor)
    requires a.entityType == b.entityType && a.features == b.features && a.deviceClass == b.deviceClass
      && a.options == b.options
    ensures CapabilityOf(a) == CapabilityOf(b)
  {}

  lemma NotEmpty(rules: Rules, d: Descriptor)
    requires OwnIdentity(rules, d)
    ensures d.localId != ""
  {}

  lemma {:induction false} RunKeepsIdentity(rules: Rules, manifests: seq<Manifest>)
    ensures var c := Run(rules, manifests);
      OnePerSource(c.entities) && Single(c.entities) && forall d :: d in c.entities ==> OwnIdentity(rules, d)
  {
    hide OwnIdentity, Latest, Made, Built, OnePerSource, Single;
    if manifests == [] {
      NoEntries();
    } else {
      var n := |manifests| - 1;
      RunKeepsIdentity(rules, manifests[..n]);
      BuildKeepsIdentity(rules, manifests[n], Run(rules, manifests[..n]));
    }
  }

  lemma NoEntries()
    ensures OnePerSource([]) && Single([])
  {}

  lemma {:induction false} BuildKeepsIdentity(rules: Rules, manifest: Manifest, previous: Catalog)
    requires forall d :: d in previous.entities ==> OwnIdentity(rules, d)
    ensures var c := Built(rules, manifest, previous);
      OnePerSource(c.entities) && Single(c.entities) && forall d :: d in c.entities ==> OwnIdentity(rules, d)
  {
    hide OwnIdentity, Latest, Made, Built, Lookup;
    var c := Built(rules, manifest, previous);
    CatalogIsExact(rules, manifest, previous, "");
    forall d, e | d in c.entities && e in c.entities && d.sourceEntityId == e.sourceEntityId ensures d == e {
      var i :| 0 <= i < |c.entities| && c.entities[i] == d;
      var j :| 0 <= j < |c.entities| && c.entities[j] == e;
      FoundOnce(c.entities, i);
      FoundOnce(c.entities, j);
    }
    forall d | d in c.entities ensures OwnIdentity(rules, d) {
      var i :| 0 <= i < |c.entities| && c.entities[i] == d;
      FoundOnce(c.entities, i);
      EntryIdentity(rules, manifest, previous, d);
    }
  }

  /** An entry of a built catalog against the previous one. */
  lemma {:induction false} EntryIdentity(rules: Rules, manifest: Manifest, previous: Catalog, d: Descriptor)
    requires forall p :: p in previous.entities ==> OwnIdentity(rules, p)
    requires Lookup(Built(rules, manifest, previous).entities, d.sourceEntityId) == Some(d)
    ensures OwnIdentity(rules, d)
    ensures var p := LastOf(previous.entities, d.sourceEntityId);
      && (p.None? ==> d.localId == ProxyLocalId(rules, d.sourceEntityId))
      && (p.Some? && CapabilityHash(rules, p.value) == CapabilityHash(rules, d) ==> d.localId == p.value.localId)
      && (p.Some? && CapabilityHash(rules, p.value) != CapabilityHash(rules, d) ==>
          d.localId == RevisedLocalId(rules, d))
  {
    hide OwnIdentity, Latest, Made, Built, CapabilityHash;
    CatalogIsExact(rules, manifest, previous, d.sourceEntityId);
    var inputs := Inputs(manifest);
    LatestComesFrom(rules, inputs, manifest.data, previous.entities, d.sourceEntityId);
    var i :| 0 <= i < |inputs| && Made(rules, inputs[i], manifest.data, previous.entities) == Some(d);
    MadeIdentity(rules, inputs[i], manifest.data, previous.entities);
    LastIsThere(previous.entities, d.sourceEntityId);
  }

  /** What follows the hash of the source in an id. */
  function Revision(rules: Rules, d: Descriptor): string {
    if d.localId == ProxyLocalId(rules, d.sourceEntityId) then "" else "_" + CapabilityHash(rules, d)
  }

  lemma TargetParts(rules: Rules, d: Descriptor)
    requires Shortened(rules) && OwnIdentity(rules, d)
    ensures |d.targetEntityId| >= 47 && d.targetEntityId[23..47] == rules.sourceHash(d.sourceEntityId)
    ensures d.targetEntityId[47..] == Revision(rules, d)
    ensures d.targetEntityId == DRIVER_PREFIX + "proxy_" + rules.sourceHash(d.sourceEntityId) + Revision(rules, d)
  {
    hide CapabilityHash;
    assert DRIVER_PREFIX + "proxy_" == "remote_sync.main.proxy_";
    assert d.targetEntityId == "remote_sync.main.proxy_" + rules.sourceHash(d.sourceEntityId) + Revision(rules, d);
  }

  lemma {:induction false} TargetIsShared(rules: Rules, a: Descriptor, b: Descriptor)
    requires Shortened(rules) && OwnIdentity(rules, a) && OwnIdentity(rules, b)
    ensures a.targetEntityId == b.targetEntityId <==>
      && rules.sourceHash(a.sourceEntityId) == rules.sourceHash(b.sourceEntityId)
      && Revision(rules, a) == Revision(rules, b)
  {
    hide Revision, OwnIdentity;
    TargetParts(rules, a);
    TargetParts(rules, b);
  }

  /** Two entries of any catalogs, after one run or after different ones, share a target exactly when the hashes of
      their sources and their revisions are equal. */
  lemma {:induction false} TargetsAreShared(rules: Rules, one: seq<Manifest>, other: seq<Manifest>)
    requires Shortened(rules)
    ensures forall a, b :: a in Run(rules, one).entities && b in Run(rules, other).entities ==>
      (a.targetEntityId == b.targetEntityId <==>
       && rules.sourceHash(a.sourceEntityId) == rules.sourceHash(b.sourceEntityId)
       && Revision(rules, a) == Revision(rules, b))
  {
    hide Run, Single, OnePerSource, Revision, OwnIdentity, Shortened;
    RunKeepsIdentity(rules, one);
    RunKeepsIdentity(rules, other);
    forall a, b | a in Run(rules, one).entities && b in Run(rules, other).entities
      ensures a.targetEntityId == b.targetEntityId <==>
        && rules.sourceHash(a.sourceEntityId) == rules.sourceHash(b.sourceEntityId)
        && Revision(rules, a) == Revision(rules, b)
    {
      TargetIsShared(rules, a, b);
    }
  }

  /** No two of these entries have sources with one hash. */
  ghost predicate HashesApart(rules: Rules, entities: seq<Descriptor>) {
    forall a, b :: a in entities && b in entities && a.sourceEntityId != b.sourceEntityId ==>
      rules.sourceHash(a.sourceEntityId) != rules.sourceHash(b.sourceEntityId)
  }

  /** As long as the hashes of the sources in them differ, two catalogs never have one target for different sources,
      so that no target passes from one source to another over a run; and a single catalog never has it twice. */
  lemma {:induction false} DistinctTargets(rules: Rules, one: seq<Manifest>, other: seq<Manifest>)
    requires Shortened(rules)
    ensures HashesApart(rules, Run(rules, one).entities + Run(rules, other).entities) ==>
      forall a, b :: a in Run(rules, one).entities && b in Run(rules, other).entities ==>
        a.targetEntityId == b.targetEntityId ==> a.sourceEntityId == b.sourceEntityId
    ensures HashesApart(rules, Run(rules, one).entities) ==>
      forall a, b :: a in Run(rules, one).entities && b in Run(rules, one).entities ==>
        a.targetEntityId == b.targetEntityId ==> a == b
  {
    hide Run, OnePerSource, Revision;
    RunKeepsIdentity(rules, one);
    TargetsAreShared(rules, one, other);
    TargetsAreShared(rules, one, one);
  }

  /** In the first catalog different sources have different targets exactly when their hashes differ. */
  lemma {:induction false} FirstTargetsDiffer(rules: Rules, manifest: Manifest)
    requires Shortened(rules)
    ensures var entities := Run(rules, [manifest]).entities;
      (forall a, b :: a in entities && b in entities && a.targetEntityId == b.targetEntityId ==> a == b)
      <==> HashesApart(rules, entities)
  {
    hide Run, OnePerSource, Revision;
    var entities := Run(rules, [manifest]).entities;
    RunKeepsIdentity(rules, [manifest]);
    forall a | a in entities ensures Revision(rules, a) == "" {
      FirstIdIsPlain(rules, manifest, a);
    }
    TargetsAreShared(rules, [manifest], [manifest]);
  }

  lemma FirstIdIsPlain(rules: Rules, manifest: Manifest, d: Descriptor)
    requires d in Run(rules, [manifest]).entities
    ensures Revision(rules, d) == ""
  {
    hide Built, OnePerSource, Lookup, LastOf;
    assert [manifest][..0] == [];
    RunKeepsIdentity(rules, [manifest]);
    var i :| 0 <= i < |Run(rules, [manifest]).entities| && Run(rules, [manifest]).entities[i] == d;
    IdChangesExactlyWithCapability(rules, [], manifest, d.sourceEntityId);
    FoundOnce(Run(rules, [manifest]).entities, i);
    assert Run(rules, [] + [manifest]) == Run(rules, [manifest]) by { assert [] + [manifest] == [manifest]; }
    NothingFound(d.sourceEntityId);
  }

  lemma NothingFound(source: string)
    ensures Lookup([], source).None?
  {}

  /** Over any run, an entity that is in two consecutive catalogs changes its id exactly when the hash of its
      capabilities changes, and one that was not in the previous catalog starts with its plain id. */
  lemma {:induction false} IdChangesExactlyWithCapability(rules: Rules, manifests: seq<Manifest>, next: Manifest,
                                                          source: string)
    ensures var before := Run(rules, manifests); var after := Run(rules, manifests + [next]);
      match (Lookup(before.entities, source), Lookup(after.entities, source))
      case (Some(p), Some(d)) =>
        (p.localId == d.localId <==> CapabilityHash(rules, p) == CapabilityHash(rules, d))
        && (p.targetEntityId == d.targetEntityId <==> p.localId == d.localId)
      case (None, Some(d)) => d.localId == ProxyLocalId(rules, source)
      case _ => true
  {
    hide Built, Lookup, LastOf, OnePerSource, Single, CapabilityHash;
    var before, after := Run(rules, manifests), Run(rules, manifests + [next]);
    assert (manifests + [next])[..|manifests|] == manifests;
    RunKeepsIdentity(rules, manifests);
    LookupIsLast(before.entities, source);
    FoundIsThere(after.entities, source);
    FoundIsThere(before.entities, source);
    var found := Lookup(after.entities, source);
    if found.Some? {
      EntryIdentity(rules, next, before, found.value);
      if Lookup(before.entities, source).Some? {
        NewIdDiffers(rules, Lookup(before.entities, source).value, found.value);
      }
    }
  }

  lemma NewIdDiffers(rules: Rules, p: Descriptor, d: Descriptor)
    requires OwnIdentity(rules, p) && OwnIdentity(rules, d) && p.sourceEntityId == d.sourceEntityId
    ensures p.targetEntityId == d.targetEntityId <==> p.localId == d.localId
    ensures CapabilityHash(rules, p) != CapabilityHash(rules, d) && d.localId == RevisedLocalId(rules, d) ==>
      p.localId != d.localId
  {
    hide CapabilityHash;
    var base := ProxyLocalId(rules, d.sourceEntityId);
    assert p.targetEntityId[17..] == p.localId && d.targetEntityId[17..] == d.localId;
    if p.localId == RevisedLocalId(rules, p) { assert p.localId[|base| + 1..] == CapabilityHash(rules, p); }
    if d.localId == RevisedLocalId(rules, d) { assert d.localId[|base| + 1..] == CapabilityHash(rules, d); }
  }

  /** Listing the same features in another order changes no capability. */
  lemma FeatureOrderDoesNotMatter(d: Descriptor, features: seq<string>)
    requires multiset(features) == multiset(d.features)
    ensures CapabilityOf(d.(features := features)) == CapabilityOf(d)
  {
    hide WeakOrder, NoTies;
    BelowIsOrder();
    NoTiesBelow(multiset(features));
    SortIsCanonical(features, d.features, Below);
  }

  // ---------------------------------------------------------------------------
  // Rebuilding
  // ---------------------------------------------------------------------------

  /** Which sources get an entry, and in which order, does not depend on the previous catalog. */
  lemma {:induction false} SameSources(rules: Rules, inputs: seq<Input>, data: Json, a: seq<Descriptor>,
                                       b: seq<Descriptor>)
    ensures Sources(Assembled(rules, inputs, data, a)) == Sources(Assembled(rules, inputs, data, b))
  {
    hide Described, Sources;
    if inputs != [] {
      var n := |inputs| - 1;
      SameSources(rules, inputs[..n], data, a, b);
      var made, other := Made(rules, inputs[n], data, a), Made(rules, inputs[n], data, b);
      if made.Some? {
        UpsertSources(Assembled(rules, inputs[..n], data, a), made.value);
        UpsertSources(Assembled(rules, inputs[..n], data, b), other.value);
      }
    }
  }

  lemma SameEntries(a: seq<Descriptor>, b: seq<Descriptor>)
    requires Sources(a) == Sources(b) && OnePerSource(a) && OnePerSource(b)
    requires forall source :: Lookup(a, source) == Lookup(b, source)
    ensures a == b
  {
    assert |Sources(a)| == |a| && |Sources(b)| == |b|;
    forall i | 0 <= i < |a| ensures a[i] == b[i] {
      assert Sources(a)[i] == Sources(b)[i];
      FoundOnce(a, i);
      FoundOnce(b, i);
    }
  }

  /** Settling an identity against the entry that it led to changes nothing. */
  lemma {:induction false} PreservedAgain(rules: Rules, input: Input, data: Json, previous: seq<Descriptor>,
                                          later: seq<Descriptor>)
    requires Made(rules, input, data, previous).Some?
    requires LastOf(later, Made(rules, input, data, previous).value.sourceEntityId)
      == Made(rules, input, data, previous)
    ensures Made(rules, input, data, later) == Made(rules, input, data, previous)
  {
    hide Described, CapabilityOf, LastOf;
    var d, e := Described(rules, input, data).value, Made(rules, input, data, previous).value;
    DescribedIdentity(rules, input, data);
    SameCapability(d, e);
    assert e.sourceEntityId == d.sourceEntityId;
    assert e.localId != "" && e.targetEntityId != "";
  }

  lemma {:induction false} LatestAgain(rules: Rules, inputs: seq<Input>, data: Json, previous: seq<Descriptor>,
                                       later: seq<Descriptor>, source: string)
    requires LastOf(later, source) == Latest(rules, inputs, data, previous, source)
      || Latest(rules, inputs, data, previous, source).None?
    ensures Latest(rules, inputs, data, later, source) == Latest(rules, inputs, data, previous, source)
  {
    hide Described, LastOf;
    if inputs != [] {
      var n := |inputs| - 1;
      var made := Made(rules, inputs[n], data, previous);
      if made.Some? && made.value.sourceEntityId == source {
        PreservedAgain(rules, inputs[n], data, previous, later);
      } else {
        LatestAgain(rules, inputs[..n], data, previous, later, source);
      }
    }
  }

  /** Building again from the same manifest changes nothing, whatever the catalog before the first time. */
  lemma {:induction false} RebuildIsFixed(rules: Rules, manifest: Manifest, previous: Catalog)
    ensures var c := Built(rules, manifest, previous); Built(rules, manifest, c) == c
  {
    hide Assembled, Latest, Lookup, LastOf, Sources, OnePerSource, Sorted, MappingOf;
    var c := Built(rules, manifest, previous);
    var inputs, data := Inputs(manifest), manifest.data;
    var once, again := Assembled(rules, inputs, data, previous.entities), Assembled(rules, inputs, data, c.entities);
    SameSources(rules, inputs, data, previous.entities, c.entities);
    AssembledIsLatest(rules, inputs, data, previous.entities);
    AssembledIsLatest(rules, inputs, data, c.entities);
    DistinctSources(once);
    DistinctSources(again);
    SingleEntries(rules, manifest, previous);
    forall source ensures Lookup(again, source) == Lookup(once, source) {
      CatalogIsExact(rules, manifest, previous, source);
      LookupIsLast(c.entities, source);
      LatestAgain(rules, inputs, data, previous.entities, c.entities, source);
    }
    SameEntries(again, once);
  }

  lemma {:induction false} SingleEntries(rules: Rules, manifest: Manifest, previous: Catalog)
    ensures Single(Built(rules, manifest, previous).entities)
  {
    hide Built, Lookup, Latest;
    var c := Built(rules, manifest, previous);
    CatalogIsExact(rules, manifest, previous, "");
    forall d, e | d in c.entities && e in c.entities && d.sourceEntityId == e.sourceEntityId ensures d == e {
      var i :| 0 <= i < |c.entities| && c.entities[i] == d;
      var j :| 0 <= j < |c.entities| && c.entities[j] == e;
      FoundOnce(c.entities, i);
      FoundOnce(c.entities, j);
    }
  }
}
