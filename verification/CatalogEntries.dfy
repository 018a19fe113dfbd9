/** What stands in an entry of a catalog, in terms of the record it was made from. */
module CatalogEntries {
  import opened Options
  import opened Json
  import opened Ordering
  import opened Catalog

  // ---------------------------------------------------------------------------
  // Features
  // ---------------------------------------------------------------------------

  /** Commands that are features of the same name. */
  predicate NamesItself(command: string) {
    Moves(command) || Sounds(command) || Shows(command)
  }

  predicate Moves(command: string) {
    || command == "toggle" || command == "play_pause" || command == "stop" || command == "previous"
    || command == "next" || command == "fast_forward" || command == "rewind" || command == "seek"
  }

  predicate Sounds(command: string) {
    || command == "volume" || command == "mute_toggle" || command == "mute" || command == "unmute"
    || command == "repeat" || command == "shuffle" || command == "select_source" || command == "select_sound_mode"
  }

  predicate Shows(command: string) {
    || command == "home" || command == "menu" || command == "context_menu" || command == "guide"
    || command == "info" || command == "settings" || command == "play_media"
  }

  predicate IsDigit(command: string) {
    || command == "digit_0" || command == "digit_1" || command == "digit_2" || command == "digit_3"
    || command == "digit_4" || command == "digit_5" || command == "digit_6" || command == "digit_7"
    || command == "digit_8" || command == "digit_9"
  }

  predicate IsCursor(command: string) {
    || command == "cursor_up" || command == "cursor_down" || command == "cursor_left" || command == "cursor_right"
    || command == "cursor_enter"
  }

  /** The feature of a media player that a command stands for. */
  function MediaFeature(command: string): Option<string> {
    if IsDigit(command) then Some("numpad")
    else if NamesItself(command) then Some(command)
    else if command == "on" || command == "off" then Some("on_off")
    else if command == "volume_up" || command == "volume_down" then Some("volume_up_down")
    else if command == "channel_up" || command == "channel_down" then Some("channel_switcher")
    else if command == "back" then Some("home")
    else if IsCursor(command) then Some("dpad")
    else None
  }

  /** The feature that a command of an entity of this type stands for. */
  function Needed(entityType: string, command: string): Option<string> {
    if command == "" then None
    else if entityType == "media_player" then MediaFeature(command)
    else if (entityType == "light" || entityType == "switch") && (command == "on" || command == "off")
      then Some("on_off")
    else if entityType == "button" && command == "push" then Some("press")
    else Some(command)
  }

  lemma {:induction false} HeadOf(text: string, more: string)
    requires '.' !in text && (more == "" || more[0] == '.')
    ensures Head(text + more) == text
  {
    if text == "" {
      assert text + more == more;
    } else {
      assert (text + more)[1..] == text[1..] + more;
      HeadOf(text[1..], more);
    }
  }

  lemma MediaTable(command: string)
    ensures MediaFeature(command) ==
      if IsDigitCommand(command) then Some("numpad")
      else if command in MEDIA_PLAYER_COMMAND_FEATURES then Some(MEDIA_PLAYER_COMMAND_FEATURES[command]) else None
  {
    hide MEDIA_PLAYER_COMMAND_FEATURES, IsDigitCommand, Moves, Sounds, Shows, IsDigit, IsCursor;
    DigitsAreDigits(command);
    MovesInTable(command);
    SoundsInTable(command);
    ShowsInTable(command);
    OthersInTable(command);
    NothingElseInTable(command);
  }

  lemma MovesInTable(command: string)
    ensures Moves(command) ==>
      command in MEDIA_PLAYER_COMMAND_FEATURES && MEDIA_PLAYER_COMMAND_FEATURES[command] == command
  {}

  lemma SoundsInTable(command: string)
    ensures Sounds(command) ==>
      command in MEDIA_PLAYER_COMMAND_FEATURES && MEDIA_PLAYER_COMMAND_FEATURES[command] == command
  {}

  lemma ShowsInTable(command: string)
    ensures Shows(command) ==>
      command in MEDIA_PLAYER_COMMAND_FEATURES && MEDIA_PLAYER_COMMAND_FEATURES[command] == command
  {}

  lemma OthersInTable(command: string)
    ensures var table := MEDIA_PLAYER_COMMAND_FEATURES;
      && (command == "on" || command == "off" ==> command in table && table[command] == "on_off")
      && (command == "volume_up" || command == "volume_down" ==> command in table && table[command] == "volume_up_down")
      && (command == "channel_up" || command == "channel_down" ==>
          command in table && table[command] == "channel_switcher")
      && (command == "back" ==> command in table && table[command] == "home")
      && (IsCursor(command) ==> command in table && table[command] == "dpad")
  {}

  lemma NothingElseInTable(command: string)
    ensures command in MEDIA_PLAYER_COMMAND_FEATURES ==>
      || NamesItself(command) || IsCursor(command) || command == "on" || command == "off" || command == "volume_up"
      || command == "volume_down" || command == "channel_up" || command == "channel_down" || command == "back"
  {}

  lemma DigitsAreDigits(command: string)
    ensures IsDigit(command) <==> IsDigitCommand(command)
    ensures IsDigitCommand(command) ==> command !in MEDIA_PLAYER_COMMAND_FEATURES
  {
    if IsDigitCommand(command) {
      assert command == "digit_" + [command[6]];
      assert command[0] == 'd' && command[1] == 'i';
    }
  }

  /** A command counts when it begins with the type of its entity and a dot; what stands between that dot and the
      next one says which feature it needs. */
  lemma {:induction false} FeatureIsExact(entityType: string, command: string, more: string)
    requires '.' !in entityType && '.' !in command && (more == "" || more[0] == '.')
    ensures FeatureFor(entityType, entityType + "." + command + more) == Needed(entityType, command)
  {
    hide MediaFeature, IsDigitCommand, MEDIA_PLAYER_COMMAND_FEATURES, Head;
    var cmdId := entityType + "." + command + more;
    assert cmdId == entityType + ("." + command + more);
    HeadOf(entityType, "." + command + more);
    assert cmdId[|entityType| + 1..] == command + more;
    HeadOf(command, more);
    MediaTable(command);
  }

  /** A command without a dot, or of another type, needs nothing. */
  lemma {:induction false} ForeignCommands(entityType: string, other: string, more: string)
    requires '.' !in other && (more == "" || more[0] == '.') && (other != entityType || more == "")
    ensures FeatureFor(entityType, other + more) == None
  {
    hide Head;
    HeadOf(other, more);
  }

  // ---------------------------------------------------------------------------
  // Types
  // ---------------------------------------------------------------------------

  /** The type of a proxy: an alias stands for another type, and only these types have proxies. */
  function ProxyType(declared: string): Option<string> {
    if declared == "binary_sensor" then Some("sensor")
    else if declared == "input_boolean" then Some("switch")
    else if declared == "input_select" then Some("select")
    else if declared == "input_button" || declared == "scene" || declared == "script" then Some("button")
    else if declared == "button" || declared == "climate" || declared == "cover" || declared == "light"
      || declared == "media_player" || declared == "remote" || declared == "select" || declared == "sensor"
      || declared == "switch" then Some(declared)
    else None
  }

  lemma TypesAreExact(declared: string)
    ensures var entityType := if declared in ENTITY_TYPE_ALIASES then ENTITY_TYPE_ALIASES[declared] else declared;
      ProxyType(declared) == if entityType in SUPPORTED_ENTITY_TYPES then Some(entityType) else None
  {}

  /** What a remote of the Primary is shown with: the options it has, its own commands, its buttons and its pages. */
  lemma {:induction false} RemoteIsShown(r: Remote, key: string)
    ensures var input := RemoteInput(r);
      && input.forceType == "remote"
      && input.source.id == (if r.sourceId != "" then r.sourceId else r.detail.id)
      && input.source.entityType == r.detail.entityType && input.source.features == r.detail.features
      && input.source.deviceClass == r.detail.deviceClass && input.source.details == r.detail.details
      && input.source.options.Some? && input.source.options.value.Obj?
      && Get(input.source.options.value.fields, key) ==
        if key == "user_interface" && r.ui.Some? then r.ui
        else if key == "button_mapping" && r.buttons.Some? then r.buttons
        else if key == "simple_commands" && r.simpleCommands.Some? then Some(Arr(r.simpleCommands.value))
        else if r.detail.options.Some? && r.detail.options.value.Obj? then Get(r.detail.options.value.fields, key)
        else None
  {
    hide Put, Get;
    NothingThere(key);
    var own := match r.detail.options case Some(Obj(fields)) => fields case _ => [];
    var commands := if r.simpleCommands.Some? then Put(own, "simple_commands", Arr(r.simpleCommands.value)) else own;
    var buttons := if r.buttons.Some? then Put(commands, "button_mapping", r.buttons.value) else commands;
    if r.simpleCommands.Some? { GetPut(own, "simple_commands", Arr(r.simpleCommands.value), key); }
    if r.buttons.Some? { GetPut(commands, "button_mapping", r.buttons.value, key); }
    if r.ui.Some? { GetPut(buttons, "user_interface", r.ui.value, key); }
  }

  lemma NothingThere(key: string)
    ensures Get([], key) == None
  {}

  // ---------------------------------------------------------------------------
  // Entries
  // ---------------------------------------------------------------------------

  /** The entry shows this record: its type, its own features and those that commands in the data need, and the rest as
      it is. */
  ghost predicate ShowsRecord(d: Descriptor, input: Input, data: Json) {
    var declared := if input.forceType != "" then input.forceType else input.source.entityType;
    && input.source.id != "" && d.sourceEntityId == input.source.id
    && ProxyType(declared) == Some(d.entityType)
    && d.sourceType == (if input.source.entityType != "" then input.source.entityType else d.entityType)
    && d.deviceClass == input.source.deviceClass && d.options == input.source.options
    && d.details == input.source.details
    && Distinct(d.features)
    && forall f :: f in d.features <==>
         f in input.source.features
           || exists c :: Uses(data, d.sourceEntityId, c) && FeatureFor(d.entityType, c) == Some(f)
  }

  lemma {:induction false} DescribedShows(rules: Rules, input: Input, data: Json)
    ensures match Described(rules, input, data)
      case Some(d) => ShowsRecord(d, input, data)
      case None =>
        input.source.id == ""
        || ProxyType(if input.forceType != "" then input.forceType else input.source.entityType).None?
  {
    hide ProxyType, Uses, FeatureFor, Referenced, Unique, ENTITY_TYPE_ALIASES, SUPPORTED_ENTITY_TYPES, Augmented;
    TypesAreExact(if input.forceType != "" then input.forceType else input.source.entityType);
    var made := ProxyDescriptor(rules, input.source, input.forceType);
    if made.Some? {
      var d := made.value;
      var commands := Unique([], Referenced(data, d.sourceEntityId));
      UniqueIsExact([], input.source.features);
      UniqueIsExact([], Referenced(data, d.sourceEntityId));
      NothingToAdd(d);
      forall f
        ensures f in Augmented(d, commands).features <==>
          || f in input.source.features
          || exists c :: Uses(data, d.sourceEntityId, c) && FeatureFor(d.entityType, c) == Some(f)
      {
        AugmentedIsExact(d, commands, f);
        CommandsAreUses(d, data, f);
      }
      AugmentedIsExact(d, commands, "");
    }
  }

  lemma NothingToAdd(d: Descriptor)
    ensures Augmented(d, []) == d
  {}

  lemma CommandsAreUses(d: Descriptor, data: Json, f: string)
    ensures var commands := Unique([], Referenced(data, d.sourceEntityId));
      (exists c :: c in commands && FeatureFor(d.entityType, c) == Some(f)) <==>
      exists c :: Uses(data, d.sourceEntityId, c) && FeatureFor(d.entityType, c) == Some(f)
  {
    hide Uses, FeatureFor, Referenced, Unique;
    UniqueIsExact([], Referenced(data, d.sourceEntityId));
    forall c { ReferencedIsExact(data, d.sourceEntityId, c); }
  }

  lemma {:induction false} MadeShows(rules: Rules, input: Input, data: Json, previous: seq<Descriptor>)
    ensures match Made(rules, input, data, previous)
      case Some(d) => ShowsRecord(d, input, data)
      case None =>
        input.source.id == ""
        || ProxyType(if input.forceType != "" then input.forceType else input.source.entityType).None?
  {
    hide Described, ProxyType, Uses, FeatureFor, CapabilityHash, LastOf;
    DescribedShows(rules, input, data);
  }

  /** Record `i` is the last one of this source that can be shown. */
  ghost predicate LastFor(inputs: seq<Input>, source: string, i: int) {
    && 0 <= i < |inputs| && inputs[i].source.id == source && CanBeShown(inputs[i])
    && forall k :: i < k < |inputs| ==> inputs[k].source.id != source || !CanBeShown(inputs[k])
  }

  /** Every entry shows the last record of its source that can be shown, and every record that can be shown has an
      entry of its source. */
  lemma {:induction false} EntriesShowTheirRecords(rules: Rules, manifest: Manifest, previous: Catalog, source: string)
    ensures var inputs, found := Inputs(manifest), Lookup(Built(rules, manifest, previous).entities, source);
      match found
      case Some(d) => exists i :: LastFor(inputs, source, i) && ShowsRecord(d, inputs[i], manifest.data)
      case None => forall k :: 0 <= k < |inputs| ==> inputs[k].source.id != source || !CanBeShown(inputs[k])
  {
    hide Built, Inputs, ShowsRecord, CanBeShown, Lookup;
    CatalogIsExact(rules, manifest, previous, source);
    LatestShows(rules, Inputs(manifest), manifest.data, previous.entities, source);
  }

  predicate CanBeShown(input: Input) {
    && input.source.id != ""
    && ProxyType(if input.forceType != "" then input.forceType else input.source.entityType).Some?
  }

  lemma {:induction false} LatestShows(rules: Rules, inputs: seq<Input>, data: Json, previous: seq<Descriptor>,
                                       source: string)
    ensures match Latest(rules, inputs, data, previous, source)
      case Some(d) => exists i :: LastFor(inputs, source, i) && ShowsRecord(d, inputs[i], data)
      case None => forall k :: 0 <= k < |inputs| ==> inputs[k].source.id != source || !CanBeShown(inputs[k])
  {
    hide Made, ShowsRecord, CanBeShown;
    if inputs != [] {
      var n := |inputs| - 1;
      var made := Made(rules, inputs[n], data, previous);
      MadeOrNot(rules, inputs[n], data, previous);
      if made.Some? && made.value.sourceEntityId == source {
        assert LastFor(inputs, source, n);
      } else {
        LatestShows(rules, inputs[..n], data, previous, source);
        assert forall k :: 0 <= k < n ==> inputs[..n][k] == inputs[k];
        forall i | LastFor(inputs[..n], source, i) ensures LastFor(inputs, source, i) {}
      }
    }
  }

  lemma MadeOrNot(rules: Rules, input: Input, data: Json, previous: seq<Descriptor>)
    ensures match Made(rules, input, data, previous)
      case Some(d) => ShowsRecord(d, input, data) && d.sourceEntityId == input.source.id && CanBeShown(input)
      case None => !CanBeShown(input)
  {
    hide Made, ProxyType, Uses, FeatureFor;
    MadeShows(rules, input, data, previous);
  }

  /** The records come in order: the entities, then the remotes. */
  lemma RecordsInOrder(manifest: Manifest)
    ensures |Inputs(manifest)| == |manifest.entities| + |manifest.remotes|
    ensures forall i :: 0 <= i < |manifest.entities| ==> Inputs(manifest)[i] == Input(manifest.entities[i], "")
    ensures forall i :: 0 <= i < |manifest.remotes| ==>
      Inputs(manifest)[|manifest.entities| + i] == RemoteInput(manifest.remotes[i])
  {
    hide RemoteInput;
  }

  /** The entries are sorted by their sources. */
  lemma {:induction false} EntriesAreSorted(rules: Rules, manifest: Manifest, previous: Catalog, i: nat, j: nat)
    requires WeakOrder(rules.below) && i < j < |Built(rules, manifest, previous).entities|
    ensures var entities := Built(rules, manifest, previous).entities;
      !rules.below(entities[j].sourceEntityId, entities[i].sourceEntityId)
  {
    hide Assembled, Sorted;
    var below := BySource(rules.below);
    assert WeakOrder(below) by { WeakBySource(rules.below); }
    var entities := Assembled(rules, Inputs(manifest), manifest.data, previous.entities);
    SortedInOrder(entities, below);
    OrderedPair(Sorted(entities, below), below, i, j);
  }

  lemma WeakBySource(below: (string, string) -> bool)
    requires WeakOrder(below)
    ensures WeakOrder(BySource(below))
  {
    var sourced := BySource(below);
    forall x, y, z | sourced(x, y) && !sourced(z, y) ensures sourced(x, z) {
      assert below(x.sourceEntityId, y.sourceEntityId) && !below(z.sourceEntityId, y.sourceEntityId);
    }
    forall x, y | sourced(x, y) ensures !sourced(y, x) { assert below(x.sourceEntityId, y.sourceEntityId); }
  }

  lemma {:induction false} OrderedPair<T>(xs: seq<T>, below: (T, T) -> bool, i: nat, j: nat)
    requires InOrder(xs, below) && i < j < |xs|
    ensures !below(xs[j], xs[i])
  {
    if i == 0 {
      assert xs[j] == xs[1..][j - 1] && xs[j] in xs[1..];
    } else {
      OrderedPair(xs[1..], below, i - 1, j - 1);
    }
  }

  /** Two entries have one capability exactly when type, class and options are the same, and their features but for
      the order. */
  lemma {:induction false} CapabilitiesAgree(a: Descriptor, b: Descriptor)
    ensures CapabilityOf(a) == CapabilityOf(b) <==>
      && a.entityType == b.entityType && a.deviceClass == b.deviceClass && a.options == b.options
      && multiset(a.features) == multiset(b.features)
  {
    SortedIsPermutation(a.features, Below);
    SortedIsPermutation(b.features, Below);
    if multiset(a.features) == multiset(b.features) {
      BelowIsOrder();
      NoTiesBelow(multiset(a.features));
      SortIsCanonical(a.features, b.features, Below);
    }
  }

  /** The ids: the plain one of a source, the one that was kept, and the one revised for a capability. */
  lemma {:induction false} IdsAreExact(rules: Rules, input: Input, data: Json, previous: seq<Descriptor>)
    requires Made(rules, input, data, previous).Some?
    requires forall p :: p in previous ==> p.localId != "" && p.targetEntityId != ""
    ensures var d := Made(rules, input, data, previous).value;
      var plain := "proxy_" + rules.sourceHash(input.source.id);
      match LastOf(previous, input.source.id)
      case None => d.localId == plain && d.targetEntityId == "remote_sync.main." + plain
      case Some(p) =>
        var hash := rules.capabilityHash(CapabilityOf(d));
        if rules.capabilityHash(CapabilityOf(p)) == hash
        then (d.localId, d.targetEntityId) == (p.localId, p.targetEntityId)
        else (d.localId, d.targetEntityId) == (plain + "_" + hash, "remote_sync.main." + plain + "_" + hash)
  {
    hide Described, CapabilityOf, LastOf;
    MadeShowsSource(rules, input, data, previous);
    var d0 := Described(rules, input, data).value;
    DescribedIdentity(rules, input, data);
    LastIsThere(previous, input.source.id);
    var d := Made(rules, input, data, previous).value;
    SameCapability(d0, d);
    assert DRIVER_PREFIX == "remote_sync.main.";
    var plain := "proxy_" + rules.sourceHash(input.source.id);
    assert DRIVER_PREFIX + (plain + "_" + rules.capabilityHash(CapabilityOf(d)))
      == DRIVER_PREFIX + plain + "_" + rules.capabilityHash(CapabilityOf(d));
  }

  lemma MadeShowsSource(rules: Rules, input: Input, data: Json, previous: seq<Descriptor>)
    requires Made(rules, input, data, previous).Some?
    ensures Described(rules, input, data).value.sourceEntityId == input.source.id
  {
    hide Uses, FeatureFor, ProxyType;
    DescribedShows(rules, input, data);
  }
}
