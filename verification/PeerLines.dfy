/** Pairing identifiers, and the lines of text in which the Satellites of a Primary are written down and from
    which they are read again. */
module PeerLines {
  import opened Options
  import opened Ordering

  /** What the platform decides about text: upper and lower case, and which text is the URL of a web server. */
  datatype Rules = Rules(upper: char -> string, lower: string -> string, isUrl: string -> bool)

  ghost predicate Sane(rules: Rules) {
    && (forall c: char :: c as int < 128 ==> rules.upper(c) == [AsciiUpper(c)])
    && (forall s :: rules.isUrl(s) ==> ':' in s && ('t' in s || 'T' in s))
  }

  function AsciiUpper(c: char): char {
    if 'a' <= c <= 'z' then (c as int - 32) as char else c
  }

  // ---------------------------------------------------------------------------
  // Text
  // ---------------------------------------------------------------------------

  predicate IsSpace(c: char) {
    var n := c as int;
    || 9 <= n <= 13 || n in {32, 0xA0, 0x1680, 0x2028, 0x2029, 0x202F, 0x205F, 0x3000, 0xFEFF} || 0x2000 <= n <= 0x200A
  }

  function TrimStart(s: string): string {
    if s != "" && IsSpace(s[0]) then TrimStart(s[1..]) else s
  }

  function TrimEnd(s: string): string {
    if s != "" && IsSpace(s[|s| - 1]) then TrimEnd(s[..|s| - 1]) else s
  }

  function Trim(s: string): string {
    TrimEnd(TrimStart(s))
  }

  /** The pieces between separators; there is always one. */
  function Split(s: string, bar: char): (r: seq<string>)
    ensures r != []
  {
    if s == "" then [""]
    else
      var rest := Split(s[1..], bar);
      if s[0] == bar then [""] + rest else [[s[0]] + rest[0]] + rest[1..]
  }

  function Join(parts: seq<string>, bar: string): string {
    if parts == [] then "" else if |parts| == 1 then parts[0] else parts[0] + bar + Join(parts[1..], bar)
  }

  function TrimAll(parts: seq<string>): seq<string> {
    if parts == [] then [] else [Trim(parts[0])] + TrimAll(parts[1..])
  }

  function NonEmpty(parts: seq<string>): seq<string> {
    if parts == [] then [] else (if parts[0] == "" then [] else [parts[0]]) + NonEmpty(parts[1..])
  }

  function SplitCsv(s: string): seq<string> {
    NonEmpty(TrimAll(Split(s, ',')))
  }

  function StripBars(s: string): string {
    if s != "" && s[|s| - 1] == '|' then StripBars(s[..|s| - 1]) else s
  }

  function WithoutSlash(s: string): string {
    if s != "" && s[|s| - 1] == '/' then s[..|s| - 1] else s
  }

  function SemicolonsAsLines(s: string): string {
    if s == "" then "" else [if s[0] == ';' then '\n' else s[0]] + SemicolonsAsLines(s[1..])
  }

  /** Length in UTF-16 code units. */
  function Units(s: string): nat {
    if s == "" then 0 else (if s[0] as int < 0x1_0000 then 1 else 2) + Units(s[1..])
  }

  // ---------------------------------------------------------------------------
  // Identifiers
  // ---------------------------------------------------------------------------

  function Upper(rules: Rules, s: string): string {
    if s == "" then "" else rules.upper(s[0]) + Upper(rules, s[1..])
  }

  predicate Alphanumeric(c: char) {
    'A' <= c <= 'Z' || '0' <= c <= '9'
  }

  function Alphanumerics(s: string): string {
    if s == "" then "" else (if Alphanumeric(s[0]) then [s[0]] else []) + Alphanumerics(s[1..])
  }

  function WithoutDashes(s: string): string {
    if s == "" then "" else (if s[0] == '-' || IsSpace(s[0]) then [] else [s[0]]) + WithoutDashes(s[1..])
  }

  const RMS := "RMS"

  function WithoutRms(s: string): string {
    if RMS <= s then s[3..] else s
  }

  function NormalizePairingIdentifier(rules: Rules, s: string): string {
    var bare := WithoutRms(Alphanumerics(Upper(rules, s)));
    if |bare| > 12 then bare[..12] else bare
  }

  /** Groups of four. */
  function Grouped(s: string): string {
    if |s| <= 4 then s else s[..4] + "-" + Grouped(s[4..])
  }

  function DisplayPairingIdentifier(rules: Rules, s: string): string {
    var normalized := NormalizePairingIdentifier(rules, s);
    if normalized == "" then "" else "RMS-" + Grouped(normalized)
  }

  predicate InAlphabet(c: char) {
    Alphanumeric(c) && c !in {'I', 'O', '0', '1'}
  }

  predicate IsPairingIdentifier(rules: Rules, s: string) {
    var raw := WithoutDashes(Upper(rules, s));
    RMS <= raw && 8 <= |raw| - 3 <= 12 && forall i :: 3 <= i < |raw| ==> InAlphabet(raw[i])
  }

  /** Showing an identifier that is already shown changes nothing. */
  lemma {:induction false} DisplayTwice(rules: Rules, s: string)
    requires Sane(rules)
    ensures NormalizePairingIdentifier(rules, DisplayPairingIdentifier(rules, s))
      == NormalizePairingIdentifier(rules, s)
    ensures DisplayPairingIdentifier(rules, DisplayPairingIdentifier(rules, s)) == DisplayPairingIdentifier(rules, s)
  {
    hide Alphanumerics, Upper, Grouped;
    var n := NormalizePairingIdentifier(rules, s);
    AlphanumericsOnly(Upper(rules, s));
    if n == "" {
      Empty(rules);
    } else {
      GroupedBack(rules, n);
      UpperAppend(rules, "RMS-", Grouped(n));
      Prefix(rules);
      AlphanumericsAppend("RMS-", Upper(rules, Grouped(n)));
      assert "RMS" + n == Alphanumerics(Upper(rules, "RMS-" + Grouped(n)));
    }
  }

  lemma Empty(rules: Rules)
    ensures NormalizePairingIdentifier(rules, "") == ""
  {}

  lemma Prefix(rules: Rules)
    requires Sane(rules)
    ensures Upper(rules, "RMS-") == "RMS-" && Alphanumerics("RMS-") == "RMS"
  {
    hide Upper, Alphanumerics;
    PlainText(rules, "RMS");
    Dash(rules);
    UpperAppend(rules, "RMS", "-");
    AlphanumericsAppend("RMS", "-");
    assert "RMS-" == "RMS" + "-";
  }

  lemma {:induction false} AlphanumericsOnly(s: string)
    ensures forall i :: 0 <= i < |Alphanumerics(s)| ==> Alphanumeric(Alphanumerics(s)[i])
  {
    if s != "" { AlphanumericsOnly(s[1..]); }
  }

  lemma {:induction false} UpperAppend(rules: Rules, a: string, b: string)
    ensures Upper(rules, a + b) == Upper(rules, a) + Upper(rules, b)
  {
    if a == "" {
      assert a + b == b;
    } else {
      assert (a + b)[1..] == a[1..] + b;
      UpperAppend(rules, a[1..], b);
    }
  }

  lemma AlphanumericsCons(c: char, rest: string)
    ensures Alphanumerics([c] + rest) == (if Alphanumeric(c) then [c] else []) + Alphanumerics(rest)
  {
    assert ([c] + rest)[1..] == rest;
  }

  lemma {:induction false} AlphanumericsAppend(a: string, b: string)
    ensures Alphanumerics(a + b) == Alphanumerics(a) + Alphanumerics(b)
  {
    hide Alphanumerics, Alphanumeric;
    if a == "" {
      assert a + b == b && Alphanumerics("") == "" by { NoneAlphanumeric(); }
    } else {
      assert a == [a[0]] + a[1..] && a + b == [a[0]] + (a[1..] + b);
      AlphanumericsCons(a[0], a[1..]);
      AlphanumericsCons(a[0], a[1..] + b);
      AlphanumericsAppend(a[1..], b);
    }
  }

  lemma NoneAlphanumeric()
    ensures Alphanumerics("") == ""
  {}

  lemma {:induction false} PlainText(rules: Rules, s: string)
    requires Sane(rules) && forall i :: 0 <= i < |s| ==> Alphanumeric(s[i])
    ensures Upper(rules, s) == s && Alphanumerics(s) == s
  {
    if s != "" {
      PlainText(rules, s[1..]);
      assert s == [s[0]] + s[1..];
    }
  }

  lemma {:induction false} GroupedBack(rules: Rules, s: string)
    requires Sane(rules) && forall i :: 0 <= i < |s| ==> Alphanumeric(s[i])
    ensures Alphanumerics(Upper(rules, Grouped(s))) == s
    ensures forall i :: 0 <= i < |Grouped(s)| ==> Alphanumeric(Grouped(s)[i]) || Grouped(s)[i] == '-'
    ensures s != "" ==> Grouped(s) != "" && Grouped(s)[|Grouped(s)| - 1] == s[|s| - 1]
  {
    hide Alphanumerics, Alphanumeric, Upper;
    if |s| <= 4 {
      PlainText(rules, s);
    } else {
      var head, rest := s[..4], s[4..];
      GroupedBack(rules, rest);
      OneGroup(rules, head, Grouped(rest));
      assert s == head + rest;
    }
  }

  lemma OneGroup(rules: Rules, head: string, rest: string)
    requires Sane(rules) && forall i :: 0 <= i < |head| ==> Alphanumeric(head[i])
    ensures Alphanumerics(Upper(rules, head + "-" + rest)) == head + Alphanumerics(Upper(rules, rest))
  {
    hide Alphanumerics, Alphanumeric, Upper;
    PlainText(rules, head);
    UpperAppend(rules, head + "-", rest);
    UpperAppend(rules, head, "-");
    Dash(rules);
    AlphanumericsAppend(head + "-", Upper(rules, rest));
    AlphanumericsAppend(head, "-");
  }

  lemma Dash(rules: Rules)
    requires Sane(rules)
    ensures Upper(rules, "-") == "-" && Alphanumerics("-") == ""
  {
    assert "-"[1..] == "";
  }

  /** A fresh identifier keeps all its letters when it is shown, exactly when it does not start with RMS. */
  lemma ShownInFull(rules: Rules, s: string)
    requires Sane(rules) && |s| <= 12 && forall i :: 0 <= i < |s| ==> InAlphabet(s[i])
    ensures NormalizePairingIdentifier(rules, s) == s <==> !(RMS <= s)
  {
    PlainText(rules, s);
  }

  /** An identifier that happens to start with RMS loses these letters. */
  lemma RmsIsLost(rules: Rules)
    requires Sane(rules)
    ensures NormalizePairingIdentifier(rules, "RMSABCDEFGH2") == "ABCDEFGH2"
  {
    hide Upper, Alphanumerics, Sane;
    PlainText(rules, "RMSABCDEFGH2");
    assert RMS <= "RMSABCDEFGH2" && "RMSABCDEFGH2"[3..] == "ABCDEFGH2";
  }

  // ---------------------------------------------------------------------------
  // Peers
  // ---------------------------------------------------------------------------

  datatype Peer = Peer(peerId: string, identifier: Option<string>, name: string, url: Option<string>, token: string,
                       mac: Option<string>, broadcasts: seq<string>)

  datatype Result<+T> = Ok(value: T) | InvalidEntry(index: nat) | InvalidToken(index: nat)

  datatype Advanced = Advanced(url: Option<string>, mac: Option<string>, broadcasts: seq<string>)

  predicate IsHex(c: char) {
    '0' <= c <= '9' || 'a' <= c <= 'f' || 'A' <= c <= 'F'
  }

  predicate IsMac(s: string) {
    |s| == 17 && forall i :: 0 <= i < 17 ==> if i % 3 == 2 then s[i] == ':' || s[i] == '-' else IsHex(s[i])
  }

  function OrEmpty(value: Option<string>): string {
    match value case Some(s) => s case None => ""
  }

  /** Runs of other characters become one dash. */
  function Dashed(s: string, pending: bool): string {
    if s == "" then (if pending then "-" else "")
    else if 'a' <= s[0] <= 'z' || 'A' <= s[0] <= 'Z' || '0' <= s[0] <= '9' then
      (if pending then "-" else "") + [s[0]] + Dashed(s[1..], false)
    else Dashed(s[1..], true)
  }

  function Slug(rules: Rules, name: string): string {
    var dashed := Dashed(name, false);
    var front := if dashed != "" && dashed[0] == '-' then dashed[1..] else dashed;
    rules.lower(if front != "" && front[|front| - 1] == '-' then front[..|front| - 1] else front)
  }

  function Digits(n: nat): string {
    if n < 10 then [('0' as int + n) as char] else Digits(n / 10) + [('0' as int + n % 10) as char]
  }

  function PeerIdOf(rules: Rules, identifier: Option<string>, name: string, index: nat): string {
    if identifier.Some? then "rms-" + rules.lower(NormalizePairingIdentifier(rules, identifier.value))
    else Slug(rules, if name != "" then name else "child-" + Digits(index + 1))
  }

  // ---------------------------------------------------------------------------
  // Formatting
  // ---------------------------------------------------------------------------

  function FormatLegacy(peer: Peer): string {
    var name := if peer.name != "" then peer.name else peer.peerId;
    StripBars(Join([name, OrEmpty(peer.url), peer.token, OrEmpty(peer.mac), Join(peer.broadcasts, ",")], "|"))
  }

  function FormatValues(rules: Rules, peer: Peer): seq<string> {
    var identifier := DisplayPairingIdentifier(rules, OrEmpty(peer.identifier));
    (if peer.name != "" && peer.name != identifier then [peer.name] else [])
    + [identifier, peer.token] + FormatAdvanced(peer)
  }

  function FormatAdvanced(peer: Peer): seq<string> {
    (if peer.url.Some? || peer.mac.Some? || peer.broadcasts != [] then [OrEmpty(peer.url)] else [])
    + (if peer.mac.Some? || peer.broadcasts != [] then [OrEmpty(peer.mac)] else [])
    + (if peer.broadcasts != [] then [Join(peer.broadcasts, ",")] else [])
  }

  function FormatPeer(rules: Rules, peer: Peer): string {
    if DisplayPairingIdentifier(rules, OrEmpty(peer.identifier)) == "" && peer.url.Some? then FormatLegacy(peer)
    else StripBars(Join(FormatValues(rules, peer), "|"))
  }

  function FormatAll(rules: Rules, peers: seq<Peer>): seq<string> {
    if peers == [] then [] else [FormatPeer(rules, peers[0])] + FormatAll(rules, peers[1..])
  }

  function FormatPeerLines(rules: Rules, peers: seq<Peer>): string {
    Join(FormatAll(rules, peers), "\n")
  }

  // ---------------------------------------------------------------------------
  // Parsing
  // ---------------------------------------------------------------------------

  function At(parts: seq<string>, i: nat): string {
    if i < |parts| then parts[i] else ""
  }

  function From(parts: seq<string>, i: nat): seq<string> {
    if i <= |parts| then parts[i..] else []
  }

  /** What stands after the token: a URL or a MAC address or broadcasts, then a MAC address or broadcasts, then
      broadcasts. */
  function AdvancedOf(rules: Rules, remaining: seq<string>, legacyUrl: Option<string>): Advanced {
    var first, second := At(remaining, 0), At(remaining, 1);
    var a :=
      if first == "" then Advanced(legacyUrl, None, [])
      else if rules.isUrl(first) then Advanced(Some(WithoutSlash(first)), None, [])
      else if IsMac(first) then Advanced(legacyUrl, Some(first), [])
      else Advanced(legacyUrl, None, SplitCsv(first));
    var b :=
      if second == "" then a
      else if a.mac.None? && IsMac(second) then a.(mac := Some(second))
      else a.(broadcasts := a.broadcasts + SplitCsv(second));
    var rest := From(remaining, 2);
    var c := if rest == [] then b else b.(broadcasts := b.broadcasts + SplitCsv(Join(rest, "|")));
    c.(broadcasts := Unique([], c.broadcasts))
  }

  /** Fields are shifted off the list and reassigned one after the other. */
  method ParseAdvanced(rules: Rules, parts: seq<string>, legacyUrl: Option<string>) returns (r: Advanced)
    ensures r == AdvancedOf(rules, parts, legacyUrl)
  {
    var remaining, url, mac, broadcasts: seq<string> := parts, legacyUrl, None, [];
    var firstAdvanced, secondAdvanced := "", "";
    if remaining != [] { firstAdvanced, remaining := remaining[0], remaining[1..]; }
    if firstAdvanced != "" {
      if rules.isUrl(firstAdvanced) { url := Some(WithoutSlash(firstAdvanced)); }
      else if IsMac(firstAdvanced) { mac := Some(firstAdvanced); }
      else { broadcasts := SplitCsv(firstAdvanced); }
    }
    if remaining != [] { secondAdvanced, remaining := remaining[0], remaining[1..]; }
    if secondAdvanced != "" {
      if mac.None? && IsMac(secondAdvanced) { mac := Some(secondAdvanced); }
      else { broadcasts := broadcasts + SplitCsv(secondAdvanced); }
    }
    assert remaining == From(parts, 2);
    if remaining != [] { broadcasts := broadcasts + SplitCsv(Join(remaining, "|")); }
    return Advanced(url, mac, Unique([], broadcasts));
  }

  datatype Shape = Identified | Named | Legacy | Unknown

  function ShapeOf(rules: Rules, parts: seq<string>): Shape {
    if IsPairingIdentifier(rules, At(parts, 0)) then Identified
    else if IsPairingIdentifier(rules, At(parts, 1)) then Named
    else if rules.isUrl(At(parts, 1)) && |parts| >= 3 then Legacy
    else Unknown
  }

  function PeerOf(rules: Rules, identifier: Option<string>, name: string, token: string, a: Advanced,
                  index: nat): Result<Peer>
  {
    if Units(token) < 16 then InvalidToken(index)
    else
      var shown := if name != "" then name else OrEmpty(identifier);
      Ok(Peer(PeerIdOf(rules, identifier, name, index), identifier, shown, a.url, token, a.mac, a.broadcasts))
  }

  function ParsedEntry(rules: Rules, entry: string, index: nat): Result<Peer> {
    var parts := TrimAll(Split(entry, '|'));
    match ShapeOf(rules, parts)
    case Identified =>
      var identifier := DisplayPairingIdentifier(rules, At(parts, 0));
      PeerOf(rules, Some(identifier), identifier, At(parts, 1), AdvancedOf(rules, From(parts, 2), None), index)
    case Named =>
      PeerOf(rules, Some(DisplayPairingIdentifier(rules, At(parts, 1))), At(parts, 0), At(parts, 2),
             AdvancedOf(rules, From(parts, 3), None), index)
    case Legacy =>
      PeerOf(rules, None, At(parts, 0), At(parts, 2),
             AdvancedOf(rules, From(parts, 3), Some(WithoutSlash(At(parts, 1)))), index)
    case Unknown => InvalidEntry(index)
  }

  function Entries(text: string): seq<string> {
    NonEmpty(TrimAll(Split(SemicolonsAsLines(text), '\n')))
  }

  /** Peers before those of a result, unless it is an error. */
  function Preceded(peers: seq<Peer>, rest: Result<seq<Peer>>): Result<seq<Peer>> {
    if rest.Ok? then Ok(peers + rest.value) else rest
  }

  function ParsedAll(rules: Rules, entries: seq<string>, index: nat): Result<seq<Peer>>
    requires index <= |entries|
    decreases |entries| - index
  {
    if index == |entries| then Ok([])
    else
      match ParsedEntry(rules, entries[index], index)
      case InvalidEntry(i) => InvalidEntry(i)
      case InvalidToken(i) => InvalidToken(i)
      case Ok(peer) => Preceded([peer], ParsedAll(rules, entries, index + 1))
  }

  /** One entry, with the first error in the order of the checks. */
  method ParseEntry(rules: Rules, entry: string, index: nat) returns (r: Result<Peer>)
    ensures r == ParsedEntry(rules, entry, index)
  {
    var parts := TrimAll(Split(entry, '|'));
    var name, identifier, token, remaining, legacyUrl;
    if IsPairingIdentifier(rules, At(parts, 0)) {
      identifier, token, legacyUrl := Some(DisplayPairingIdentifier(rules, At(parts, 0))), At(parts, 1), None;
      name, remaining := identifier.value, From(parts, 2);
    } else if IsPairingIdentifier(rules, At(parts, 1)) {
      name, identifier, token := At(parts, 0), Some(DisplayPairingIdentifier(rules, At(parts, 1))), At(parts, 2);
      remaining, legacyUrl := From(parts, 3), None;
    } else if rules.isUrl(At(parts, 1)) && |parts| >= 3 {
      name, legacyUrl, token := At(parts, 0), Some(WithoutSlash(At(parts, 1))), At(parts, 2);
      identifier, remaining := None, From(parts, 3);
    } else {
      return InvalidEntry(index);
    }
    if Units(token) < 16 { return InvalidToken(index); }
    var advanced := ParseAdvanced(rules, remaining, legacyUrl);
    r := PeerOf(rules, identifier, name, token, advanced, index);
  }

  method ParsePeerLines(rules: Rules, text: string) returns (r: Result<seq<Peer>>)
    ensures r == ParsedAll(rules, Entries(text), 0)
  {
    hide ParsedEntry, Entries, Preceded;
    var entries := Entries(text);
    var peers: seq<Peer> := [];
    PrecededByNone(ParsedAll(rules, entries, 0));
    for i := 0 to |entries|
      invariant ParsedAll(rules, entries, 0) == Preceded(peers, ParsedAll(rules, entries, i))
    {
      var peer := ParseEntry(rules, entries[i], i);
      match peer {
        case InvalidEntry(k) =>
          PrecededError(peers, ParsedAll(rules, entries, i));
          return InvalidEntry(k);
        case InvalidToken(k) =>
          PrecededError(peers, ParsedAll(rules, entries, i));
          return InvalidToken(k);
        case Ok(p) =>
          PrecededTwice(peers, [p], ParsedAll(rules, entries, i + 1));
          peers := peers + [p];
      }
    }
    PrecedingAll(peers);
    return Ok(peers);
  }

  lemma PrecededByNone(rest: Result<seq<Peer>>)
    ensures Preceded([], rest) == rest
  {
    if rest.Ok? { assert [] + rest.value == rest.value; }
  }

  lemma PrecededError(peers: seq<Peer>, rest: Result<seq<Peer>>)
    ensures !rest.Ok? ==> Preceded(peers, rest) == rest
  {}

  lemma PrecededTwice(a: seq<Peer>, b: seq<Peer>, rest: Result<seq<Peer>>)
    ensures Preceded(a, Preceded(b, rest)) == Preceded(a + b, rest)
  {
    if rest.Ok? { assert a + (b + rest.value) == (a + b) + rest.value; }
  }

  lemma PrecedingAll(peers: seq<Peer>)
    ensures Preceded(peers, Ok([])) == Ok(peers)
  {
    assert peers + [] == peers;
  }

  // ---------------------------------------------------------------------------
  // Splitting what was joined
  // ---------------------------------------------------------------------------

  lemma {:induction false} SplitFirst(part: string, bar: char, rest: string)
    requires bar !in part
    ensures Split(part, bar) == [part]
    ensures Split(part + [bar] + rest, bar) == [part] + Split(rest, bar)
  {
    var all := part + [bar] + rest;
    if part == "" {
      assert all == [bar] + rest && all[1..] == rest;
    } else {
      assert all[0] == part[0] && all[1..] == part[1..] + [bar] + rest;
      SplitFirst(part[1..], bar, rest);
      assert [part[0]] + part[1..] == part;
    }
  }

  lemma {:induction false} SplitJoin(parts: seq<string>, bar: char)
    requires parts != [] && forall i :: 0 <= i < |parts| ==> bar !in parts[i]
    ensures Split(Join(parts, [bar]), bar) == parts
  {
    if |parts| == 1 {
      SplitFirst(parts[0], bar, "");
    } else {
      SplitJoin(parts[1..], bar);
      SplitFirst(parts[0], bar, Join(parts[1..], [bar]));
      assert parts == [parts[0]] + parts[1..];
    }
  }

  predicate Trimmed(s: string) {
    s == "" || (!IsSpace(s[0]) && !IsSpace(s[|s| - 1]))
  }

  lemma {:induction false} TrimTrimmed(parts: seq<string>)
    requires forall i :: 0 <= i < |parts| ==> Trimmed(parts[i])
    ensures TrimAll(parts) == parts
  {
    if parts != [] { TrimTrimmed(parts[1..]); }
  }

  lemma {:induction false} AllNonEmpty(parts: seq<string>)
    requires forall i :: 0 <= i < |parts| ==> parts[i] != ""
    ensures NonEmpty(parts) == parts
  {
    if parts != [] { AllNonEmpty(parts[1..]); }
  }

  /** What is joined from trimmed pieces is trimmed, and has only their characters and the separators. */
  lemma {:induction false} Joined(parts: seq<string>, bar: string, c: char)
    requires parts != [] && |bar| == 1 && forall i :: 0 <= i < |parts| ==> Trimmed(parts[i])
    ensures c in Join(parts, bar) ==> c == bar[0] || exists i :: 0 <= i < |parts| && c in parts[i]
    ensures parts[0] != "" ==> Join(parts, bar) != "" && Join(parts, bar)[0] == parts[0][0]
    ensures parts[|parts| - 1] != "" ==>
      Join(parts, bar) != "" && Join(parts, bar)[|Join(parts, bar)| - 1] == parts[|parts| - 1][|parts[|parts| - 1]| - 1]
  {
    hide Trimmed;
    if |parts| > 1 {
      var rest := parts[1..];
      forall i | 0 <= i < |rest| ensures rest[i] == parts[i + 1] {}
      Joined(rest, bar, c);
      assert Join(parts, bar) == parts[0] + bar + Join(rest, bar);
      if c in Join(rest, bar) && c != bar[0] {
        var i :| 0 <= i < |rest| && c in rest[i];
        assert c in parts[i + 1];
      }
    }
  }

  // ---------------------------------------------------------------------------
  // Peers in normal form
  // ---------------------------------------------------------------------------

  /** Something that can stand between bars. */
  predicate Field(s: string) {
    s != "" && Trimmed(s) && '|' !in s && ';' !in s && '\n' !in s
  }

  ghost predicate NormalBroadcasts(broadcasts: seq<string>) {
    Distinct(broadcasts) && forall i :: 0 <= i < |broadcasts| ==> Field(broadcasts[i]) && ',' !in broadcasts[i]
  }

  /** The parts of a peer that do not depend on its shape. */
  ghost predicate NormalParts(rules: Rules, p: Peer) {
    && Field(p.token) && Units(p.token) >= 16
    && (p.url.Some? ==> Field(p.url.value) && rules.isUrl(p.url.value) && p.url.value[|p.url.value| - 1] != '/')
    && (p.mac.Some? ==> IsMac(p.mac.value))
    && NormalBroadcasts(p.broadcasts)
  }

  /** A peer that has an identifier is called by it or by a name that is none; one without has a URL and a name,
      and its only broadcast is no MAC address unless it has one itself. */
  ghost predicate NormalShape(rules: Rules, p: Peer) {
    match p.identifier
    case Some(id) =>
      && IsPairingIdentifier(rules, id) && DisplayPairingIdentifier(rules, id) == id
      && (p.name == id || (Field(p.name) && !IsPairingIdentifier(rules, p.name)))
    case None =>
      && p.url.Some? && Field(p.name) && !IsPairingIdentifier(rules, p.name)
      && !MacForBroadcast(p)
  }

  /** In the older form a missing MAC address leaves no gap for a single broadcast that looks like one. */
  predicate MacForBroadcast(p: Peer) {
    p.mac.None? && |p.broadcasts| == 1 && IsMac(p.broadcasts[0])
  }

  ghost predicate Normal(rules: Rules, p: Peer) {
    NormalParts(rules, p) && NormalShape(rules, p) && p.peerId == PeerIdOf(rules, p.identifier, p.name, 0)
  }

  lemma {:induction false} UniqueAlready(list: seq<string>, more: seq<string>)
    requires Distinct(list + more)
    ensures Unique(list, more) == list + more
    decreases |more|
  {
    if more == [] {
      assert list + more == list;
    } else {
      assert (list + more)[|list|] == more[0];
      assert more[0] !in list by {
        forall i | 0 <= i < |list| ensures list[i] != more[0] { assert (list + more)[i] == list[i]; }
      }
      assert (list + [more[0]]) + more[1..] == list + more;
      UniqueAlready(list + [more[0]], more[1..]);
    }
  }

  lemma {:induction false} CsvBack(broadcasts: seq<string>)
    requires NormalBroadcasts(broadcasts) && broadcasts != []
    ensures SplitCsv(Join(broadcasts, ",")) == broadcasts && Unique([], broadcasts) == broadcasts
  {
    hide Join, Split, IsSpace;
    SplitJoin(broadcasts, ',');
    TrimTrimmed(broadcasts);
    AllNonEmpty(broadcasts);
    assert [] + broadcasts == broadcasts;
    UniqueAlready([], broadcasts);
  }

  lemma CsvField(broadcasts: seq<string>)
    requires NormalBroadcasts(broadcasts) && broadcasts != []
    ensures Field(Join(broadcasts, ","))
  {
    hide Join, IsSpace;
    Joined(broadcasts, ",", '|');
    Joined(broadcasts, ",", ';');
    Joined(broadcasts, ",", '\n');
  }

  lemma MacIsOne(broadcasts: seq<string>)
    requires broadcasts != []
    ensures IsMac(Join(broadcasts, ",")) <==> |broadcasts| == 1 && IsMac(broadcasts[0])
  {
    if |broadcasts| > 1 && IsMac(Join(broadcasts, ",")) {
      assert Join(broadcasts, ",")[|broadcasts[0]|] == ',';
      assert false;
    }
  }

  lemma {:induction false} KeepsColon(rules: Rules, s: string)
    requires Sane(rules) && ':' in s
    ensures ':' in WithoutDashes(Upper(rules, s))
  {
    if s[0] == ':' {
      assert Upper(rules, s) == ":" + Upper(rules, s[1..]);
    } else {
      KeepsColon(rules, s[1..]);
      WithoutDashesAppend(rules.upper(s[0]), Upper(rules, s[1..]));
    }
  }

  lemma {:induction false} WithoutDashesAppend(a: string, b: string)
    ensures WithoutDashes(a + b) == WithoutDashes(a) + WithoutDashes(b)
  {
    if a == "" {
      assert a + b == b;
    } else {
      assert (a + b)[1..] == a[1..] + b;
      WithoutDashesAppend(a[1..], b);
    }
  }

  lemma UrlIsNoIdentifier(rules: Rules, s: string)
    requires Sane(rules) && rules.isUrl(s)
    ensures !IsPairingIdentifier(rules, s)
  {
    hide WithoutDashes, Upper;
    KeepsColon(rules, s);
    var raw := WithoutDashes(Upper(rules, s));
    var i :| 0 <= i < |raw| && raw[i] == ':';
    if RMS <= raw { NoColonFirst(raw); }
  }

  lemma NoColonFirst(raw: string)
    requires RMS <= raw
    ensures forall i :: 0 <= i < 3 ==> raw[i] != ':'
  {
    forall i | 0 <= i < 3 ensures raw[i] != ':' { assert raw[i] == RMS[i]; }
  }

  lemma MacIsField(rules: Rules, s: string)
    requires Sane(rules) && IsMac(s)
    ensures !rules.isUrl(s) && Field(s)
  {
    forall i | 0 <= i < 17 ensures s[i] !in {'t', 'T', '|', ';', '\n'} && !IsSpace(s[i]) {}
  }

  lemma {:induction false} IdentifierIsField(rules: Rules, id: string)
    requires Sane(rules) && IsPairingIdentifier(rules, id) && DisplayPairingIdentifier(rules, id) == id
    ensures Field(id)
  {
    hide Grouped, Alphanumerics, Upper, IsPairingIdentifier, WithoutDashes;
    var n := NormalizePairingIdentifier(rules, id);
    AlphanumericsOnly(Upper(rules, id));
    GroupedBack(rules, n);
    if n == "" { NotEmptyIdentifier(rules); }
    forall i | 0 <= i < |id| ensures id[i] !in {'|', ';', '\n'} && !IsSpace(id[i]) {
      if i >= 4 { assert id[i] == Grouped(n)[i - 4]; }
    }
  }

  lemma NotEmptyIdentifier(rules: Rules)
    ensures !IsPairingIdentifier(rules, "")
  {}

  // ---------------------------------------------------------------------------
  // One line
  // ---------------------------------------------------------------------------

  /** Values that survive being joined by bars: each empty or a field, the first and last not empty. */
  ghost predicate Values(values: seq<string>) {
    && values != [] && values[0] != "" && values[|values| - 1] != ""
    && forall i :: 0 <= i < |values| ==> values[i] == "" || Field(values[i])
  }

  /** A line that stays one entry among others. */
  predicate Line(s: string) {
    s != "" && Trimmed(s) && ';' !in s && '\n' !in s
  }

  lemma {:induction false} ValuesBack(values: seq<string>)
    requires Values(values)
    ensures TrimAll(Split(Join(values, "|"), '|')) == values
    ensures Line(Join(values, "|")) && StripBars(Join(values, "|")) == Join(values, "|")
  {
    hide Join, Split, IsSpace;
    SplitJoin(values, '|');
    TrimTrimmed(values);
    Joined(values, "|", ';');
    Joined(values, "|", '\n');
    var last := values[|values| - 1];
    assert last[|last| - 1] in last;
  }

  lemma {:induction false} AdvancedFields(rules: Rules, p: Peer)
    requires Sane(rules) && NormalParts(rules, p)
    ensures p.mac.Some? ==> Field(p.mac.value) && !rules.isUrl(p.mac.value)
    ensures p.broadcasts != [] ==> Field(Join(p.broadcasts, ","))
  {
    if p.mac.Some? { MacIsField(rules, p.mac.value); }
    if p.broadcasts != [] { CsvField(p.broadcasts); }
  }

  lemma SlashStays(s: string)
    requires s != "" && s[|s| - 1] != '/'
    ensures WithoutSlash(s) == s
  {}

  lemma AdvancedBack(rules: Rules, p: Peer)
    requires Sane(rules) && NormalParts(rules, p)
    ensures AdvancedOf(rules, FormatAdvanced(p), None) == Advanced(p.url, p.mac, p.broadcasts)
  {
    hide IsMac, Join, SplitCsv, Unique, Sane, IsSpace, WithoutSlash;
    AdvancedFields(rules, p);
    if p.broadcasts != [] { CsvBack(p.broadcasts); OnePart(Join(p.broadcasts, ",")); } else { NothingUnique(); }
    if p.url.Some? { SlashStays(p.url.value); }
    NoUrl(rules);
    assert [] + p.broadcasts == p.broadcasts;
    if p.broadcasts != [] {
      assert From(FormatAdvanced(p), 2) == [Join(p.broadcasts, ",")];
    }
  }

  lemma NothingUnique()
    ensures Unique([], []) == []
  {}

  lemma OnePart(s: string)
    ensures Join([s], "|") == s
  {}

  lemma NoUrl(rules: Rules)
    requires Sane(rules)
    ensures !rules.isUrl("")
  {}

  function LegacyAdvanced(p: Peer): seq<string> {
    if p.broadcasts != [] then [OrEmpty(p.mac), Join(p.broadcasts, ",")] else if p.mac.Some? then [p.mac.value] else []
  }

  /** What stands after the token in the older form comes back, exactly when no broadcast passes for a MAC address. */
  lemma LegacyBack(rules: Rules, p: Peer)
    requires Sane(rules) && NormalParts(rules, p)
    ensures AdvancedOf(rules, LegacyAdvanced(p), p.url) == Advanced(p.url, p.mac, p.broadcasts) <==> !MacForBroadcast(p)
  {
    hide IsMac, Join, SplitCsv, Unique, Sane, IsSpace, WithoutSlash, IsPairingIdentifier, DisplayPairingIdentifier,
         Units;
    AdvancedFields(rules, p);
    NoUrl(rules);
    assert [] + p.broadcasts == p.broadcasts;
    assert From(LegacyAdvanced(p), 2) == [];
    if p.broadcasts != [] {
      CsvBack(p.broadcasts);
      MacIsOne(p.broadcasts);
    } else {
      NothingUnique();
    }
  }

  /** A single broadcast that passes for a MAC address is read as one. */
  lemma BroadcastBecomesMac(rules: Rules, url: Option<string>)
    requires Sane(rules)
    ensures var p := Peer("a", None, "a", url, "", None, ["00:11:22:33:44:55"]);
      AdvancedOf(rules, LegacyAdvanced(p), url) == Advanced(url, Some("00:11:22:33:44:55"), [])
  {
    assert IsMac("00:11:22:33:44:55");
    assert From(["", "00:11:22:33:44:55"], 2) == [];
    NothingUnique();
  }

  lemma {:induction false} JoinAppend(parts: seq<string>, more: seq<string>)
    requires parts != [] && more != []
    ensures Join(parts + more, "|") == Join(parts, "|") + "|" + Join(more, "|")
  {
    var all := parts + more;
    assert all[1..] == parts[1..] + more;
    if |parts| > 1 { JoinAppend(parts[1..], more); } else { assert parts[1..] + more == more; }
  }

  lemma StripOne(s: string)
    ensures StripBars(s + "|") == StripBars(s)
  {
    assert (s + "|")[..|s|] == s;
  }

  lemma LegacyText(p: Peer)
    requires p.name != "" && p.url.Some? && (p.mac.Some? ==> p.mac.value != "")
      && (p.broadcasts != [] ==> Join(p.broadcasts, ",") != "")
    ensures FormatLegacy(p) == StripBars(Join([p.name, p.url.value, p.token] + LegacyAdvanced(p), "|"))
  {
    hide Join, StripBars;
    var start := [p.name, p.url.value, p.token];
    var mac, csv := OrEmpty(p.mac), Join(p.broadcasts, ",");
    assert [p.name, p.url.value, p.token, mac, csv] == start + [mac, csv];
    if p.broadcasts == [] {
      EmptyJoin();
      assert start + [mac, ""] == (start + [mac]) + [""];
      JoinAppend(start + [mac], [""]);
      StripOne(Join(start + [mac], "|"));
      assert Join(start + [mac, ""], "|") == Join(start + [mac], "|") + "|";
      if p.mac.None? {
        JoinAppend(start, [""]);
        StripOne(Join(start, "|"));
        assert Join(start + [mac], "|") == Join(start, "|") + "|";
        assert start + [] == start;
      }
    }
  }

  lemma EmptyJoin()
    ensures Join([], ",") == "" && Join([""], "|") == ""
  {}

  /** One peer in normal form comes back from its line. */
  lemma {:induction false} PeerBack(rules: Rules, p: Peer, index: nat)
    requires Sane(rules) && Normal(rules, p)
    ensures Line(FormatPeer(rules, p)) && ParsedEntry(rules, FormatPeer(rules, p), index) == Ok(p)
  {
    if p.identifier.None? { LegacyPeerBack(rules, p, index); } else { IdentifiedPeerBack(rules, p, index); }
  }

  lemma {:induction false} LegacyPeerBack(rules: Rules, p: Peer, index: nat)
    requires Sane(rules) && Normal(rules, p) && p.identifier.None?
    ensures Line(FormatPeer(rules, p)) && ParsedEntry(rules, FormatPeer(rules, p), index) == Ok(p)
  {
    hide IsMac, Join, Split, SplitCsv, Sane, IsSpace, StripBars, TrimAll, IsPairingIdentifier, AdvancedOf, Units,
         NormalBroadcasts, Line, NormalizePairingIdentifier, Slug, WithoutSlash;
    var values := [p.name, p.url.value, p.token] + LegacyAdvanced(p);
    AdvancedFields(rules, p);
    LegacyText(p);
    ValuesBack(values);
    LegacyBack(rules, p);
    UrlIsNoIdentifier(rules, p.url.value);
    SlashStays(p.url.value);
    Empty(rules);
    assert From(values, 3) == LegacyAdvanced(p);
  }

  lemma {:induction false} IdentifiedPeerBack(rules: Rules, p: Peer, index: nat)
    requires Sane(rules) && Normal(rules, p) && p.identifier.Some?
    ensures Line(FormatPeer(rules, p)) && ParsedEntry(rules, FormatPeer(rules, p), index) == Ok(p)
  {
    hide IsMac, Join, Split, SplitCsv, Sane, IsSpace, StripBars, TrimAll, IsPairingIdentifier, AdvancedOf, Units,
         NormalBroadcasts, Line, DisplayPairingIdentifier, NormalizePairingIdentifier, FormatAdvanced;
    var id := p.identifier.value;
    var start := if p.name != id then [p.name, id, p.token] else [id, p.token];
    var values := FormatValues(rules, p);
    IdentifierIsField(rules, id);
    assert values == start + FormatAdvanced(p);
    AdvancedValues(rules, p, start);
    ValuesBack(values);
    AdvancedBack(rules, p);
    assert From(values, |start|) == FormatAdvanced(p);
  }

  lemma AdvancedValues(rules: Rules, p: Peer, start: seq<string>)
    requires Sane(rules) && NormalParts(rules, p)
    requires start != [] && forall i :: 0 <= i < |start| ==> Field(start[i])
    ensures Values(start + FormatAdvanced(p))
  {
    hide IsMac, Join, Sane, IsSpace;
    AdvancedFields(rules, p);
  }

  // ---------------------------------------------------------------------------
  // All lines
  // ---------------------------------------------------------------------------

  lemma {:induction false} NoSemicolons(s: string)
    requires ';' !in s
    ensures SemicolonsAsLines(s) == s
  {
    if s != "" {
      NoSemicolons(s[1..]);
      assert s == [s[0]] + s[1..];
    }
  }

  lemma {:induction false} EntriesBack(lines: seq<string>)
    requires forall i :: 0 <= i < |lines| ==> Line(lines[i])
    ensures Entries(Join(lines, "\n")) == lines
  {
    hide Join, Split, IsSpace;
    if lines == [] {
      NoEntries();
    } else {
      Joined(lines, "\n", ';');
      NoSemicolons(Join(lines, "\n"));
      SplitJoin(lines, '\n');
      TrimTrimmed(lines);
      AllNonEmpty(lines);
    }
  }

  lemma NoEntries()
    ensures Entries(Join([], "\n")) == []
  {
    assert Split("", '\n') == [""] && TrimAll([""]) == [""];
  }

  lemma {:induction false} FormatAllAt(rules: Rules, peers: seq<Peer>, i: nat)
    requires i < |peers|
    ensures |FormatAll(rules, peers)| == |peers| && FormatAll(rules, peers)[i] == FormatPeer(rules, peers[i])
  {
    hide FormatPeer;
    FormatAllSize(rules, peers);
    if i > 0 { FormatAllAt(rules, peers[1..], i - 1); }
  }

  lemma {:induction false} FormatAllSize(rules: Rules, peers: seq<Peer>)
    ensures |FormatAll(rules, peers)| == |peers|
  {
    hide FormatPeer;
    if peers != [] { FormatAllSize(rules, peers[1..]); }
  }

  lemma {:induction false} AllBack(rules: Rules, peers: seq<Peer>, index: nat)
    requires Sane(rules) && (forall i :: 0 <= i < |peers| ==> Normal(rules, peers[i])) && index <= |peers|
    ensures |FormatAll(rules, peers)| == |peers|
      && ParsedAll(rules, FormatAll(rules, peers), index) == Ok(peers[index..])
    decreases |peers| - index
  {
    hide FormatPeer, ParsedEntry, Normal, Sane, Line;
    FormatAllSize(rules, peers);
    if index < |peers| {
      AllBack(rules, peers, index + 1);
      FormatAllAt(rules, peers, index);
      PeerBack(rules, peers[index], index);
      assert [peers[index]] + peers[index + 1..] == peers[index..];
    }
  }

  /** Whatever Satellites are written down, in whatever shapes, are read back the same. */
  lemma {:induction false} PeersComeBack(rules: Rules, peers: seq<Peer>)
    requires Sane(rules) && forall i :: 0 <= i < |peers| ==> Normal(rules, peers[i])
    ensures ParsedAll(rules, Entries(FormatPeerLines(rules, peers)), 0) == Ok(peers)
  {
    hide FormatPeer, ParsedEntry, Normal, Sane, Line, Entries;
    FormatAllSize(rules, peers);
    forall i: nat | i < |peers| ensures Line(FormatAll(rules, peers)[i]) {
      FormatAllAt(rules, peers, i);
      PeerBack(rules, peers[i], i);
    }
    EntriesBack(FormatAll(rules, peers));
    AllBack(rules, peers, 0);
    assert peers[0..] == peers;
  }
}
