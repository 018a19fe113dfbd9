/** How the text of Satellites is read, for every text. */
module PeerReading {
  import opened Options
  import opened Ordering
  import opened PeerLines

  // ---------------------------------------------------------------------------
  // Trimming and splitting
  // ---------------------------------------------------------------------------

  /** White space and line ends of the platform. */
  predicate Blank(c: char) {
    || c == '\t' || c == '\n' || c == '\r' || c == ' ' || c == '\U{B}' || c == '\U{C}' || c == '\U{A0}'
    || c == '\U{1680}' || '\U{2000}' <= c <= '\U{200A}' || c == '\U{2028}' || c == '\U{2029}' || c == '\U{202F}'
    || c == '\U{205F}' || c == '\U{3000}' || c == '\U{FEFF}'
  }

  lemma BlankIsSpace(c: char)
    ensures Blank(c) <==> IsSpace(c)
  {}

  ghost predicate AllBlank(s: string) {
    forall c :: c in s ==> Blank(c)
  }

  /** Trimming takes blanks off both ends, and all of them. */
  lemma {:induction false} TrimIsExact(s: string)
    ensures exists a: string, b: string :: AllBlank(a) && AllBlank(b) && s == a + Trim(s) + b
    ensures Trim(s) != "" ==> !Blank(Trim(s)[0]) && !Blank(Trim(s)[|Trim(s)| - 1])
  {
    hide Blank, IsSpace, AllBlank, TrimStart, TrimEnd;
    var front := FrontOf(s);
    var back := BackOf(TrimStart(s));
    if Trim(s) != "" {
      BlankIsSpace(Trim(s)[0]);
      BlankIsSpace(Trim(s)[|Trim(s)| - 1]);
      StartStays(TrimStart(s));
    }
  }

  lemma {:induction false} FrontOf(s: string) returns (front: string)
    ensures AllBlank(front) && s == front + TrimStart(s)
    ensures TrimStart(s) != "" ==> !IsSpace(TrimStart(s)[0])
  {
    if s != "" && IsSpace(s[0]) {
      var rest := FrontOf(s[1..]);
      BlankIsSpace(s[0]);
      front := [s[0]] + rest;
      assert s == [s[0]] + s[1..];
    } else {
      front := "";
    }
  }

  lemma {:induction false} BackOf(s: string) returns (back: string)
    ensures AllBlank(back) && s == TrimEnd(s) + back
    ensures TrimEnd(s) != "" ==> !IsSpace(TrimEnd(s)[|TrimEnd(s)| - 1])
  {
    if s != "" && IsSpace(s[|s| - 1]) {
      var rest := BackOf(s[..|s| - 1]);
      BlankIsSpace(s[|s| - 1]);
      back := rest + [s[|s| - 1]];
      assert s == s[..|s| - 1] + [s[|s| - 1]];
    } else {
      back := "";
      assert s + "" == s;
    }
  }

  lemma {:induction false} StartStays(s: string)
    ensures TrimEnd(s) != "" ==> s != "" && TrimEnd(s)[0] == s[0]
  {
    if s != "" && IsSpace(s[|s| - 1]) { StartStays(s[..|s| - 1]); }
  }

  /** A text without the separator is one piece, and at a separator the pieces of both sides follow each other. */
  lemma {:induction false} SplitIsExact(a: string, b: string, bar: char)
    ensures bar !in a ==> Split(a, bar) == [a]
    ensures Split(a + [bar] + b, bar) == Split(a, bar) + Split(b, bar)
  {
    var all := a + [bar] + b;
    if a == "" {
      assert all[1..] == b && all[0] == bar;
    } else {
      assert all[1..] == a[1..] + [bar] + b && all[0] == a[0];
      SplitIsExact(a[1..], b, bar);
      var left, right := Split(a[1..], bar), Split(b, bar);
      assert a == [a[0]] + a[1..];
      PiecesFollow(left, right, a[0]);
    }
  }

  lemma PiecesFollow(left: seq<string>, right: seq<string>, c: char)
    requires left != []
    ensures (left + right)[0] == left[0] && (left + right)[1..] == left[1..] + right
    ensures [[c] + (left + right)[0]] + (left + right)[1..] == [[c] + left[0]] + left[1..] + right
    ensures [""] + (left + right) == [""] + left + right
  {}

  lemma {:induction false} TrimAllAppend(a: seq<string>, b: seq<string>)
    ensures TrimAll(a + b) == TrimAll(a) + TrimAll(b)
  {
    if a == [] {
      assert a + b == b;
    } else {
      assert (a + b)[1..] == a[1..] + b;
      TrimAllAppend(a[1..], b);
    }
  }

  lemma {:induction false} NonEmptyAppend(a: seq<string>, b: seq<string>)
    ensures NonEmpty(a + b) == NonEmpty(a) + NonEmpty(b)
  {
    if a == [] {
      assert a + b == b;
    } else {
      assert (a + b)[1..] == a[1..] + b;
      NonEmptyAppend(a[1..], b);
    }
  }

  lemma OnePiece(s: string)
    ensures NonEmpty(TrimAll([s])) == if Trim(s) == "" then [] else [Trim(s)]
  {
    assert [s][1..] == [] && [Trim(s)][1..] == [];
  }

  /** A list with commas holds the trimmed pieces between them that are not empty, in order. */
  lemma {:induction false} ListsAreExact(a: string, b: string)
    ensures ',' !in a ==> SplitCsv(a) == if Trim(a) == "" then [] else [Trim(a)]
    ensures SplitCsv(a + "," + b) == SplitCsv(a) + SplitCsv(b)
  {
    hide Trim, NonEmpty, Split, TrimAll;
    SplitIsExact(a, b, ',');
    if ',' !in a { OnePiece(a); }
    TrimAllAppend(Split(a, ','), Split(b, ','));
    NonEmptyAppend(TrimAll(Split(a, ',')), TrimAll(Split(b, ',')));
  }

  lemma {:induction false} LinesAppend(a: string, b: string)
    ensures SemicolonsAsLines(a + b) == SemicolonsAsLines(a) + SemicolonsAsLines(b)
    ensures ';' !in a ==> SemicolonsAsLines(a) == a
  {
    if a == "" {
      assert a + b == b;
    } else {
      assert (a + b)[1..] == a[1..] + b && a == [a[0]] + a[1..];
      LinesAppend(a[1..], b);
    }
  }

  /** The entries of a text: its lines, ended by line feeds or semicolons, trimmed, without the empty ones. */
  lemma {:induction false} EntriesAreExact(a: string, end: char, b: string)
    requires end == '\n' || end == ';'
    ensures '\n' !in a && ';' !in a ==> Entries(a) == if Trim(a) == "" then [] else [Trim(a)]
    ensures Entries(a + [end] + b) == Entries(a) + Entries(b)
  {
    hide Trim, NonEmpty, Split, TrimAll, SemicolonsAsLines;
    var x, y := SemicolonsAsLines(a), SemicolonsAsLines(b);
    LinesAppend(a, "");
    assert a + "" == a;
    LinesAppend(a + [end], b);
    LinesAppend(a, [end]);
    EndIsLine(end);
    SplitIsExact(x, y, '\n');
    if '\n' !in a && ';' !in a { OnePiece(a); }
    TrimAllAppend(Split(x, '\n'), Split(y, '\n'));
    NonEmptyAppend(TrimAll(Split(x, '\n')), TrimAll(Split(y, '\n')));
  }

  lemma EndIsLine(end: char)
    requires end == '\n' || end == ';'
    ensures SemicolonsAsLines([end]) == "\n"
  {
    assert [end][1..] == "";
  }

  // ---------------------------------------------------------------------------
  // Identifiers
  // ---------------------------------------------------------------------------

  /** The letters and digits of fresh identifiers, without those that are mistaken for each other. */
  predicate Letter(c: char) {
    'A' <= c <= 'H' || 'J' <= c <= 'N' || 'P' <= c <= 'Z' || '2' <= c <= '9'
  }

  lemma LettersAreExact(c: char)
    ensures Letter(c) <==> InAlphabet(c)
  {}

  /** The 26 small letters are raised to the 26 capitals, and every other ASCII character stays. */
  lemma AsciiIsRaised(rules: Rules, c: char)
    requires Sane(rules) && (c as int) < 128
    ensures var small, capital := "abcdefghijklmnopqrstuvwxyz", "ABCDEFGHIJKLMNOPQRSTUVWXYZ";
      && (forall i :: 0 <= i < 26 && small[i] == c ==> Upper(rules, [c]) == [capital[i]])
      && (c !in small ==> Upper(rules, [c]) == [c])
  {
    var small, capital := "abcdefghijklmnopqrstuvwxyz", "ABCDEFGHIJKLMNOPQRSTUVWXYZ";
    assert Upper(rules, [c]) == [AsciiUpper(c)] by { OneRaised(rules, c); }
    if 97 <= c as int <= 122 { LettersInOrder(c as int - 97); }
    forall i | 0 <= i < 26 { LettersInOrder(i); }
  }

  lemma OneRaised(rules: Rules, c: char)
    requires Sane(rules) && (c as int) < 128
    ensures Upper(rules, [c]) == [AsciiUpper(c)]
  {
    hide AsciiUpper;
    assert Upper(rules, [c]) == rules.upper(c) + Upper(rules, "");
  }

  lemma LettersInOrder(i: int)
    requires 0 <= i < 26
    ensures "abcdefghijklmnopqrstuvwxyz"[i] as int == 97 + i && "ABCDEFGHIJKLMNOPQRSTUVWXYZ"[i] as int == 65 + i
  {}

  lemma {:induction false} UpperAppend(rules: Rules, a: string, b: string)
    ensures Upper(rules, a + b) == Upper(rules, a) + Upper(rules, b)
  {
    if a == "" {
      assert a + b == b;
    } else {
      assert (a + b)[1..] == a[1..] + b;
      UpperAppend(rules, a[1..], b);
    }
  }

  /** A text in capital letters passes for an identifier when it is "RMS" and eight to twelve letters, whatever dashes
      and blanks stand in between. */
  lemma {:induction false} IdentifiersAreExact(rules: Rules, s: string)
    ensures IsPairingIdentifier(rules, s) <==>
      exists letters: string ::
        Without(Upper(rules, s)) == "RMS" + letters && 8 <= |letters| <= 12
          && forall i :: 0 <= i < |letters| ==> Letter(letters[i])
  {
    hide InAlphabet, Letter, Upper;
    var raw := WithoutDashes(Upper(rules, s));
    WithoutIs(Upper(rules, s));
    forall c { LettersAreExact(c); }
    if IsPairingIdentifier(rules, s) {
      var letters := raw[3..];
      assert raw == "RMS" + letters;
      assert forall i :: 0 <= i < |letters| ==> letters[i] == raw[i + 3];
    }
    if letters: string :|
      raw == "RMS" + letters && 8 <= |letters| <= 12 && forall i :: 0 <= i < |letters| ==> Letter(letters[i])
    {
      assert forall i :: 3 <= i < |raw| ==> raw[i] == letters[i - 3];
    }
  }

  /** Without dashes and blanks. */
  function Without(s: string): string {
    if s == "" then "" else if s[0] == '-' || Blank(s[0]) then Without(s[1..]) else [s[0]] + Without(s[1..])
  }

  lemma {:induction false} WithoutIs(s: string)
    ensures WithoutDashes(s) == Without(s)
  {
    if s != "" {
      WithoutIs(s[1..]);
      BlankIsSpace(s[0]);
    }
  }

  /** What is kept of an identifier: the first twelve of its capital letters and digits, after "RMS" if they begin
      with it. */
  lemma {:induction false} NormalFormIsExact(rules: Rules, s: string)
    ensures var kept := Capitals(Upper(rules, s));
      var bare := if |kept| >= 3 && kept[..3] == "RMS" then kept[3..] else kept;
      NormalizePairingIdentifier(rules, s) == if |bare| <= 12 then bare else bare[..12]
  {
    CapitalsAre(Upper(rules, s));
  }

  function Capitals(s: string): string {
    if s == "" then "" else if 'A' <= s[0] <= 'Z' || '0' <= s[0] <= '9' then [s[0]] + Capitals(s[1..])
      else Capitals(s[1..])
  }

  lemma {:induction false} CapitalsAre(s: string)
    ensures Alphanumerics(s) == Capitals(s)
  {
    if s != "" { CapitalsAre(s[1..]); }
  }

  /** It is shown as "RMS-" and groups of four. */
  lemma ShownIsExact(rules: Rules, s: string)
    ensures var n := NormalizePairingIdentifier(rules, s);
      DisplayPairingIdentifier(rules, s) ==
        if n == "" then ""
        else if |n| <= 4 then "RMS-" + n
        else if |n| <= 8 then "RMS-" + n[..4] + "-" + n[4..]
        else "RMS-" + n[..4] + "-" + n[4..8] + "-" + n[8..]
  {
    hide Upper, Alphanumerics;
    var n := NormalizePairingIdentifier(rules, s);
    GroupsAre(n);
    if 4 < |n| <= 8 {
      assert "RMS-" + (n[..4] + "-" + n[4..]) == "RMS-" + n[..4] + "-" + n[4..];
    } else if |n| > 8 {
      assert "RMS-" + (n[..4] + "-" + (n[4..8] + "-" + n[8..])) == "RMS-" + n[..4] + "-" + n[4..8] + "-" + n[8..];
    }
  }

  lemma GroupsAre(n: string)
    requires |n| <= 12
    ensures Grouped(n) ==
      if |n| <= 4 then n else if |n| <= 8 then n[..4] + "-" + n[4..] else n[..4] + "-" + (n[4..8] + "-" + n[8..])
  {
    if |n| > 8 {
      var m := n[4..];
      assert m[..4] == n[4..8] && m[4..] == n[8..];
      assert Grouped(m[4..]) == m[4..];
      assert Grouped(m) == m[..4] + "-" + m[4..];
    }
  }

  // ---------------------------------------------------------------------------
  // Fields of an entry
  // ---------------------------------------------------------------------------

  /** Six pairs of hexadecimal digits with colons or dashes between them. */
  predicate MacAddress(s: string) {
    && |s| == 17
    && Pair(s[0], s[1]) && Between(s[2]) && Pair(s[3], s[4]) && Between(s[5]) && Pair(s[6], s[7]) && Between(s[8])
    && Pair(s[9], s[10]) && Between(s[11]) && Pair(s[12], s[13]) && Between(s[14]) && Pair(s[15], s[16])
  }

  predicate Pair(a: char, b: char) {
    HexChar(a) && HexChar(b)
  }

  predicate HexChar(c: char) {
    '0' <= c <= '9' || 'A' <= c <= 'F' || 'a' <= c <= 'f'
  }

  predicate Between(c: char) {
    c == ':' || c == '-'
  }

  lemma MacsAreExact(s: string)
    ensures MacAddress(s) <==> IsMac(s)
  {
    if IsMac(s) { assert Pair(s[0], s[1]) && Between(s[2]); }
    if MacAddress(s) {
      forall i | 0 <= i < 17 ensures if i % 3 == 2 then s[i] == ':' || s[i] == '-' else IsHex(s[i]) {}
    }
  }

  /** The text of field `i`; none is empty. */
  function FieldAt(fields: seq<string>, i: nat): string {
    if i < |fields| then fields[i] else ""
  }

  function CutSlash(url: string): string {
    if url != "" && url[|url| - 1] == '/' then url[..|url| - 1] else url
  }

  /** What stands after the token. The first field is a URL, a MAC address or broadcasts; the second one a MAC address,
      unless there is one, or broadcasts; everything after that are broadcasts. */
  lemma {:induction false} AdvancedIsExact(rules: Rules, fields: seq<string>, url: Option<string>)
    ensures var a := AdvancedOf(rules, fields, url);
      var first, second := FieldAt(fields, 0), FieldAt(fields, 1);
      var firstMac := first != "" && !rules.isUrl(first) && MacAddress(first);
      && a.url == (if first != "" && rules.isUrl(first) then Some(CutSlash(first)) else url)
      && a.mac == (if firstMac then Some(first) else if second != "" && MacAddress(second) then Some(second) else None)
      && (forall b :: b in a.broadcasts <==>
            || (first != "" && !rules.isUrl(first) && !MacAddress(first) && b in SplitCsv(first))
            || (second != "" && (firstMac || !MacAddress(second)) && b in SplitCsv(second))
            || (|fields| > 2 && b in SplitCsv(Join(fields[2..], "|"))))
      && Distinct(a.broadcasts)
  {
    hide SplitCsv, IsMac, MacAddress, Unique, Join;
    var first, second := FieldAt(fields, 0), FieldAt(fields, 1);
    MacsAreExact(first);
    MacsAreExact(second);
    var one := if first != "" && !rules.isUrl(first) && !MacAddress(first) then SplitCsv(first) else [];
    var two := if second != "" && ((first != "" && !rules.isUrl(first) && MacAddress(first)) || !MacAddress(second))
      then SplitCsv(second) else [];
    var three := if |fields| > 2 then SplitCsv(Join(fields[2..], "|")) else [];
    assert [] + two == two && one + [] == one && one + two + [] == one + two;
    assert AdvancedOf(rules, fields, url).broadcasts == Unique([], one + two + three);
    UniqueIsExact([], one + two + three);
  }

  /** Sixteen UTF-16 code units at least. */
  ghost function CodeUnits(s: string): nat {
    |s| + |Astral(s)|
  }

  function Astral(s: string): string {
    if s == "" then "" else (if s[0] as int >= 0x1_0000 then [s[0]] else []) + Astral(s[1..])
  }

  lemma {:induction false} UnitsAreCounted(s: string)
    ensures Units(s) == CodeUnits(s)
  {
    if s != "" { UnitsAreCounted(s[1..]); }
  }

  datatype Parts = Parts(identifier: Option<string>, name: string, token: string, url: Option<string>,
                         rest: seq<string>)

  /** The three shapes of an entry: an identifier and a token; a name, an identifier and a token; and the older one, a
      name, a URL and a token. */
  function PartsOf(rules: Rules, fields: seq<string>): Option<Parts> {
    var first, second, third := FieldAt(fields, 0), FieldAt(fields, 1), FieldAt(fields, 2);
    if IsPairingIdentifier(rules, first) then
      var shown := DisplayPairingIdentifier(rules, first);
      Some(Parts(Some(shown), shown, second, None, if |fields| > 2 then fields[2..] else []))
    else if IsPairingIdentifier(rules, second) then
      Some(Parts(Some(DisplayPairingIdentifier(rules, second)), first, third, None,
                 if |fields| > 3 then fields[3..] else []))
    else if |fields| >= 3 && rules.isUrl(second) then
      Some(Parts(None, first, third, Some(CutSlash(second)), if |fields| > 3 then fields[3..] else []))
    else None
  }

  /** One entry: its fields stand between bars, trimmed. Without one of the shapes it is invalid, and so is a token of
      less than sixteen code units. */
  lemma {:induction false} EntryIsExact(rules: Rules, entry: string, index: nat)
    ensures var parts := PartsOf(rules, TrimAll(Split(entry, '|')));
      match parts
      case None => ParsedEntry(rules, entry, index) == InvalidEntry(index)
      case Some(p) =>
        if CodeUnits(p.token) < 16 then ParsedEntry(rules, entry, index) == InvalidToken(index)
        else
          var a := AdvancedOf(rules, p.rest, p.url);
          var name := if p.name != "" then p.name else OrEmpty(p.identifier);
          ParsedEntry(rules, entry, index)
            == Ok(Peer(PeerIdOf(rules, p.identifier, p.name, index), p.identifier, name, a.url, p.token, a.mac,
                       a.broadcasts))
  {
    hide IsPairingIdentifier, DisplayPairingIdentifier, AdvancedOf, PeerIdOf, TrimAll, Split, Units;
    var fields := TrimAll(Split(entry, '|'));
    var parts := PartsOf(rules, fields);
    if parts.Some? { UnitsAreCounted(parts.value.token); }
    assert From(fields, 2) == if |fields| > 2 then fields[2..] else [];
    assert From(fields, 3) == if |fields| > 3 then fields[3..] else [];
    assert WithoutSlash(FieldAt(fields, 1)) == CutSlash(FieldAt(fields, 1));
  }

  /** The result for a text: the first error of its entries, or the peers of all of them. */
  lemma {:induction false} TextIsExact(rules: Rules, entries: seq<string>, index: nat)
    requires index <= |entries|
    ensures match ParsedAll(rules, entries, index)
      case Ok(peers) =>
        |peers| == |entries| - index
        && forall i :: 0 <= i < |peers| ==> ParsedEntry(rules, entries[index + i], index + i) == Ok(peers[i])
      case InvalidEntry(i) => FirstBad(rules, entries, index, i) && ParsedEntry(rules, entries[i], i) == InvalidEntry(i)
      case InvalidToken(i) => FirstBad(rules, entries, index, i) && ParsedEntry(rules, entries[i], i) == InvalidToken(i)
    decreases |entries| - index
  {
    hide ParsedEntry;
    if index < |entries| {
      EntryNamesItself(rules, entries[index], index);
      TextIsExact(rules, entries, index + 1);
    }
  }

  ghost predicate FirstBad(rules: Rules, entries: seq<string>, index: nat, i: nat) {
    index <= i < |entries| && forall k :: index <= k < i ==> ParsedEntry(rules, entries[k], k).Ok?
  }

  lemma EntryNamesItself(rules: Rules, entry: string, index: nat)
    ensures match ParsedEntry(rules, entry, index)
      case Ok(_) => true
      case InvalidEntry(i) => i == index
      case InvalidToken(i) => i == index
  {
    hide AdvancedOf, PeerIdOf, Split, TrimAll, Units, IsPairingIdentifier, DisplayPairingIdentifier;
  }

  // ---------------------------------------------------------------------------
  // The id of a peer
  // ---------------------------------------------------------------------------

  predicate Ordinary(c: char) {
    'a' <= c <= 'z' || 'A' <= c <= 'Z' || '0' <= c <= '9'
  }

  ghost predicate AllOrdinary(s: string) {
    forall c :: c in s ==> Ordinary(c)
  }

  ghost predicate NoneOrdinary(s: string) {
    forall c :: c in s ==> !Ordinary(c)
  }

  /** Words of letters and digits stay, and whatever stands between two of them becomes one dash. */
  lemma {:induction false} WordsAreDashed(word: string, gap: string, rest: string, pending: bool)
    requires AllOrdinary(word) && NoneOrdinary(gap)
    ensures word != "" && gap != "" ==>
      Dashed(word + gap + rest, pending) == (if pending then "-" else "") + word + Dashed(rest, true)
    ensures word != "" ==> Dashed(word, pending) == (if pending then "-" else "") + word
    ensures gap != "" ==> Dashed(gap + rest, pending) == Dashed(rest, true)
  {
    hide Dashed;
    NothingIsDashed();
    if word != "" {
      WordStays(word, gap + rest, pending);
      WordStays(word, "", pending);
      assert word + (gap + rest) == word + gap + rest && word + "" == word;
    }
    if gap != "" {
      GapIsSkipped(gap, rest, pending);
      GapIsSkipped(gap, rest, false);
    }
  }

  lemma NothingIsDashed()
    ensures Dashed("", false) == ""
  {}

  lemma {:induction false} WordStays(word: string, rest: string, pending: bool)
    requires AllOrdinary(word) && word != ""
    ensures Dashed(word + rest, pending) == (if pending then "-" else "") + word + Dashed(rest, false)
  {
    var all, dash := word + rest, if pending then "-" else "";
    assert all[0] == word[0] && word[0] in word && all[1..] == word[1..] + rest && word == [word[0]] + word[1..];
    assert Dashed(all, pending) == dash + [word[0]] + Dashed(word[1..] + rest, false);
    if word[1..] == "" {
      assert word[1..] + rest == rest;
    } else {
      WordStays(word[1..], rest, false);
      assert dash + [word[0]] + ("" + word[1..] + Dashed(rest, false)) == dash + word + Dashed(rest, false);
    }
  }

  lemma {:induction false} GapIsSkipped(gap: string, rest: string, pending: bool)
    requires NoneOrdinary(gap) && gap != ""
    ensures Dashed(gap + rest, pending) == Dashed(rest, true)
  {
    var more := gap + rest;
    assert more[1..] == gap[1..] + rest && gap[0] in gap && gap == [gap[0]] + gap[1..];
    if gap[1..] == "" { assert gap[1..] + rest == rest; } else { GapIsSkipped(gap[1..], rest, true); }
  }

  /** The id: of an identifier its letters behind "rms-"; else the dashed name, or that of the number of the entry,
      without a dash at the ends; all in small letters. */
  lemma {:induction false} IdIsExact(rules: Rules, identifier: Option<string>, name: string, index: nat)
    ensures PeerIdOf(rules, identifier, name, index) ==
      match identifier
      case Some(s) => "rms-" + rules.lower(NormalizePairingIdentifier(rules, s))
      case None => rules.lower(CutDashes(Dashed(if name != "" then name else "child-" + Digits(index + 1), false)))
  {
    hide Dashed, NormalizePairingIdentifier, Digits;
  }

  function CutDashes(s: string): string {
    var t := if s != "" && s[0] == '-' then s[1..] else s;
    if t != "" && t[|t| - 1] == '-' then t[..|t| - 1] else t
  }

  ghost predicate AllDigits(s: string) {
    forall i :: 0 <= i < |s| ==> '0' <= s[i] <= '9'
  }

  /** What a text of decimal digits stands for. */
  ghost function NumberOf(s: string): nat
    requires AllDigits(s)
  {
    if s == "" then 0 else NumberOf(s[..|s| - 1]) * 10 + (s[|s| - 1] as int - '0' as int)
  }

  lemma {:induction false} DigitsAreExact(n: nat)
    ensures Digits(n) != "" && AllDigits(Digits(n)) && NumberOf(Digits(n)) == n
    ensures n > 0 ==> Digits(n)[0] != '0'
  {
    if n < 10 {
      assert Digits(n)[..0] == "";
    } else {
      DigitsAreExact(n / 10);
      assert Digits(n)[..|Digits(n)| - 1] == Digits(n / 10);
    }
  }
}
