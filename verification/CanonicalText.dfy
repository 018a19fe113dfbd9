/** The canonical text of a value, character by character (RFC 8259), and the order in which an object lists its
    keys. */
module CanonicalText {
  import opened Options
  import opened Json
  import opened Ordering
  import opened Canonical

  // ---------------------------------------------------------------------------
  // Strings (section 7 of RFC 8259)
  // ---------------------------------------------------------------------------

  function HexValue(c: char): int {
    if '0' <= c <= '9' then c as int - 48 else if 'a' <= c <= 'f' then c as int - 87 else -1
  }

  /** The quote, the backslash and the control characters are escaped, and nothing else. */
  lemma EscapesAreExact(c: char)
    ensures c == '"' ==> Escaped(c) == ['\\', '"']
    ensures c == '\\' ==> Escaped(c) == ['\\', '\\']
    ensures c == '\n' ==> Escaped(c) == ['\\', 'n']
    ensures c == '\r' ==> Escaped(c) == ['\\', 'r']
    ensures c == '\t' ==> Escaped(c) == ['\\', 't']
    ensures c == '\U{8}' ==> Escaped(c) == ['\\', 'b']
    ensures c == '\U{C}' ==> Escaped(c) == ['\\', 'f']
    ensures c as int < 32 && c != '\n' && c != '\r' && c != '\t' && c != '\U{8}' && c != '\U{C}' ==>
      exists h: char, l: char ::
        Escaped(c) == ['\\', 'u', '0', '0', h, l] && HexValue(h) in {0, 1} && HexValue(l) >= 0
        && 16 * HexValue(h) + HexValue(l) == c as int
    ensures c as int >= 32 && c != '"' && c != '\\' ==> Escaped(c) == [c]
  {
    if c as int < 32 && c !in {'\n', '\r', '\t', '\U{8}', '\U{C}'} { ControlEscapes(c); }
  }

  lemma ControlEscapes(c: char)
    requires c as int < 32 && c !in {'\n', '\r', '\t', '\U{8}', '\U{C}'}
    ensures exists h: char, l: char ::
      Escaped(c) == ['\\', 'u', '0', '0', h, l] && HexValue(h) in {0, 1} && HexValue(l) >= 0
      && 16 * HexValue(h) + HexValue(l) == c as int
  {
    hide HexValue;
    HexDigit(c as int / 16);
    HexDigit(c as int % 16);
    assert Escaped(c) == ['\\', 'u', '0', '0', HEX[c as int / 16], HEX[c as int % 16]];
  }

  lemma HexDigit(n: nat)
    requires n < 16
    ensures HexValue(HEX[n]) == n
  {}

  function Escapes(text: string): string {
    if text == "" then "" else Escaped(text[0]) + Escapes(text[1..])
  }

  lemma {:induction false} EscapesAppend(a: string, b: string)
    ensures Escapes(a + b) == Escapes(a) + Escapes(b)
  {
    if a == "" {
      assert a + b == b;
    } else {
      hide Escaped;
      assert (a + b)[1..] == a[1..] + b;
      EscapesAppend(a[1..], b);
    }
  }

  lemma {:induction false} QuotedIs(text: string)
    ensures Quoted(text) == Escapes(text) + "\""
  {
    if text != "" {
      hide Escaped;
      QuotedIs(text[1..]);
    }
  }

  // ---------------------------------------------------------------------------
  // Values
  // ---------------------------------------------------------------------------

  /** Pieces with commas between them. */
  function Commas(pieces: seq<string>): string {
    if pieces == [] then "" else if |pieces| == 1 then pieces[0] else pieces[0] + "," + Commas(pieces[1..])
  }

  function Texts(items: seq<Json>): seq<string> {
    seq(|items|, i requires 0 <= i < |items| => Print(items[i]))
  }

  function Members(fields: seq<Field>): seq<string> {
    seq(|fields|, i requires 0 <= i < |fields| => "\"" + Escapes(fields[i].key) + "\":" + Print(fields[i].value))
  }

  /** How each kind of value is written. */
  lemma PrintIsExact(text: string, items: seq<Json>, fields: seq<Field>)
    ensures Print(Null) == "null" && Print(Bool(true)) == "true" && Print(Bool(false)) == "false"
    ensures Print(Num(text)) == text && Print(Str(text)) == "\"" + Escapes(text) + "\""
    ensures Print(Arr(items)) == "[" + Commas(Texts(items)) + "]"
    ensures Print(Obj(fields)) == "{" + Commas(Members(fields)) + "}"
  {
    hide Escapes, Quoted;
    QuotedIs(text);
    if items != [] { ItemsAreExact(items); }
    if fields != [] { FieldsAreExact(fields); }
  }

  lemma {:induction false} ItemsAreExact(items: seq<Json>)
    requires items != []
    ensures Print(items[0]) + PrintItems(items[1..]) == Commas(Texts(items)) + "]"
  {
    hide Print;
    var rest, first := items[1..], Print(items[0]);
    assert Texts(items)[0] == first && Texts(items)[1..] == Texts(rest);
    if rest != [] {
      ItemsAreExact(rest);
      var second, more := Print(rest[0]), PrintItems(rest[1..]);
      assert first + ("," + second + more) == first + "," + (second + more);
      assert first + "," + (Commas(Texts(rest)) + "]") == (first + "," + Commas(Texts(rest))) + "]";
    }
  }

  lemma {:induction false} FieldsAreExact(fields: seq<Field>)
    requires fields != []
    ensures PrintField(fields[0]) + PrintFields(fields[1..]) == Commas(Members(fields)) + "}"
  {
    hide Print, PrintField, Escapes;
    var rest, first := fields[1..], PrintField(fields[0]);
    OneFieldIsExact(fields[0]);
    assert Members(fields)[0] == first && Members(fields)[1..] == Members(rest);
    if rest != [] {
      FieldsAreExact(rest);
      var second, more := PrintField(rest[0]), PrintFields(rest[1..]);
      assert first + ("," + second + more) == first + "," + (second + more);
      assert first + "," + (Commas(Members(rest)) + "}") == (first + "," + Commas(Members(rest))) + "}";
    }
  }

  lemma OneFieldIsExact(f: Field)
    ensures PrintField(f) == "\"" + Escapes(f.key) + "\":" + Print(f.value)
  {
    hide Print, Escapes;
    QuotedIs(f.key);
  }

  /** Whatever a number is written with is allowed in the text of one. */
  lemma NumbersMayHold(text: string)
    requires text != "" && forall i :: 0 <= i < |text| ==> text[i] in "+-.0123456789e"
    ensures NumberText(text)
  {
    forall i | 0 <= i < |text| ensures NumberChar(text[i]) { DigitsAndSigns(text[i]); }
  }

  lemma DigitsAndSigns(c: char)
    requires c in "+-.0123456789e"
    ensures NumberChar(c)
  {}

  /** The keys that do not count as configuration. */
  lemma VolatileIsExact(key: string)
    ensures key in VOLATILE_KEYS <==>
      || key == "attributes" || key == "state" || key == "device_state" || key == "driver_state"
      || key == "connection_state" || key == "connected" || key == "online" || key == "last_seen"
      || key == "updated_at" || key == "media_position_updated_at"
  {}

  // ---------------------------------------------------------------------------
  // The order of keys
  // ---------------------------------------------------------------------------

  function Pow10(n: nat): nat {
    if n == 0 then 1 else 10 * Pow10(n - 1)
  }

  ghost predicate AllDigits(s: string) {
    forall i :: 0 <= i < |s| ==> '0' <= s[i] <= '9'
  }

  /** The number that decimal digits stand for. */
  ghost function Decimal(s: string): nat
    requires AllDigits(s)
  {
    if s == "" then 0 else 10 * Decimal(s[..|s| - 1]) + (s[|s| - 1] as int - 48)
  }

  lemma {:induction false} DecimalBelow(s: string)
    requires AllDigits(s)
    ensures Decimal(s) < Pow10(|s|)
    ensures s != "" && s[0] != '0' ==> Decimal(s) >= Pow10(|s| - 1)
  {
    if s != "" { DecimalBelow(s[..|s| - 1]); }
  }

  lemma {:induction false} PowersGrow(m: nat, n: nat)
    requires m <= n
    ensures Pow10(m) <= Pow10(n)
  {
    if m < n { PowersGrow(m, n - 1); }
  }

  lemma {:induction false} BelowLast(a: string, c: char, b: string, d: char)
    requires |a| == |b|
    ensures Below(a + [c], b + [d]) <==> Below(a, b) || (a == b && Rank(c) < Rank(d))
  {
    if a == "" {
      assert a + [c] == [c] && b + [d] == [d] && [c][1..] == [d][1..] == "";
    } else {
      hide Rank;
      assert (a + [c])[1..] == a[1..] + [c] && (b + [d])[1..] == b[1..] + [d];
      assert a == [a[0]] + a[1..] && b == [b[0]] + b[1..];
      RankApart(a[0], b[0]);
      BelowLast(a[1..], c, b[1..], d);
    }
  }

  lemma RankApart(c: char, d: char)
    ensures c != d ==> Rank(c) != Rank(d)
  {}

  /** Digits of one length compare as their numbers do. */
  lemma {:induction false} SameLength(a: string, b: string)
    requires AllDigits(a) && AllDigits(b) && |a| == |b|
    ensures Below(a, b) <==> Decimal(a) < Decimal(b)
    decreases |a|
  {
    hide Below, Rank;
    if a == "" {
      OneBelow(a, b);
    } else {
      var n := |a| - 1;
      SameLength(a[..n], b[..n]);
      SameLength(b[..n], a[..n]);
      OneBelow(a[..n], b[..n]);
      DigitRanks(a[n], b[n]);
      BelowLast(a[..n], a[n], b[..n], b[n]);
      assert a[..n] + [a[n]] == a && b[..n] + [b[n]] == b;
    }
  }

  lemma DigitRanks(c: char, d: char)
    requires '0' <= c <= '9' && '0' <= d <= '9'
    ensures Rank(c) < Rank(d) <==> c < d
  {}

  /** An index is the decimal text, without leading zeros, of a number below 4294967295. */
  lemma {:induction false} IndexIsExact(key: string)
    ensures IsIndex(key) <==>
      && key != "" && AllDigits(key) && (|key| == 1 || key[0] != '0') && Decimal(key) < 4294967295
  {
    hide Decimal, Below;
    if key != "" && AllDigits(key) && (|key| == 1 || key[0] != '0') {
      DecimalBelow(key);
      TenDigits();
      if |key| == 10 {
        SameLength(key, "4294967295");
      } else if |key| < 10 {
        PowersGrow(|key|, 9);
      } else {
        PowersGrow(10, |key| - 1);
      }
    }
  }

  lemma TenDigits()
    ensures Pow10(9) == 1_000_000_000 && Pow10(10) == 10_000_000_000
    ensures AllDigits("4294967295") && Decimal("4294967295") == 4294967295
  {
    hide AllDigits, Decimal;
    assert Pow10(3) == 1000;
    assert Pow10(6) == 1000 * Pow10(3);
    assert Pow10(9) == 1000 * Pow10(6);
    NoDigits();
    Last("", '4', "4", 4);
    Last("4", '2', "42", 42);
    Last("42", '9', "429", 429);
    Last("429", '4', "4294", 4294);
    Last("4294", '9', "42949", 42949);
    Last("42949", '6', "429496", 429496);
    Last("429496", '7', "4294967", 4294967);
    Last("4294967", '2', "42949672", 42949672);
    Last("42949672", '9', "429496729", 429496729);
    Last("429496729", '5', "4294967295", 4294967295);
  }

  lemma NoDigits()
    ensures AllDigits("") && Decimal("") == 0
  {}

  lemma Last(s: string, c: char, t: string, n: nat)
    requires AllDigits(s) && '0' <= c <= '9' && t == s + [c] && n == 10 * Decimal(s) + (c as int - 48)
    ensures AllDigits(t) && Decimal(t) == n
  {
    assert t[..|t| - 1] == s;
  }

  /** Of two keys of an object, an index comes before every other key, indices come by their numbers, and other keys
      by their code units. */
  lemma {:induction false} ListedIsExact(f: Field, g: Field)
    ensures Listed(f, g) <==>
      if IsIndex(f.key) && IsIndex(g.key) then
        AllDigits(f.key) && AllDigits(g.key) && Decimal(f.key) < Decimal(g.key)
      else IsIndex(f.key) || (!IsIndex(g.key) && Below(f.key, g.key))
  {
    hide Decimal, Below;
    var a, b := f.key, g.key;
    if IsIndex(a) && IsIndex(b) {
      DecimalBelow(a);
      DecimalBelow(b);
      if |a| == |b| {
        SameLength(a, b);
      } else if |a| < |b| {
        PowersGrow(|a|, |b| - 1);
      } else {
        PowersGrow(|b|, |a| - 1);
      }
    }
  }
}
