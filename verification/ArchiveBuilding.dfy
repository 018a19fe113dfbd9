/** Exactly which resources go into an archive, and how it is laid out. */
module ArchiveBuilding {
  import opened Options
  import opened Bytes
  import opened Ordering
  import opened Container
  import Json

  const MIB: int := 1048576

  // ---------------------------------------------------------------------------
  // Archive paths
  // ---------------------------------------------------------------------------

  /** What a percent encoding leaves as it is (section 2.3 of RFC 2396). */
  predicate Kept(c: char) {
    || 'a' <= c <= 'z' || 'A' <= c <= 'Z' || '0' <= c <= '9' || c == '-' || c == '_' || c == '.' || c == '!' || c == '~'
    || c == '*' || c == '\'' || c == '(' || c == ')'
  }

  function HexDigit(n: nat): char
    requires n < 16
  {
    if n < 10 then ('0' as int + n) as char else ('A' as int + n - 10) as char
  }

  lemma HexDigits(n: nat)
    requires n < 16
    ensures HEX[n] == HexDigit(n)
  {}

  /** A character as the percent encoding of its octets in UTF-8 (section 3 of RFC 3629): the bits of its number in
      groups of six behind the marks of the first and the other octets. */
  lemma {:induction false} CharactersAreEncoded(c: char)
    ensures var n := c as int;
      && (Kept(c) ==> EncodeChar(c) == [c])
      && (!Kept(c) && n < 128 ==> EncodeChar(c) == Octet(n))
      && (128 <= n < 2048 ==> EncodeChar(c) == Octet(192 + n / 64) + Octet(128 + n % 64))
      && (2048 <= n < 65536 ==>
          EncodeChar(c) == Octet(224 + n / 4096) + Octet(128 + n / 64 % 64) + Octet(128 + n % 64))
      && (65536 <= n ==>
          EncodeChar(c)
          == Octet(240 + n / 262144) + Octet(128 + n / 4096 % 64) + Octet(128 + n / 64 % 64) + Octet(128 + n % 64))
  {
    hide HEX, Octet, Unreserved, Percent, Kept, Utf8;
    var n := c as int;
    KeptIsUnreserved(c);
    OctetsInTurn(Utf8(n));
    Octets(n);
  }

  lemma KeptIsUnreserved(c: char)
    ensures Kept(c) <==> Unreserved(c)
    ensures c as int >= 128 ==> !Kept(c)
  {}

  lemma Octets(n: nat)
    requires n < 0x11_0000
    ensures n < 128 ==> Utf8(n) == [n]
    ensures 128 <= n < 2048 ==> Utf8(n) == [192 + n / 64, 128 + n % 64]
    ensures 2048 <= n < 65536 ==> Utf8(n) == [224 + n / 4096, 128 + n / 64 % 64, 128 + n % 64]
    ensures 65536 <= n ==> Utf8(n) == [240 + n / 262144, 128 + n / 4096 % 64, 128 + n / 64 % 64, 128 + n % 64]
  {}

  function Octet(b: int): string
    requires 0 <= b < 256
  {
    ['%', HexDigit(b / 16), HexDigit(b % 16)]
  }

  lemma {:induction false} OctetsInTurn(bs: bytes)
    ensures |bs| == 1 ==> Percent(bs) == Octet(bs[0])
    ensures |bs| == 2 ==> Percent(bs) == Octet(bs[0]) + Octet(bs[1])
    ensures |bs| == 3 ==> Percent(bs) == Octet(bs[0]) + Octet(bs[1]) + Octet(bs[2])
    ensures |bs| == 4 ==> Percent(bs) == Octet(bs[0]) + Octet(bs[1]) + Octet(bs[2]) + Octet(bs[3])
  {
    hide HEX;
    if bs != [] {
      OctetFirst(bs);
      OctetsInTurn(bs[1..]);
    }
  }

  lemma OctetFirst(bs: bytes)
    requires bs != []
    ensures Percent(bs) == Octet(bs[0]) + Percent(bs[1..])
  {
    HexDigits(bs[0] / 16);
    HexDigits(bs[0] % 16);
  }

  lemma PathIs(kind: string, id: string)
    ensures ArchivePath(kind, id) == "resources/" + EncodeURIComponent(kind) + "/" + EncodeURIComponent(id)
  {}

  // ---------------------------------------------------------------------------
  // Building
  // ---------------------------------------------------------------------------

  /** The payloads one after the other, as the records list them. */
  ghost function Bodies(records: seq<Record>, payloads: map<string, bytes>): bytes {
    if records == [] then []
    else
      (if records[0].archivePath in payloads then payloads[records[0].archivePath] else [])
      + Bodies(records[1..], payloads)
  }

  lemma {:induction false} BodiesOfOthers(records: seq<Record>, payloads: map<string, bytes>, path: string)
    requires forall r :: r in records ==> r.archivePath != path
    ensures Bodies(records, payloads - {path}) == Bodies(records, payloads)
  {
    if records != [] { BodiesOfOthers(records[1..], payloads, path); }
  }

  lemma {:induction false} ConsumedBodies(records: seq<Record>, payloads: map<string, bytes>)
    requires Consumed(records, payloads).Ok?
    ensures Consumed(records, payloads).value == Bodies(records, payloads)
  {
    if records != [] {
      var first, rest := records[0], records[1..];
      ConsumedBodies(rest, payloads - {first.archivePath});
      ConsumedExactly(records, payloads);
      assert records == [first] + rest;
      DistinctRest(first, rest);
      BodiesOfOthers(rest, payloads, first.archivePath);
    }
  }

  /** No resource over 24 MiB, no more than 4096 of them and 96 MiB in all. */
  ghost predicate SizesAreGood(records: seq<Record>) {
    && |records| <= 4096 && TotalSize(records) <= 96 * MIB
    && forall r :: r in records ==> r.size <= 24 * MIB
  }

  lemma {:induction false} NoneTooLarge(records: seq<Record>)
    ensures TooLarge(records).None? <==> forall r :: r in records ==> r.size <= 24 * MIB
  {
    if records != [] {
      NoneTooLarge(records[1..]);
      assert records == [records[0]] + records[1..];
    }
  }

  /** What the manifest says: the newest schema, the given content, the records as they are sorted, and the hash of all
      that. */
  ghost predicate Describes(codec: Codec, manifest: Manifest, records: seq<Record>, data: Json.Json,
                            required: Json.Json, rest: Json.Json)
  {
    && manifest.schemaVersion == 6 && manifest.data == data && manifest.required == required && manifest.rest == rest
    && manifest.resources == records && manifest.contentHash == codec.contentHash(data, records, required)
  }

  /** What an archive is, byte by byte: "UCRS3", three zeros, the length of the manifest in network order, the manifest,
      and the payloads. */
  ghost function Layout(printed: bytes, bodies: bytes): bytes
    requires |printed| < 0x1_0000_0000
  {
    [85, 67, 82, 83, 51, 0, 0, 0] + ToBE(|printed|, 4) + printed + bodies
  }

  /** Which resources are built into an archive: sizes within the limits, none twice, and an archive within the limits
      too. It holds each of them once, in the order of the sorted records. */
  lemma {:induction false} BuildingIsExact(codec: Codec, below: (Record, Record) -> bool, fetched: seq<Fetched>,
                                           data: Json.Json, required: Json.Json, rest: Json.Json)
    ensures var records := Sorted(RecordsOf(codec, fetched), below);
      var manifest := ManifestOf(codec, records, data, required, rest);
      var printed := codec.render(manifest);
      var bodies := Bodies(records, PayloadsOf(fetched));
      var built := BuildOf(codec, below, fetched, data, required, rest);
      && Describes(codec, manifest, records, data, required, rest)
      && (built.Ok? <==>
          && SizesAreGood(records) && DistinctResources(fetched) && |printed| < 0x1_0000_0000
          && |Layout(printed, bodies)| <= 128 * MIB && |codec.gzip(Layout(printed, bodies))| <= 32 * MIB)
      && (built.Ok? ==> built.value == Built(manifest, codec.gzip(Layout(printed, bodies))))
  {
    hide Sorted, RecordsOf, PayloadsOf, Consumed, Bodies, TooLarge, TotalSize, DistinctResources, ToBE;
    var records := Sorted(RecordsOf(codec, fetched), below);
    var printed := codec.render(ManifestOf(codec, records, data, required, rest));
    DuplicatesAreRefused(codec, below, fetched);
    NoneTooLarge(records);
    if Consumed(records, PayloadsOf(fetched)).Ok? {
      ConsumedBodies(records, PayloadsOf(fetched));
      if |printed| < 0x1_0000_0000 { LayoutIs(printed, Bodies(records, PayloadsOf(fetched))); }
    }
  }

  lemma LayoutIs(printed: bytes, bodies: bytes)
    requires |printed| < 0x1_0000_0000
    ensures Layout(printed, bodies) == Header(|printed|) + printed + bodies
  {
    hide ToBE;
    assert ToBE(0, 2) == [0, 0] by { ZeroField(); }
  }

  lemma ZeroField()
    ensures ToBE(0, 2) == [0, 0]
  {}

  /** Every record says what was fetched: type, id, length, hash and path. */
  lemma RecordsSay(codec: Codec, fetched: seq<Fetched>, i: nat)
    requires i < |fetched|
    ensures var r, f := RecordsOf(codec, fetched)[i], fetched[i];
      && |RecordsOf(codec, fetched)| == |fetched| && r.kind == f.kind && r.id == f.id && r.size == |f.payload|
      && r.sha256 == codec.sha256(f.payload) && r.archivePath == ArchivePath(f.kind, f.id)
  {
    hide ArchivePath;
  }
}
