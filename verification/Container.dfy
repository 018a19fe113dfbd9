/** The binary archive that carries a manifest and the resources it lists. */
module Container {
  import opened Options
  import opened Bytes
  import opened Ordering
  import Json

  const MAX_SNAPSHOT_BYTES := 32 * 1024 * 1024
  const MAX_UNCOMPRESSED_SNAPSHOT_BYTES := 128 * 1024 * 1024
  const MAX_RESOURCE_BYTES := 24 * 1024 * 1024
  const MAX_TOTAL_RESOURCE_BYTES := 96 * 1024 * 1024
  const MAX_RESOURCE_COUNT := 4096
  const SNAPSHOT_SCHEMA_VERSION := 6

  // ---------------------------------------------------------------------------
  // Records
  // ---------------------------------------------------------------------------

  /** A line of the manifest. What a reader gets can have any whole number as its size. */
  datatype Record = Record(kind: string, id: string, size: int, sha256: string, archivePath: string)

  datatype Manifest = Manifest(schemaVersion: int, data: Json.Json, resources: seq<Record>, required: Json.Json,
                               contentHash: string, rest: Json.Json)

  datatype Fetched = Fetched(kind: string, id: string, payload: bytes)

  datatype Envelope = Envelope(format: string, manifest: Option<Manifest>, resources: map<string, bytes>)

  datatype Snapshot = Snapshot(manifest: Manifest, resources: map<string, bytes>)

  datatype Built = Built(manifest: Manifest, payload: bytes)

  datatype Error =
    | TooManyResources | TotalTooLarge | ResourceTooLarge(path: string) | ManifestTooLong | MissingPayload(path: string)
    | UncompressedTooLarge | SnapshotTooLarge | InvalidArchive | BadManifestLength | UnsafePath(path: string)
    | BadSize(path: string) | HashMismatch(path: string) | UnsupportedFormat | UnsupportedSchema | ContentHashMismatch

  datatype Result<+T> = Ok(value: T) | Err(error: Error)

  /** The printer and parser of manifests, the hashes and the compressor, which the model leaves open. */
  datatype Codec = Codec(render: Manifest -> bytes, parse: bytes -> Option<Manifest>,
                         envelope: bytes -> Option<Envelope>,
                         contentHash: (Json.Json, seq<Record>, Json.Json) -> string, sha256: bytes -> string,
                         gzip: bytes -> bytes, gunzip: bytes -> Option<bytes>)

  /** The parser gives this manifest back from its text, as it does when every object in it has each key once, in
      the order in which it is enumerated, and every number is printed as the printer does. */
  ghost predicate Faithful(codec: Codec, manifest: Manifest) {
    && codec.render(manifest) != [] && codec.parse(codec.render(manifest)) == Some(manifest)
    && (forall x :: codec.gunzip(codec.gzip(x)) == Some(x))
  }

  // ---------------------------------------------------------------------------
  // Archive paths
  // ---------------------------------------------------------------------------

  const HEX: string := "0123456789ABCDEF"

  predicate Unreserved(c: char) {
    'a' <= c <= 'z' || 'A' <= c <= 'Z' || '0' <= c <= '9' || c in {'-', '_', '.', '!', '~', '*', '\'', '(', ')'}
  }

  function Utf8(n: int): bytes
    requires 0 <= n < 0x11_0000
  {
    if n < 0x80 then [n]
    else if n < 0x800 then [0xC0 + n / 64, 0x80 + n % 64]
    else if n < 0x1_0000 then [0xE0 + n / 4096, 0x80 + n / 64 % 64, 0x80 + n % 64]
    else [0xF0 + n / 262144, 0x80 + n / 4096 % 64, 0x80 + n / 64 % 64, 0x80 + n % 64]
  }

  function Percent(bs: bytes): string {
    if bs == [] then ""
    else
      var b: int := bs[0];
      ['%', HEX[b / 16], HEX[b % 16]] + Percent(bs[1..])
  }

  function EncodeChar(c: char): string {
    if Unreserved(c) then [c] else Percent(Utf8(c as int))
  }

  function EncodeURIComponent(text: string): string {
    if text == "" then "" else EncodeChar(text[0]) + EncodeURIComponent(text[1..])
  }

  function ArchivePath(kind: string, id: string): string {
    "resources/" + EncodeURIComponent(kind) + "/" + EncodeURIComponent(id)
  }

  predicate HasDots(s: string) {
    |s| >= 2 && ((s[0] == '.' && s[1] == '.') || HasDots(s[1..]))
  }

  predicate Safe(path: string) {
    path != "" && !HasDots(path) && path[0] != '/' && '\\' !in path
  }

  // ---------------------------------------------------------------------------
  // Building
  // ---------------------------------------------------------------------------

  function RecordOf(codec: Codec, f: Fetched): Record {
    Record(f.kind, f.id, |f.payload|, codec.sha256(f.payload), ArchivePath(f.kind, f.id))
  }

  function RecordsOf(codec: Codec, fetched: seq<Fetched>): seq<Record> {
    seq(|fetched|, i requires 0 <= i < |fetched| => RecordOf(codec, fetched[i]))
  }

  function PayloadsOf(fetched: seq<Fetched>): map<string, bytes> {
    if fetched == [] then map[]
    else
      var f := fetched[|fetched| - 1];
      PayloadsOf(fetched[..|fetched| - 1])[ArchivePath(f.kind, f.id) := f.payload]
  }

  function TotalSize(records: seq<Record>): int {
    if records == [] then 0 else records[0].size + TotalSize(records[1..])
  }

  function TooLarge(records: seq<Record>): Option<string> {
    if records == [] then None
    else if records[0].size > MAX_RESOURCE_BYTES then Some(records[0].archivePath)
    else TooLarge(records[1..])
  }

  function SizeProblem(records: seq<Record>): Option<Error> {
    if |records| > MAX_RESOURCE_COUNT then Some(TooManyResources)
    else if TotalSize(records) > MAX_TOTAL_RESOURCE_BYTES then Some(TotalTooLarge)
    else if TooLarge(records).Some? then Some(ResourceTooLarge(TooLarge(records).value))
    else None
  }

  /** Takes the payload of each record out of the table; a record whose payload is gone has none. */
  function Consumed(records: seq<Record>, payloads: map<string, bytes>): Result<bytes> {
    if records == [] then Ok([])
    else if records[0].archivePath !in payloads then Err(MissingPayload(records[0].archivePath))
    else
      match Consumed(records[1..], payloads - {records[0].archivePath})
      case Err(e) => Err(e)
      case Ok(rest) => Ok(payloads[records[0].archivePath] + rest)
  }

  const MAGIC: bytes := [85, 67, 82, 83, 51]

  function Header(manifestLength: nat): (r: bytes)
    ensures |r| == 12
  {
    MAGIC + [0] + ToBE(0, 2) + ToBE(manifestLength, 4)
  }

  function ManifestOf(codec: Codec, records: seq<Record>, data: Json.Json, required: Json.Json,
                      rest: Json.Json): Manifest
  {
    Manifest(SNAPSHOT_SCHEMA_VERSION, data, records, required, codec.contentHash(data, records, required), rest)
  }

  function BuildOf(codec: Codec, below: (Record, Record) -> bool, fetched: seq<Fetched>, data: Json.Json,
                   required: Json.Json, rest: Json.Json)
    : Result<Built>
  {
    var records := Sorted(RecordsOf(codec, fetched), below);
    var manifest := ManifestOf(codec, records, data, required, rest);
    if SizeProblem(records).Some? then Err(SizeProblem(records).value)
    else
      var printed := codec.render(manifest);
      if |printed| >= 0x1_0000_0000 then Err(ManifestTooLong)
      else
        match Consumed(records, PayloadsOf(fetched))
        case Err(e) => Err(e)
        case Ok(bodies) =>
          var uncompressed := Header(|printed|) + printed + bodies;
          if |uncompressed| > MAX_UNCOMPRESSED_SNAPSHOT_BYTES then Err(UncompressedTooLarge)
          else if |codec.gzip(uncompressed)| > MAX_SNAPSHOT_BYTES then Err(SnapshotTooLarge)
          else Ok(Built(manifest, codec.gzip(uncompressed)))
  }

  method Build(codec: Codec, below: (Record, Record) -> bool, fetched: seq<Fetched>, data: Json.Json,
               required: Json.Json, rest: Json.Json)
    returns (r: Result<Built>)
    ensures r == BuildOf(codec, below, fetched, data, required, rest)
  {
    var records, payloads := CollectResources(codec, fetched);
    records := Sorted(records, below);
    var manifest := ManifestOf(codec, records, data, required, rest);
    var problem := CheckSizes(records);
    if problem.Some? { return Err(problem.value); }
    var printed := codec.render(manifest);
    if |printed| >= 0x1_0000_0000 { return Err(ManifestTooLong); }
    var bodies := ConcatenatePayloads(records, payloads);
    if bodies.Err? { return Err(bodies.error); }
    var uncompressed := Header(|printed|) + printed + bodies.value;
    if |uncompressed| > MAX_UNCOMPRESSED_SNAPSHOT_BYTES { return Err(UncompressedTooLarge); }
    var payload := codec.gzip(uncompressed);
    if |payload| > MAX_SNAPSHOT_BYTES { return Err(SnapshotTooLarge); }
    return Ok(Built(manifest, payload));
  }

  method CollectResources(codec: Codec, fetched: seq<Fetched>)
    returns (records: seq<Record>, payloads: map<string, bytes>)
    ensures records == RecordsOf(codec, fetched) && payloads == PayloadsOf(fetched)
  {
    hide PayloadsOf, ArchivePath;
    records, payloads := [], map[];
    NoPayloads();
    for i := 0 to |fetched|
      invariant records == RecordsOf(codec, fetched[..i]) && payloads == PayloadsOf(fetched[..i])
    {
      records := records + [RecordOf(codec, fetched[i])];
      payloads := payloads[ArchivePath(fetched[i].kind, fetched[i].id) := fetched[i].payload];
      PayloadsNext(fetched, i);
    }
    assert fetched[..|fetched|] == fetched;
  }

  method CheckSizes(records: seq<Record>) returns (problem: Option<Error>)
    ensures problem == SizeProblem(records)
  {
    if |records| > MAX_RESOURCE_COUNT { return Some(TooManyResources); }
    var total := 0;
    for i := 0 to |records|
      invariant total + TotalSize(records[i..]) == TotalSize(records)
    {
      total := total + records[i].size;
      assert records[i..][1..] == records[i + 1..];
    }
    if total > MAX_TOTAL_RESOURCE_BYTES { return Some(TotalTooLarge); }
    for i := 0 to |records|
      invariant TooLarge(records[i..]) == TooLarge(records)
    {
      if records[i].size > MAX_RESOURCE_BYTES { return Some(ResourceTooLarge(records[i].archivePath)); }
      assert records[i..][1..] == records[i + 1..];
    }
    return None;
  }

  method ConcatenatePayloads(records: seq<Record>, payloads: map<string, bytes>) returns (r: Result<bytes>)
    ensures r == Consumed(records, payloads)
  {
    var bodies: bytes, left := [], payloads;
    assert records[0..] == records;
    if Consumed(records, payloads).Ok? {
      assert bodies + Consumed(records, payloads).value == Consumed(records, payloads).value;
    }
    for i := 0 to |records|
      invariant match Consumed(records[i..], left)
        case Err(e) => Consumed(records, payloads) == Err(e)
        case Ok(more) => Consumed(records, payloads) == Ok(bodies + more)
    {
      var path := records[i].archivePath;
      if path !in left { return Err(MissingPayload(path)); }
      assert records[i..][1..] == records[i + 1..];
      ghost var more := Consumed(records[i + 1..], left - {path});
      if more.Ok? { assert bodies + (left[path] + more.value) == (bodies + left[path]) + more.value; }
      bodies := bodies + left[path];
      left := left - {path};
    }
    assert bodies + [] == bodies;
    return Ok(bodies);
  }

  lemma NoPayloads()
    ensures PayloadsOf([]) == map[]
  {}

  lemma PayloadsNext(fetched: seq<Fetched>, i: nat)
    requires i < |fetched|
    ensures PayloadsOf(fetched[..i + 1])
      == PayloadsOf(fetched[..i])[ArchivePath(fetched[i].kind, fetched[i].id) := fetched[i].payload]
  {
    assert fetched[..i + 1][..i] == fetched[..i];
  }

  // ---------------------------------------------------------------------------
  // Reading
  // ---------------------------------------------------------------------------

  /** A view of a buffer: negative positions count from the end, and positions outside are moved inside. */
  function Subarray(buffer: bytes, start: int, end: int): bytes {
    var i := Clamped(start, |buffer|);
    var j := Clamped(end, |buffer|);
    if i < j then buffer[i..j] else []
  }

  function Clamped(position: int, length: nat): (r: nat)
    ensures r <= length
  {
    if position < 0 then (if length + position < 0 then 0 else length + position)
    else if position > length then length else position
  }

  function Walked(codec: Codec, items: seq<Record>, buffer: bytes, offset: int, total: int,
                  resources: map<string, bytes>)
    : Result<map<string, bytes>>
    decreases |items|
  {
    if items == [] then Ok(resources)
    else
      var item := items[0];
      if !Safe(item.archivePath) then Err(UnsafePath(item.archivePath))
      else if item.size > MAX_RESOURCE_BYTES || offset + item.size > |buffer| then Err(BadSize(item.archivePath))
      else
        var data := Subarray(buffer, offset, offset + item.size);
        if total + item.size > MAX_TOTAL_RESOURCE_BYTES then Err(TotalTooLarge)
        else if codec.sha256(data) != item.sha256 then Err(HashMismatch(item.archivePath))
        else Walked(codec, items[1..], buffer, offset + item.size, total + item.size,
                    resources[item.archivePath := data])
  }

  function Validated(codec: Codec, manifest: Manifest, resources: map<string, bytes>): Result<Snapshot> {
    if manifest.schemaVersion !in {4, 5, SNAPSHOT_SCHEMA_VERSION} then Err(UnsupportedSchema)
    else if codec.contentHash(manifest.data, manifest.resources, manifest.required) != manifest.contentHash
    then Err(ContentHashMismatch)
    else Ok(Snapshot(manifest, resources))
  }

  function ReadBinary(codec: Codec, buffer: bytes): Result<Snapshot> {
    if |buffer| < 12 then Err(BadManifestLength)
    else
      var length := FromBE(buffer[8..12]);
      if length <= 0 || 12 + length > |buffer| then Err(BadManifestLength)
      else
        match codec.parse(buffer[12..12 + length])
        case None => Err(InvalidArchive)
        case Some(manifest) =>
          if |manifest.resources| > MAX_RESOURCE_COUNT then Err(TooManyResources)
          else
            match Walked(codec, manifest.resources, buffer, 12 + length, 0, map[])
            case Err(e) => Err(e)
            case Ok(resources) => Validated(codec, manifest, resources)
  }

  /** The older form: the payloads stand beside the manifest. */
  function Unpacked(codec: Codec, items: seq<Record>, payloads: map<string, bytes>, total: int,
                    resources: map<string, bytes>)
    : Result<map<string, bytes>>
    decreases |items|
  {
    if items == [] then Ok(resources)
    else
      var item := items[0];
      if !Safe(item.archivePath) then Err(UnsafePath(item.archivePath))
      else if item.archivePath !in payloads then Err(MissingPayload(item.archivePath))
      else
        var data := payloads[item.archivePath];
        if |data| > MAX_RESOURCE_BYTES || total + |data| > MAX_TOTAL_RESOURCE_BYTES
        then Err(ResourceTooLarge(item.archivePath))
        else if |data| != item.size then Err(BadSize(item.archivePath))
        else if codec.sha256(data) != item.sha256 then Err(HashMismatch(item.archivePath))
        else Unpacked(codec, items[1..], payloads, total + |data|, resources[item.archivePath := data])
  }

  function ReadEnvelope(codec: Codec, buffer: bytes): Result<Snapshot> {
    match codec.envelope(buffer)
    case None => Err(InvalidArchive)
    case Some(e) =>
      if e.format != "uc-remote-sync-gzip-json-v1" then Err(UnsupportedFormat)
      else
        match e.manifest
        case None => Err(UnsupportedSchema)
        case Some(manifest) =>
          match Unpacked(codec, manifest.resources, e.resources, 0, map[])
          case Err(error) => Err(error)
          case Ok(resources) => Validated(codec, manifest, resources)
  }

  /** The first five bytes read as ASCII, where the high bit of a byte does not count. */
  predicate IsBinary(buffer: bytes) {
    |buffer| >= 5 && forall i :: 0 <= i < 5 ==> buffer[i] % 128 == MAGIC[i]
  }

  function ReadOf(codec: Codec, payload: bytes): Result<Snapshot> {
    if |payload| > MAX_SNAPSHOT_BYTES then Err(SnapshotTooLarge)
    else
      match codec.gunzip(payload)
      case None => Err(InvalidArchive)
      case Some(buffer) =>
        if |buffer| > MAX_UNCOMPRESSED_SNAPSHOT_BYTES then Err(InvalidArchive)
        else if IsBinary(buffer) then ReadBinary(codec, buffer)
        else ReadEnvelope(codec, buffer)
  }

  method Read(codec: Codec, payload: bytes) returns (r: Result<Snapshot>)
    ensures r == ReadOf(codec, payload)
  {
    if |payload| > MAX_SNAPSHOT_BYTES { return Err(SnapshotTooLarge); }
    var uncompressed := codec.gunzip(payload);
    if uncompressed.None? { return Err(InvalidArchive); }
    var buffer := uncompressed.value;
    if |buffer| > MAX_UNCOMPRESSED_SNAPSHOT_BYTES { return Err(InvalidArchive); }
    if !IsBinary(buffer) {
      r := ReadEnvelope(codec, buffer);
      return;
    }
    if |buffer| < 12 { return Err(BadManifestLength); }
    var manifestLength := FromBE(buffer[8..12]);
    if manifestLength <= 0 || 12 + manifestLength > |buffer| { return Err(BadManifestLength); }
    var manifest := codec.parse(buffer[12..12 + manifestLength]);
    if manifest.None? { return Err(InvalidArchive); }
    var items := manifest.value.resources;
    if |items| > MAX_RESOURCE_COUNT { return Err(TooManyResources); }
    var resources := ReadResources(codec, items, buffer, 12 + manifestLength);
    if resources.Err? { return Err(resources.error); }
    r := Validated(codec, manifest.value, resources.value);
  }

  method ReadResources(codec: Codec, items: seq<Record>, buffer: bytes, start: nat)
    returns (r: Result<map<string, bytes>>)
    ensures r == Walked(codec, items, buffer, start, 0, map[])
  {
    hide Subarray, Safe;
    var resources: map<string, bytes>, offset: int, total: int := map[], start, 0;
    for i := 0 to |items|
      invariant Walked(codec, items[i..], buffer, offset, total, resources)
        == Walked(codec, items, buffer, start, 0, map[])
    {
      var item := items[i];
      if !Safe(item.archivePath) { return Err(UnsafePath(item.archivePath)); }
      if item.size > MAX_RESOURCE_BYTES || offset + item.size > |buffer| { return Err(BadSize(item.archivePath)); }
      var data := Subarray(buffer, offset, offset + item.size);
      offset, total := offset + item.size, total + item.size;
      if total > MAX_TOTAL_RESOURCE_BYTES { return Err(TotalTooLarge); }
      if codec.sha256(data) != item.sha256 { return Err(HashMismatch(item.archivePath)); }
      resources := resources[item.archivePath := data];
      assert items[i..][1..] == items[i + 1..];
    }
    return Ok(resources);
  }

  // ---------------------------------------------------------------------------
  // Archive paths are unambiguous
  // ---------------------------------------------------------------------------

  predicate CleanChar(c: char) {
    c !in {'.', '/', '\\'}
  }

  lemma HexClean(i: nat)
    requires i < 16
    ensures CleanChar(HEX[i])
  {}

  lemma {:induction false} PercentClean(bs: bytes)
    ensures forall i :: 0 <= i < |Percent(bs)| ==> CleanChar(Percent(bs)[i])
  {
    hide CleanChar;
    if bs != [] {
      var b: int := bs[0];
      PercentClean(bs[1..]);
      HexClean(b / 16);
      HexClean(b % 16);
      assert CleanChar('%') by { PercentIsClean(); }
    }
  }

  lemma PercentIsClean()
    ensures CleanChar('%')
  {}

  lemma {:induction false} EncodedClean(text: string)
    ensures forall i :: 0 <= i < |EncodeURIComponent(text)| ==> EncodeURIComponent(text)[i] !in {'/', '\\'}
  {
    if text != "" {
      EncodedClean(text[1..]);
      PercentClean(Utf8(text[0] as int));
    }
  }

  lemma {:induction false} DotsAfter(a: string, b: string)
    requires forall i :: 0 <= i < |a| ==> a[i] != '.'
    ensures HasDots(a + b) <==> HasDots(b)
  {
    if a == "" {
      assert a + b == b;
    } else {
      assert (a + b)[1..] == a[1..] + b;
      DotsAfter(a[1..], b);
    }
  }

  lemma {:induction false} DotsAround(a: string, c: char, b: string)
    requires c != '.'
    ensures HasDots(a + [c] + b) <==> HasDots(a) || HasDots(b)
  {
    var all := a + [c] + b;
    if a == "" {
      assert all == [c] + b;
      DotsAfter([c], b);
    } else {
      assert all[1..] == a[1..] + [c] + b;
      DotsAround(a[1..], c, b);
      if |a| >= 2 { assert all[1] == a[1]; } else { assert all[1] == c; }
    }
  }

  lemma EncodedStart(text: string)
    ensures EncodeURIComponent(text) == "" <==> text == ""
    ensures text != "" ==> (EncodeURIComponent(text)[0] == '.' <==> text[0] == '.')
  {}

  lemma {:induction false} EncodedDots(text: string)
    ensures HasDots(EncodeURIComponent(text)) <==> HasDots(text)
  {
    if text != "" {
      var c, rest := text[0], EncodeURIComponent(text[1..]);
      EncodedDots(text[1..]);
      EncodedStart(text[1..]);
      if c == '.' {
        assert EncodeURIComponent(text) == [c] + rest;
        assert ([c] + rest)[1..] == rest;
      } else {
        PercentClean(Utf8(c as int));
        DotsAfter(EncodeChar(c), rest);
      }
    }
  }

  /** A path can be read back exactly when neither the type nor the id has two dots in a row. */
  lemma PathIsSafe(kind: string, id: string)
    ensures Safe(ArchivePath(kind, id)) <==> !HasDots(kind) && !HasDots(id)
  {
    hide EncodeURIComponent, HasDots;
    var k, i := EncodeURIComponent(kind), EncodeURIComponent(id);
    EncodedClean(kind);
    EncodedClean(id);
    EncodedDots(kind);
    EncodedDots(id);
    DotsAround(k, '/', i);
    DotsAfter("resources/", k + "/" + i);
    assert ArchivePath(kind, id) == "resources/" + (k + "/" + i);
  }

  lemma PercentByte(b: int, c: int, x: string, y: string)
    requires 0 <= b < 256 && 0 <= c < 256
    requires ['%', HEX[b / 16], HEX[b % 16]] + x == ['%', HEX[c / 16], HEX[c % 16]] + y
    ensures b == c && x == y
  {
    var p, q := ['%', HEX[b / 16], HEX[b % 16]], ['%', HEX[c / 16], HEX[c % 16]];
    assert p[1] == (p + x)[1] == (q + y)[1] == q[1] && p[2] == (p + x)[2] == (q + y)[2] == q[2];
    HexApart(b / 16, c / 16);
    HexApart(b % 16, c % 16);
    assert x == (p + x)[3..] && y == (q + y)[3..];
  }

  lemma HexApart(i: nat, j: nat)
    requires i < 16 && j < 16 && HEX[i] == HEX[j]
    ensures i == j
  {}

  lemma {:induction false} PercentApart(bs: bytes, cs: bytes, x: string, y: string)
    requires |bs| == |cs| && Percent(bs) + x == Percent(cs) + y
    ensures bs == cs && x == y
  {
    if bs == [] {
      assert Percent(bs) + x == x && Percent(cs) + y == y;
    } else {
      PercentSplit(bs, x);
      PercentSplit(cs, y);
      PercentByte(bs[0], cs[0], Percent(bs[1..]) + x, Percent(cs[1..]) + y);
      PercentApart(bs[1..], cs[1..], x, y);
      assert bs == [bs[0]] + bs[1..] && cs == [cs[0]] + cs[1..];
    }
  }

  lemma PercentSplit(bs: bytes, x: string)
    requires bs != []
    ensures var b: int := bs[0]; Percent(bs) + x == ['%', HEX[b / 16], HEX[b % 16]] + (Percent(bs[1..]) + x)
  {}

  /** The first byte of a character tells how many there are. */
  lemma Utf8Width(n: int, m: int)
    requires 0 <= n < 0x11_0000 && 0 <= m < 0x11_0000 && Utf8(n)[0] == Utf8(m)[0]
    ensures |Utf8(n)| == |Utf8(m)|
  {}

  lemma Utf8Apart(n: int, m: int)
    requires 0 <= n < 0x11_0000 && 0 <= m < 0x11_0000 && Utf8(n) == Utf8(m)
    ensures n == m
  {
    Utf8Width(n, m);
    assert Utf8(n)[|Utf8(n)| - 1] == Utf8(m)[|Utf8(n)| - 1];
    if |Utf8(n)| == 2 {
      assert n == 64 * (n / 64) + n % 64 && m == 64 * (m / 64) + m % 64;
    } else if |Utf8(n)| == 3 {
      assert Utf8(n)[0] == Utf8(m)[0] && Utf8(n)[1] == Utf8(m)[1];
      Three(n);
      Three(m);
    } else if |Utf8(n)| == 4 {
      assert Utf8(n)[0] == Utf8(m)[0] && Utf8(n)[1] == Utf8(m)[1] && Utf8(n)[2] == Utf8(m)[2];
      Four(n);
      Four(m);
    }
  }

  lemma Three(n: nat)
    ensures n == 4096 * (n / 4096) + 64 * (n / 64 % 64) + n % 64
  {
    var q := n / 64;
    assert n == 64 * q + n % 64 && q == 64 * (q / 64) + q % 64 && q / 64 == n / 4096;
  }

  lemma Four(n: nat)
    ensures n == 262144 * (n / 262144) + 4096 * (n / 4096 % 64) + 64 * (n / 64 % 64) + n % 64
  {
    var q := n / 4096;
    Three(n);
    assert q == 64 * (q / 64) + q % 64 && q / 64 == n / 262144;
  }

  lemma CharApart(c: char, d: char, x: string, y: string)
    requires EncodeChar(c) + x == EncodeChar(d) + y
    ensures c == d && x == y
  {
    var u, v := EncodeChar(c), EncodeChar(d);
    assert u[0] == (u + x)[0] == (v + y)[0] == v[0];
    if Unreserved(c) {
      assert x == (u + x)[1..] && y == (v + y)[1..];
    } else {
      var bs, cs := Utf8(c as int), Utf8(d as int);
      PercentSplit(bs, x);
      PercentSplit(cs, y);
      PercentByte(bs[0], cs[0], Percent(bs[1..]) + x, Percent(cs[1..]) + y);
      Utf8Width(c as int, d as int);
      PercentApart(bs, cs, x, y);
      Utf8Apart(c as int, d as int);
    }
  }

  lemma {:induction false} EncodedApart(s: string, t: string)
    requires EncodeURIComponent(s) == EncodeURIComponent(t)
    ensures s == t
  {
    hide EncodeChar;
    EncodedStart(s);
    EncodedStart(t);
    if s != "" {
      CharApart(s[0], t[0], EncodeURIComponent(s[1..]), EncodeURIComponent(t[1..]));
      EncodedApart(s[1..], t[1..]);
      assert s == [s[0]] + s[1..] && t == [t[0]] + t[1..];
    }
  }

  /** Two resources share a path only when they have the same type and the same id. */
  lemma {:induction false} PathIsUnique(kind: string, id: string, kind': string, id': string)
    requires ArchivePath(kind, id) == ArchivePath(kind', id')
    ensures kind == kind' && id == id'
  {
    hide EncodeURIComponent;
    var k, i, k', i' :=
      EncodeURIComponent(kind), EncodeURIComponent(id), EncodeURIComponent(kind'), EncodeURIComponent(id');
    assert ArchivePath(kind, id)[10..] == k + "/" + i && ArchivePath(kind', id')[10..] == k' + "/" + i';
    EncodedClean(kind);
    EncodedClean(kind');
    SplitAt('/', k, i, k', i');
    EncodedApart(kind, kind');
    EncodedApart(id, id');
  }

  // ---------------------------------------------------------------------------
  // What a reader accepts
  // ---------------------------------------------------------------------------

  function StartOf(items: seq<Record>, k: nat, offset: int): int
    requires k <= |items|
  {
    offset + TotalSize(items[..k])
  }

  lemma StartAfter(items: seq<Record>, k: nat, offset: int)
    requires 0 < k <= |items|
    ensures StartOf(items, k, offset) == StartOf(items[1..], k - 1, offset + items[0].size)
  {
    assert items[..k][1..] == items[1..][..k - 1];
  }

  /** The bytes that the reader takes for entry `k`. */
  function Slice(items: seq<Record>, buffer: bytes, k: nat, offset: int): bytes
    requires k < |items|
  {
    Subarray(buffer, StartOf(items, k, offset), StartOf(items, k, offset) + items[k].size)
  }

  /** Entry `k` lies inside the buffer and starts where the one before it ends. */
  ghost predicate InPlace(items: seq<Record>, buffer: bytes, k: nat, offset: int)
    requires k < |items|
  {
    var start := StartOf(items, k, offset);
    && 0 <= offset <= start <= start + items[k].size <= |buffer|
    && StartOf(items, k + 1, offset) == start + items[k].size
    && Slice(items, buffer, k, offset) == buffer[start..start + items[k].size]
  }

  lemma {:induction false} StartNext(items: seq<Record>, k: nat, offset: int)
    requires k < |items|
    ensures StartOf(items, k + 1, offset) == StartOf(items, k, offset) + items[k].size
  {
    if k > 0 {
      StartAfter(items, k + 1, offset);
      StartAfter(items, k, offset);
      StartNext(items[1..], k - 1, offset + items[0].size);
    } else {
      assert items[..0] == [] && items[..1][1..] == [];
    }
  }

  /** Whatever was accepted: every path is safe and every entry has the hash that the manifest states. */
  lemma {:induction false} AcceptedHashes(codec: Codec, items: seq<Record>, buffer: bytes, offset: int, total: int,
                                          resources: map<string, bytes>, k: nat)
    requires Walked(codec, items, buffer, offset, total, resources).Ok? && k < |items|
    ensures Safe(items[k].archivePath) && items[k].size <= MAX_RESOURCE_BYTES
    ensures codec.sha256(Slice(items, buffer, k, offset)) == items[k].sha256
    ensures StartOf(items, k, offset) + items[k].size <= |buffer|
    ensures total + TotalSize(items) <= MAX_TOTAL_RESOURCE_BYTES
    decreases k
  {
    hide Subarray, Safe;
    if k > 0 {
      StartAfter(items, k, offset);
      AcceptedHashes(codec, items[1..], buffer, offset + items[0].size, total + items[0].size,
                     resources[items[0].archivePath := Subarray(buffer, offset, offset + items[0].size)], k - 1);
    } else {
      assert items[..0] == [];
      WalkedTotal(codec, items, buffer, offset, total, resources);
    }
  }

  lemma {:induction false} WalkedTotal(codec: Codec, items: seq<Record>, buffer: bytes, offset: int, total: int,
                                       resources: map<string, bytes>)
    requires Walked(codec, items, buffer, offset, total, resources).Ok? && items != []
    ensures total + TotalSize(items) <= MAX_TOTAL_RESOURCE_BYTES
    decreases |items|
  {
    hide Subarray, Safe;
    if |items| > 1 {
      WalkedTotal(codec, items[1..], buffer, offset + items[0].size, total + items[0].size,
                  resources[items[0].archivePath := Subarray(buffer, offset, offset + items[0].size)]);
    }
  }

  /** A path that no entry has is as before. */
  lemma {:induction false} OtherPaths(codec: Codec, items: seq<Record>, buffer: bytes, offset: int, total: int,
                                      resources: map<string, bytes>, path: string)
    requires Walked(codec, items, buffer, offset, total, resources).Ok?
      && forall k :: 0 <= k < |items| ==> items[k].archivePath != path
    ensures var r := Walked(codec, items, buffer, offset, total, resources).value;
      (path in r <==> path in resources) && (path in r ==> r[path] == resources[path])
    decreases |items|
  {
    hide Subarray, Safe;
    if items != [] {
      OtherPaths(codec, items[1..], buffer, offset + items[0].size, total + items[0].size,
                 resources[items[0].archivePath := Subarray(buffer, offset, offset + items[0].size)], path);
    }
  }

  /** The result holds for every path the bytes of the last entry with that path. */
  lemma {:induction false} AcceptedResource(codec: Codec, items: seq<Record>, buffer: bytes, offset: int, total: int,
                                            resources: map<string, bytes>, k: nat)
    requires Walked(codec, items, buffer, offset, total, resources).Ok?
    requires k < |items| && forall j :: k < j < |items| ==> items[j].archivePath != items[k].archivePath
    ensures var r := Walked(codec, items, buffer, offset, total, resources).value;
      items[k].archivePath in r && r[items[k].archivePath] == Slice(items, buffer, k, offset)
    decreases |items|
  {
    hide Subarray, Safe;
    var rest, next := items[1..], offset + items[0].size;
    var more := resources[items[0].archivePath := Subarray(buffer, offset, next)];
    if k > 0 {
      StartAfter(items, k, offset);
      AcceptedResource(codec, rest, buffer, next, total + items[0].size, more, k - 1);
    } else {
      assert items[..0] == [];
      OtherPaths(codec, rest, buffer, next, total + items[0].size, more, items[0].archivePath);
    }
  }

  lemma StartGrows(items: seq<Record>, k: nat, offset: int)
    requires k <= |items| && forall i :: 0 <= i < k ==> items[i].size >= 0
    ensures StartOf(items, k, offset) >= offset
    decreases k
  {
    if k == 0 { assert items[..0] == []; } else {
      StartGrows(items, k - 1, offset);
      StartNext(items, k - 1, offset);
    }
  }

  /** In an accepted archive the entries follow each other inside the buffer, each as long as stated, exactly
      when no stated size is negative. */
  lemma EntriesInPlace(codec: Codec, items: seq<Record>, buffer: bytes, offset: nat)
    requires Walked(codec, items, buffer, offset, 0, map[]).Ok?
    ensures (forall k :: 0 <= k < |items| ==> InPlace(items, buffer, k, offset)) <==>
      forall k :: 0 <= k < |items| ==> items[k].size >= 0
    ensures (forall k :: 0 <= k < |items| ==> |Slice(items, buffer, k, offset)| == items[k].size)
      <==> forall k :: 0 <= k < |items| ==> items[k].size >= 0
  {
    hide InPlace, Slice;
    if forall k :: 0 <= k < |items| ==> items[k].size >= 0 {
      forall k: nat | k < |items|
        ensures InPlace(items, buffer, k, offset) && |Slice(items, buffer, k, offset)| == items[k].size
      {
        StartGrows(items, k, offset);
        AcceptedHashes(codec, items, buffer, offset, 0, map[], k);
        EntryInPlace(items, buffer, k, offset);
      }
    }
    forall k: nat | k < |items|
      ensures InPlace(items, buffer, k, offset) ==> items[k].size >= 0
    {
      InPlaceSize(items, buffer, k, offset);
    }
  }

  lemma EntryInPlace(items: seq<Record>, buffer: bytes, k: nat, offset: nat)
    requires k < |items| && items[k].size >= 0 && offset <= StartOf(items, k, offset)
    requires StartOf(items, k, offset) + items[k].size <= |buffer|
    ensures InPlace(items, buffer, k, offset) && |Slice(items, buffer, k, offset)| == items[k].size
  {
    StartNext(items, k, offset);
  }

  /** Three entries over the same two bytes: the second one steps back. */
  function BackwardRecords(codec: Codec): seq<Record> {
    [Record("icon", "a", 2, codec.sha256([7, 8]), "a"), Record("icon", "b", -2, codec.sha256([]), "b"),
     Record("icon", "c", 2, codec.sha256([7, 8]), "c")]
  }

  /** The reader accepts an archive with a negative size, whatever the manifest says besides; its second entry does
      not lie in place. */
  lemma NegativeSizeIsAccepted(codec: Codec, data: Json.Json, required: Json.Json, rest: Json.Json, printed: bytes)
    requires 0 < |printed| < 0x100_0000 && (forall x :: codec.gunzip(codec.gzip(x)) == Some(x))
    requires codec.parse(printed) == Some(ManifestOf(codec, BackwardRecords(codec), data, required, rest))
    requires |codec.gzip(Header(|printed|) + printed + [7, 8])| <= MAX_SNAPSHOT_BYTES
    ensures var items, buffer := BackwardRecords(codec), Header(|printed|) + printed + [7, 8];
      && ReadOf(codec, codec.gzip(buffer)) == Ok(Snapshot(ManifestOf(codec, items, data, required, rest),
                                                          map["a" := [7, 8], "b" := [], "c" := [7, 8]]))
      && Walked(codec, items, buffer, 12 + |printed|, 0, map[]).Ok?
      && !InPlace(items, buffer, 1, 12 + |printed|)
  {
    hide Header, InPlace;
    var items, buffer := BackwardRecords(codec), Header(|printed|) + printed + [7, 8];
    var offset := 12 + |printed|;
    assert buffer == Header(|printed|) + (printed + [7, 8]);
    HeaderParses(|printed|, printed + [7, 8]);
    assert buffer[12..offset] == printed;
    assert Subarray(buffer, offset, offset + 2) == [7, 8] && Subarray(buffer, offset + 2, offset) == [];
    BackwardWalk(codec, buffer, offset);
    InPlaceSize(items, buffer, 1, offset);
  }

  lemma BackwardWalk(codec: Codec, buffer: bytes, offset: nat)
    requires offset + 2 == |buffer|
    requires Subarray(buffer, offset, offset + 2) == [7, 8] && Subarray(buffer, offset + 2, offset) == []
    ensures Walked(codec, BackwardRecords(codec), buffer, offset, 0, map[])
      == Ok(map["a" := [7, 8], "b" := [], "c" := [7, 8]])
  {
    hide Subarray;
    var items := BackwardRecords(codec);
    var none: map<string, bytes> := map[];
    assert items[1..][1..] == items[2..] && items[2..][1..] == [];
    assert Safe("a") && Safe("b") && Safe("c");
    assert Walked(codec, [], buffer, offset + 2, 2, none["a" := [7, 8]]["b" := []]["c" := [7, 8]]).Ok?;
    assert Walked(codec, items[2..], buffer, offset, 0, none["a" := [7, 8]]["b" := []])
      == Ok(none["a" := [7, 8]]["b" := []]["c" := [7, 8]]);
    assert Walked(codec, items[1..], buffer, offset + 2, 2, none["a" := [7, 8]])
      == Ok(none["a" := [7, 8]]["b" := []]["c" := [7, 8]]);
  }

  lemma InPlaceSize(items: seq<Record>, buffer: bytes, k: nat, offset: nat)
    requires k < |items|
    ensures InPlace(items, buffer, k, offset) ==> items[k].size >= 0
  {}

  // ---------------------------------------------------------------------------
  // Building, then reading
  // ---------------------------------------------------------------------------

  function PathOf(r: Record): string {
    r.archivePath
  }

  lemma {:induction false} ConsumedExactly(records: seq<Record>, payloads: map<string, bytes>)
    ensures Consumed(records, payloads).Ok? <==>
      DistinctBy(records, PathOf) && forall r :: r in records ==> r.archivePath in payloads
    decreases |records|
  {
    if records != [] {
      var first, rest := records[0], records[1..];
      ConsumedExactly(rest, payloads - {first.archivePath});
      DistinctRest(first, rest);
      assert records == [first] + rest;
    }
  }

  lemma DistinctRest(first: Record, rest: seq<Record>)
    ensures DistinctBy([first] + rest, PathOf) <==>
      DistinctBy(rest, PathOf) && forall r :: r in rest ==> r.archivePath != first.archivePath
  {
    var all := [first] + rest;
    assert forall i :: 0 <= i < |rest| ==> all[i + 1] == rest[i];
    if DistinctBy(all, PathOf) {
      forall i, j | 0 <= i < j < |rest|
        ensures PathOf(rest[i]) != PathOf(rest[j])
      {
        assert PathOf(all[i + 1]) != PathOf(all[j + 1]);
      }
      forall r | r in rest ensures r.archivePath != first.archivePath {
        var j :| 0 <= j < |rest| && rest[j] == r;
        assert PathOf(all[0]) != PathOf(all[j + 1]);
      }
    }
  }

  lemma {:induction false} PayloadsFrom(fetched: seq<Fetched>, path: string)
    ensures path in PayloadsOf(fetched) <==> exists f :: f in fetched && ArchivePath(f.kind, f.id) == path
    ensures path in PayloadsOf(fetched) ==> exists f ::
      f in fetched && ArchivePath(f.kind, f.id) == path && PayloadsOf(fetched)[path] == f.payload
  {
    hide ArchivePath;
    if fetched != [] {
      var n := |fetched| - 1;
      PayloadsFrom(fetched[..n], path);
      assert fetched == fetched[..n] + [fetched[n]];
      assert fetched[n] in fetched && forall f :: f in fetched <==> f == fetched[n] || f in fetched[..n];
    }
  }

  /** The record stands for the payload that the table has under its path. */
  ghost predicate Stands(codec: Codec, r: Record, payloads: map<string, bytes>) {
    && r.archivePath in payloads && r.size == |payloads[r.archivePath]|
      && r.sha256 == codec.sha256(payloads[r.archivePath])
  }

  lemma {:induction false} RecordsStand(codec: Codec, fetched: seq<Fetched>, records: seq<Record>)
    requires multiset(records) == multiset(RecordsOf(codec, fetched)) && DistinctBy(records, PathOf)
    ensures forall r :: r in records ==> Stands(codec, r, PayloadsOf(fetched))
    ensures forall path :: path in PayloadsOf(fetched) <==> exists r :: r in records && r.archivePath == path
  {
    hide ArchivePath, PayloadsOf;
    RecordMembers(codec, fetched, records);
    forall r | r in records ensures Stands(codec, r, PayloadsOf(fetched)) {
      PayloadsFrom(fetched, r.archivePath);
      var g :|
        g in fetched && ArchivePath(g.kind, g.id) == r.archivePath && PayloadsOf(fetched)[r.archivePath] == g.payload;
      assert RecordOf(codec, g) in records;
      OneForPath(records, r, RecordOf(codec, g));
    }
    forall path ensures path in PayloadsOf(fetched) <==> exists r :: r in records && r.archivePath == path {
      PayloadsFrom(fetched, path);
      if path in PayloadsOf(fetched) {
        var f :| f in fetched && ArchivePath(f.kind, f.id) == path;
        assert RecordOf(codec, f) in records;
      }
    }
  }

  lemma OneForPath(records: seq<Record>, a: Record, b: Record)
    requires DistinctBy(records, PathOf) && a in records && b in records && a.archivePath == b.archivePath
    ensures a == b
  {
    var i :| 0 <= i < |records| && records[i] == a;
    var j :| 0 <= j < |records| && records[j] == b;
    assert PathOf(records[i]) == PathOf(records[j]);
  }

  lemma RecordMembers(codec: Codec, fetched: seq<Fetched>, records: seq<Record>)
    requires multiset(records) == multiset(RecordsOf(codec, fetched))
    ensures forall f :: f in fetched ==> RecordOf(codec, f) in records
    ensures forall r :: r in records ==> exists f :: f in fetched && r == RecordOf(codec, f)
  {
    hide RecordOf;
    var made := RecordsOf(codec, fetched);
    forall f | f in fetched ensures RecordOf(codec, f) in records {
      var i :| 0 <= i < |fetched| && fetched[i] == f;
      assert made[i] in multiset(records);
    }
    forall r | r in records ensures exists f :: f in fetched && r == RecordOf(codec, f) {
      assert r in multiset(made);
      var i :| 0 <= i < |made| && made[i] == r;
      assert fetched[i] in fetched;
    }
  }

  ghost predicate AllSafe(records: seq<Record>) {
    forall i :: 0 <= i < |records| ==> Safe(records[i].archivePath)
  }

  ghost predicate Fits(codec: Codec, records: seq<Record>, payloads: map<string, bytes>, total: int) {
    && total >= 0 && total + TotalSize(records) <= MAX_TOTAL_RESOURCE_BYTES
    && forall i :: 0 <= i < |records| ==> Stands(codec, records[i], payloads) && records[i].size <= MAX_RESOURCE_BYTES
  }

  lemma {:induction false} SizesNotNegative(codec: Codec, records: seq<Record>, payloads: map<string, bytes>)
    requires forall i :: 0 <= i < |records| ==> Stands(codec, records[i], payloads)
    ensures TotalSize(records) >= 0
  {
    if records != [] { SizesNotNegative(codec, records[1..], payloads); }
  }

  /** The reader walks over what the builder wrote. */
  lemma {:induction false} WalkOverBuilt(codec: Codec, records: seq<Record>, left: map<string, bytes>,
                                         payloads: map<string, bytes>, before: bytes, bodies: bytes, total: int,
                                         resources: map<string, bytes>)
    requires Consumed(records, left) == Ok(bodies) && Fits(codec, records, payloads, total)
    requires forall path :: path in left ==> path in payloads && left[path] == payloads[path]
    ensures Walked(codec, records, before + bodies, |before|, total, resources).Ok? <==> AllSafe(records)
    ensures AllSafe(records) ==>
      Walked(codec, records, before + bodies, |before|, total, resources).value == Filled(resources, records, payloads)
    decreases |records|
  {
    hide Safe, Subarray, ArchivePath;
    if records != [] && Safe(records[0].archivePath) {
      var r, rest := records[0], records[1..];
      var data := payloads[r.archivePath];
      var more := Consumed(rest, left - {r.archivePath}).value;
      assert bodies == data + more;
      assert before + bodies == (before + data) + more;
      SizesNotNegative(codec, rest, payloads);
      ReadBack(before, data, more);
      FitsRest(codec, records, payloads, total);
      WalkOverBuilt(codec, rest, left - {r.archivePath}, payloads, before + data, more, total + r.size,
                    resources[r.archivePath := data]);
      assert forall i :: 0 <= i < |rest| ==> rest[i] == records[i + 1];
      assert AllSafe(records) <==> AllSafe(rest) by {
        assert forall i :: 0 < i < |records| ==> records[i] == rest[i - 1];
      }
    }
  }

  lemma FitsRest(codec: Codec, records: seq<Record>, payloads: map<string, bytes>, total: int)
    requires records != [] && Fits(codec, records, payloads, total)
    ensures Fits(codec, records[1..], payloads, total + records[0].size)
    ensures Stands(codec, records[0], payloads) && records[0].size <= MAX_RESOURCE_BYTES
  {}

  lemma ReadBack(before: bytes, data: bytes, more: bytes)
    ensures Subarray(before + data + more, |before|, |before| + |data|) == data
  {}

  function Filled(resources: map<string, bytes>, records: seq<Record>, payloads: map<string, bytes>): map<string, bytes>
    decreases |records|
  {
    if records == [] then resources
    else if records[0].archivePath !in payloads then resources
    else Filled(resources[records[0].archivePath := payloads[records[0].archivePath]], records[1..], payloads)
  }

  lemma {:induction false} FilledAt(resources: map<string, bytes>, records: seq<Record>, payloads: map<string, bytes>,
                                    path: string)
    requires forall i :: 0 <= i < |records| ==> records[i].archivePath in payloads
    ensures var r := Filled(resources, records, payloads);
      && (path in r <==> path in resources || exists i :: 0 <= i < |records| && records[i].archivePath == path)
      && (path in r ==> r[path] == if exists i :: 0 <= i < |records| && records[i].archivePath == path
          then payloads[path] else resources[path])
    decreases |records|
  {
    if records != [] {
      var rest := records[1..];
      FilledAt(resources[records[0].archivePath := payloads[records[0].archivePath]], rest, payloads, path);
      assert forall i :: 0 <= i < |rest| ==> rest[i] == records[i + 1];
      assert forall i :: 0 < i < |records| ==> records[i] == rest[i - 1];
    }
  }

  lemma FilledAll(records: seq<Record>, payloads: map<string, bytes>)
    requires forall path :: path in payloads <==> exists r :: r in records && r.archivePath == path
    ensures Filled(map[], records, payloads) == payloads
  {
    forall path ensures path in Filled(map[], records, payloads) <==> path in payloads
      ensures path in payloads ==> Filled(map[], records, payloads)[path] == payloads[path]
    {
      FilledAt(map[], records, payloads, path);
      if path in payloads {
        var r :| r in records && r.archivePath == path;
        var i :| 0 <= i < |records| && records[i] == r;
      }
    }
  }

  ghost predicate DistinctResources(fetched: seq<Fetched>) {
    forall i, j :: 0 <= i < j < |fetched| ==> fetched[i].kind != fetched[j].kind || fetched[i].id != fetched[j].id
  }

  lemma DistinctPaths(codec: Codec, fetched: seq<Fetched>)
    ensures DistinctBy(RecordsOf(codec, fetched), PathOf) <==> DistinctResources(fetched)
  {
    hide ArchivePath;
    var made := RecordsOf(codec, fetched);
    if DistinctResources(fetched) {
      forall i, j | 0 <= i < j < |made| ensures PathOf(made[i]) != PathOf(made[j]) {
        if PathOf(made[i]) == PathOf(made[j]) {
          PathIsUnique(fetched[i].kind, fetched[i].id, fetched[j].kind, fetched[j].id);
        }
      }
    }
    if DistinctBy(made, PathOf) {
      forall i, j | 0 <= i < j < |fetched|
        ensures fetched[i].kind != fetched[j].kind || fetched[i].id != fetched[j].id
      {
        assert PathOf(made[i]) != PathOf(made[j]);
      }
    }
  }

  /** The payloads suffice exactly when no resource was fetched twice. */
  lemma {:induction false} DuplicatesAreRefused(codec: Codec, below: (Record, Record) -> bool, fetched: seq<Fetched>)
    ensures Consumed(Sorted(RecordsOf(codec, fetched), below), PayloadsOf(fetched)).Ok? <==> DistinctResources(fetched)
  {
    hide Sorted, RecordsOf, PayloadsOf, Consumed;
    var made, records := RecordsOf(codec, fetched), Sorted(RecordsOf(codec, fetched), below);
    SortedIsPermutation(made, below);
    ConsumedExactly(records, PayloadsOf(fetched));
    DistinctPaths(codec, fetched);
    if DistinctBy(records, PathOf) {
      DistinctInAnyOrder(records, made, PathOf);
      RecordsStand(codec, fetched, records);
    }
    if DistinctBy(made, PathOf) {
      DistinctInAnyOrder(made, records, PathOf);
      RecordsStand(codec, fetched, records);
    }
  }

  lemma StartsBinary(tail: bytes)
    ensures IsBinary(MAGIC + [0] + tail)
  {}

  lemma HeaderParses(length: nat, tail: bytes)
    requires length < 0x1_0000_0000
    ensures IsBinary(Header(length) + tail) && |Header(length) + tail| >= 12
    ensures FromBE((Header(length) + tail)[8..12]) == length
  {
    hide ToBE, FromBE;
    PowersOf256();
    BigEndianRoundTrip(length, 4);
    StartsBinary(ToBE(0, 2) + ToBE(length, 4) + tail);
    assert Header(length) + tail == MAGIC + [0] + (ToBE(0, 2) + ToBE(length, 4) + tail);
    assert (Header(length) + tail)[8..12] == ToBE(length, 4);
  }

  lemma SizesFit(records: seq<Record>)
    requires TooLarge(records).None?
    ensures forall i :: 0 <= i < |records| ==> records[i].size <= MAX_RESOURCE_BYTES
  {}

  /** The reader finds the manifest and the bodies where the builder put them. */
  lemma BinaryReads(codec: Codec, manifest: Manifest, bodies: bytes)
    requires Faithful(codec, manifest) && |codec.render(manifest)| < 0x1_0000_0000
      && |manifest.resources| <= MAX_RESOURCE_COUNT
    ensures var head := Header(|codec.render(manifest)|) + codec.render(manifest);
      IsBinary(head + bodies) && ReadBinary(codec, head + bodies) ==
        match Walked(codec, manifest.resources, head + bodies, |head|, 0, map[])
        case Err(e) => Err(e)
        case Ok(resources) => Validated(codec, manifest, resources)
  {
    hide Header, Walked, Validated;
    var printed := codec.render(manifest);
    var buffer := Header(|printed|) + printed + bodies;
    assert buffer == Header(|printed|) + (printed + bodies);
    HeaderParses(|printed|, printed + bodies);
    assert buffer[12..12 + |printed|] == printed;
  }

  ghost predicate NoDots(fetched: seq<Fetched>) {
    forall i :: 0 <= i < |fetched| ==> !HasDots(fetched[i].kind) && !HasDots(fetched[i].id)
  }

  lemma SafeExactly(codec: Codec, fetched: seq<Fetched>, records: seq<Record>)
    requires multiset(records) == multiset(RecordsOf(codec, fetched))
    ensures AllSafe(records) <==> NoDots(fetched)
  {
    hide ArchivePath, Safe, HasDots;
    RecordMembers(codec, fetched, records);
    if AllSafe(records) {
      forall i | 0 <= i < |fetched| ensures !HasDots(fetched[i].kind) && !HasDots(fetched[i].id) {
        assert RecordOf(codec, fetched[i]) in records;
        PathIsSafe(fetched[i].kind, fetched[i].id);
      }
    }
    if NoDots(fetched) {
      forall i | 0 <= i < |records| ensures Safe(records[i].archivePath) {
        assert records[i] in records;
        var f :| f in fetched && records[i] == RecordOf(codec, f);
        PathIsSafe(f.kind, f.id);
      }
    }
  }

  /** Whatever can be built is read back as the same manifest and the same resources, exactly when no type and
      no id has two dots in a row; and nothing that was fetched twice can be built. */
  lemma {:induction false} BuildThenRead(codec: Codec, below: (Record, Record) -> bool, fetched: seq<Fetched>,
                                         data: Json.Json, required: Json.Json, rest: Json.Json)
    requires BuildOf(codec, below, fetched, data, required, rest).Ok?
    requires Faithful(codec, BuildOf(codec, below, fetched, data, required, rest).value.manifest)
    ensures var built := BuildOf(codec, below, fetched, data, required, rest).value;
      && DistinctResources(fetched)
      && multiset(built.manifest.resources) == multiset(RecordsOf(codec, fetched))
      && (ReadOf(codec, built.payload).Ok? <==> NoDots(fetched))
      && (NoDots(fetched) ==> ReadOf(codec, built.payload) == Ok(Snapshot(built.manifest, PayloadsOf(fetched))))
  {
    hide Sorted, RecordsOf, PayloadsOf, Consumed, Walked, Header, TooLarge, TotalSize, NoDots, DistinctResources,
         AllSafe, Stands, ReadBinary;
    var made := RecordsOf(codec, fetched);
    var records := Sorted(made, below);
    var manifest := ManifestOf(codec, records, data, required, rest);
    var printed := codec.render(manifest);
    var bodies := Consumed(records, PayloadsOf(fetched)).value;
    var buffer := Header(|printed|) + printed + bodies;
    SortedIsPermutation(made, below);
    DuplicatesAreRefused(codec, below, fetched);
    ConsumedExactly(records, PayloadsOf(fetched));
    RecordsStand(codec, fetched, records);
    SizesFit(records);
    BinaryReads(codec, manifest, bodies);
    WalkOverBuilt(codec, records, PayloadsOf(fetched), PayloadsOf(fetched), Header(|printed|) + printed, bodies, 0,
                  map[]);
    SafeExactly(codec, fetched, records);
    FilledAll(records, PayloadsOf(fetched));
    assert codec.gunzip(codec.gzip(buffer)) == Some(buffer);
  }

  /** One resource whose id has two dots in a row. */
  const DOTTED: Fetched := Fetched("icon", "a..b", [7])

  /** It goes into an archive that the reader then refuses. */
  lemma DottedIdIsRefused(codec: Codec, below: (Record, Record) -> bool, data: Json.Json, required: Json.Json,
                          rest: Json.Json)
    requires var manifest := ManifestOf(codec, [RecordOf(codec, DOTTED)], data, required, rest);
      var printed := codec.render(manifest);
      && Faithful(codec, manifest) && |printed| < 0x100_0000
      && |codec.gzip(Header(|printed|) + printed + [7])| <= MAX_SNAPSHOT_BYTES
    ensures var built := BuildOf(codec, below, [DOTTED], data, required, rest);
      built.Ok? && ReadOf(codec, built.value.payload).Err?
  {
    hide Header, ReadOf, Faithful, ArchivePath, Sorted;
    var records := [RecordOf(codec, DOTTED)];
    assert RecordsOf(codec, [DOTTED]) == records;
    OneIsSorted(records[0], below);
    OneIsConsumed(codec, DOTTED);
    var manifest := ManifestOf(codec, records, data, required, rest);
    assert BuildOf(codec, below, [DOTTED], data, required, rest).Ok?
      && BuildOf(codec, below, [DOTTED], data, required, rest).value.manifest == manifest;
    BuildThenRead(codec, below, [DOTTED], data, required, rest);
    assert !NoDots([DOTTED]) by { DotsSeen(); }
  }

  lemma OneIsSorted(r: Record, below: (Record, Record) -> bool)
    ensures Sorted([r], below) == [r]
  {
    assert [r][1..] == [] && [r][..0] == [];
  }

  lemma OneIsConsumed(codec: Codec, f: Fetched)
    requires |f.payload| == 1
    ensures var records := [RecordOf(codec, f)];
      Consumed(records, PayloadsOf([f])) == Ok(f.payload) && SizeProblem(records).None?
  {
    hide ArchivePath;
    var records := [RecordOf(codec, f)];
    assert [f][..0] == [] && records[1..] == [];
    assert TotalSize(records[1..]) == 0 && TooLarge(records[1..]).None?;
    assert Consumed(records[1..], PayloadsOf([f]) - {records[0].archivePath}) == Ok([]);
    assert f.payload + [] == f.payload;
  }

  lemma DotsSeen()
    ensures HasDots(DOTTED.id) && [DOTTED][0] == DOTTED
  {
    assert DOTTED.id[1..][0] == '.' && DOTTED.id[1..][1] == '.';
    assert HasDots(DOTTED.id[1..]);
  }
}
