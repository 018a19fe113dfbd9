/** Exactly which archives a reader accepts, in both forms, and what it makes of them. */
module ArchiveReading {
  import opened Options
  import opened Bytes
  import opened Container
  import Json

  const MIB: int := 1048576

  // ---------------------------------------------------------------------------
  // Paths
  // ---------------------------------------------------------------------------

  /** A path that cannot leave the directory: not empty, relative, without backslashes and without two dots in a row. */
  ghost predicate StaysInside(path: string) {
    && path != "" && path[0] != '/'
    && (forall i :: 0 <= i < |path| ==> path[i] != '\\')
    && (forall i :: 0 <= i < |path| - 1 ==> path[i] != '.' || path[i + 1] != '.')
  }

  lemma {:induction false} DotsAreExact(s: string)
    ensures HasDots(s) <==> exists i :: 0 <= i < |s| - 1 && s[i] == '.' && s[i + 1] == '.'
  {
    if |s| >= 2 {
      var rest := s[1..];
      DotsAreExact(rest);
      if i :| 0 <= i < |rest| - 1 && rest[i] == '.' && rest[i + 1] == '.' { assert s[i + 1] == '.' && s[i + 2] == '.'; }
      if i :| 0 < i < |s| - 1 && s[i] == '.' && s[i + 1] == '.' { assert rest[i - 1] == '.' && rest[i] == '.'; }
    }
  }

  lemma SafeIsInside(path: string)
    ensures Safe(path) <==> StaysInside(path)
  {
    hide HasDots;
    DotsAreExact(path);
  }

  // ---------------------------------------------------------------------------
  // The binary form
  // ---------------------------------------------------------------------------

  /** Entry `k` of a binary archive: its path stays inside, its size is at most 24 MiB and ends in the buffer, all sizes
      up to it come to at most 96 MiB, and its bytes have the stated hash. */
  ghost predicate EntryIsGood(codec: Codec, items: seq<Record>, buffer: bytes, offset: int, total: int, k: nat) {
    && k < |items|
    && StaysInside(items[k].archivePath) && items[k].size <= 24 * MIB
    && StartOf(items, k, offset) + items[k].size <= |buffer|
    && StartOf(items, k, total) + items[k].size <= 96 * MIB
    && codec.sha256(Slice(items, buffer, k, offset)) == items[k].sha256
  }

  ghost predicate EntriesAreGood(codec: Codec, items: seq<Record>, buffer: bytes, offset: int, total: int) {
    forall k: nat :: k < |items| ==> EntryIsGood(codec, items, buffer, offset, total, k)
  }

  /** The walk accepts exactly the archives of which every entry is good. */
  lemma {:induction false} WalkIsExact(codec: Codec, items: seq<Record>, buffer: bytes, offset: int, total: int,
                                       resources: map<string, bytes>)
    ensures Walked(codec, items, buffer, offset, total, resources).Ok? <==>
      EntriesAreGood(codec, items, buffer, offset, total)
    decreases |items|
  {
    hide Subarray, StaysInside, Safe;
    if items != [] {
      var item, rest := items[0], items[1..];
      var next := resources[item.archivePath := Subarray(buffer, offset, offset + item.size)];
      WalkIsExact(codec, rest, buffer, offset + item.size, total + item.size, next);
      SafeIsInside(item.archivePath);
      assert items[..0] == [];
      GoodInTurn(codec, items, buffer, offset, total);
      assert EntryIsGood(codec, items, buffer, offset, total, 0) <==>
        Safe(item.archivePath) && item.size <= MAX_RESOURCE_BYTES && offset + item.size <= |buffer|
        && total + item.size <= MAX_TOTAL_RESOURCE_BYTES
        && codec.sha256(Subarray(buffer, offset, offset + item.size)) == item.sha256;
    }
  }

  lemma GoodInTurn(codec: Codec, items: seq<Record>, buffer: bytes, offset: int, total: int)
    requires items != []
    ensures EntriesAreGood(codec, items, buffer, offset, total) <==>
      && EntryIsGood(codec, items, buffer, offset, total, 0)
      && EntriesAreGood(codec, items[1..], buffer, offset + items[0].size, total + items[0].size)
  {
    hide EntryIsGood;
    var rest, o, t := items[1..], offset + items[0].size, total + items[0].size;
    if EntriesAreGood(codec, items, buffer, offset, total) {
      forall k: nat | k < |rest| ensures EntryIsGood(codec, rest, buffer, o, t, k) {
        GoodLater(codec, items, buffer, offset, total, k + 1);
      }
    }
    if EntryIsGood(codec, items, buffer, offset, total, 0) && EntriesAreGood(codec, rest, buffer, o, t) {
      forall k: nat | k < |items| ensures EntryIsGood(codec, items, buffer, offset, total, k) {
        if k > 0 { GoodLater(codec, items, buffer, offset, total, k); }
      }
    }
  }

  lemma GoodLater(codec: Codec, items: seq<Record>, buffer: bytes, offset: int, total: int, k: nat)
    requires 0 < k < |items|
    ensures EntryIsGood(codec, items, buffer, offset, total, k) <==>
      EntryIsGood(codec, items[1..], buffer, offset + items[0].size, total + items[0].size, k - 1)
  {
    hide StaysInside, Subarray;
    StartAfter(items, k, offset);
    StartAfter(items, k, total);
  }

  // ---------------------------------------------------------------------------
  // The older form
  // ---------------------------------------------------------------------------

  function SizeOf(payloads: map<string, bytes>, path: string): nat {
    if path in payloads then |payloads[path]| else 0
  }

  function SizesOf(items: seq<Record>, payloads: map<string, bytes>): nat {
    if items == [] then 0 else SizeOf(payloads, items[0].archivePath) + SizesOf(items[1..], payloads)
  }

  /** Entry `k` of an older archive: its path stays inside, its payload is there and as long as stated, at most 24 MiB,
      all payloads up to it come to at most 96 MiB, and it has the stated hash. */
  ghost predicate PayloadIsGood(codec: Codec, items: seq<Record>, payloads: map<string, bytes>, total: int, k: nat) {
    && k < |items|
    && StaysInside(items[k].archivePath) && items[k].archivePath in payloads
    && |payloads[items[k].archivePath]| == items[k].size <= 24 * MIB
    && total + SizesOf(items[..k], payloads) + items[k].size <= 96 * MIB
    && codec.sha256(payloads[items[k].archivePath]) == items[k].sha256
  }

  ghost predicate PayloadsAreGood(codec: Codec, items: seq<Record>, payloads: map<string, bytes>, total: int) {
    forall k: nat :: k < |items| ==> PayloadIsGood(codec, items, payloads, total, k)
  }

  lemma {:induction false} UnpackingIsExact(codec: Codec, items: seq<Record>, payloads: map<string, bytes>, total: int,
                                            resources: map<string, bytes>)
    ensures Unpacked(codec, items, payloads, total, resources).Ok? <==> PayloadsAreGood(codec, items, payloads, total)
    decreases |items|
  {
    hide StaysInside, Safe;
    if items != [] {
      var item, rest := items[0], items[1..];
      SafeIsInside(item.archivePath);
      assert items[..0] == [];
      if item.archivePath in payloads {
        var data := payloads[item.archivePath];
        UnpackingIsExact(codec, rest, payloads, total + |data|, resources[item.archivePath := data]);
        PayloadsInTurn(codec, items, payloads, total);
      } else {
        assert !PayloadIsGood(codec, items, payloads, total, 0);
      }
    }
  }

  lemma PayloadsInTurn(codec: Codec, items: seq<Record>, payloads: map<string, bytes>, total: int)
    requires items != [] && items[0].archivePath in payloads
    ensures PayloadsAreGood(codec, items, payloads, total) <==>
      && PayloadIsGood(codec, items, payloads, total, 0)
      && PayloadsAreGood(codec, items[1..], payloads, total + |payloads[items[0].archivePath]|)
  {
    hide PayloadIsGood;
    var rest, t := items[1..], total + |payloads[items[0].archivePath]|;
    if PayloadsAreGood(codec, items, payloads, total) {
      forall k: nat | k < |rest| ensures PayloadIsGood(codec, rest, payloads, t, k) {
        PayloadLater(codec, items, payloads, total, k + 1);
      }
    }
    if PayloadIsGood(codec, items, payloads, total, 0) && PayloadsAreGood(codec, rest, payloads, t) {
      forall k: nat | k < |items| ensures PayloadIsGood(codec, items, payloads, total, k) {
        if k > 0 { PayloadLater(codec, items, payloads, total, k); }
      }
    }
  }

  lemma PayloadLater(codec: Codec, items: seq<Record>, payloads: map<string, bytes>, total: int, k: nat)
    requires 0 < k < |items| && items[0].archivePath in payloads
    ensures PayloadIsGood(codec, items, payloads, total, k) <==>
      PayloadIsGood(codec, items[1..], payloads, total + |payloads[items[0].archivePath]|, k - 1)
  {
    hide StaysInside;
    assert items[..k][1..] == items[1..][..k - 1] && items[..k][0] == items[0];
  }

  /** What the older form comes to: for every listed path its payload, and nothing else. */
  lemma {:induction false} UnpackedPayloads(codec: Codec, items: seq<Record>, payloads: map<string, bytes>, total: int,
                                            resources: map<string, bytes>, path: string)
    requires Unpacked(codec, items, payloads, total, resources).Ok?
    ensures var r := Unpacked(codec, items, payloads, total, resources).value;
      var listed := exists k :: 0 <= k < |items| && items[k].archivePath == path;
      && (path in r <==> path in resources || listed)
      && (listed ==> path in payloads && r[path] == payloads[path])
      && (path in r && !listed ==> r[path] == resources[path])
    decreases |items|
  {
    hide Safe;
    if items != [] {
      var item, rest := items[0], items[1..];
      var data := payloads[item.archivePath];
      UnpackedPayloads(codec, rest, payloads, total + |data|, resources[item.archivePath := data], path);
      assert forall k :: 0 <= k < |rest| ==> rest[k] == items[k + 1];
      assert forall k :: 0 < k < |items| ==> items[k] == rest[k - 1];
    }
  }

  // ---------------------------------------------------------------------------
  // Whole archives
  // ---------------------------------------------------------------------------

  /** A manifest of a known schema whose content has the hash it states. */
  ghost predicate ManifestIsGood(codec: Codec, manifest: Manifest) {
    && (manifest.schemaVersion == 4 || manifest.schemaVersion == 5 || manifest.schemaVersion == 6)
    && codec.contentHash(manifest.data, manifest.resources, manifest.required) == manifest.contentHash
  }

  /** The buffer starts with "UCRS3", but for the highest bits. */
  ghost predicate StartsBinary(buffer: bytes) {
    && |buffer| >= 5
    && buffer[0] % 128 == 85 && buffer[1] % 128 == 67 && buffer[2] % 128 == 82 && buffer[3] % 128 == 83
    && buffer[4] % 128 == 51
  }

  /** A binary archive: after twelve bytes a manifest as long as the last four of them say, of at most 4096 entries that
      are all good and follow it. */
  ghost predicate BinaryIsGood(codec: Codec, buffer: bytes, manifest: Manifest) {
    && |buffer| >= 12
    && var length := FromBE(buffer[8..12]);
    && 0 < length <= |buffer| - 12
    && codec.parse(buffer[12..12 + length]) == Some(manifest)
    && |manifest.resources| <= 4096
    && EntriesAreGood(codec, manifest.resources, buffer, 12 + length, 0)
    && ManifestIsGood(codec, manifest)
  }

  ghost predicate EnvelopeIsGood(codec: Codec, buffer: bytes, manifest: Manifest) {
    match codec.envelope(buffer)
    case None => false
    case Some(e) =>
      && e.format == "uc-remote-sync-gzip-json-v1" && e.manifest == Some(manifest)
      && PayloadsAreGood(codec, manifest.resources, e.resources, 0)
      && ManifestIsGood(codec, manifest)
  }

  lemma BinaryIsExact(codec: Codec, buffer: bytes, manifest: Manifest)
    ensures BinaryIsGood(codec, buffer, manifest) <==>
      ReadBinary(codec, buffer).Ok? && ReadBinary(codec, buffer).value.manifest == manifest
  {
    hide Walked, EntriesAreGood, FromBE;
    if |buffer| >= 12 {
      var length := FromBE(buffer[8..12]);
      if 0 < length <= |buffer| - 12 && codec.parse(buffer[12..12 + length]).Some? {
        var m := codec.parse(buffer[12..12 + length]).value;
        WalkIsExact(codec, m.resources, buffer, 12 + length, 0, map[]);
      }
    }
  }

  lemma EnvelopeIsExact(codec: Codec, buffer: bytes, manifest: Manifest)
    ensures EnvelopeIsGood(codec, buffer, manifest) <==>
      ReadEnvelope(codec, buffer).Ok? && ReadEnvelope(codec, buffer).value.manifest == manifest
  {
    hide Unpacked, PayloadsAreGood;
    match codec.envelope(buffer)
    case Some(e) =>
      if e.manifest.Some? { UnpackingIsExact(codec, e.manifest.value.resources, e.resources, 0, map[]); }
    case None =>
  }

  /** Which payloads are read, and with which manifest: those of at most 32 MiB that unpack to at most 128 MiB and hold
      a good archive of the form that their first bytes tell. */
  lemma ReadingIsExact(codec: Codec, payload: bytes, manifest: Manifest)
    ensures (ReadOf(codec, payload).Ok? && ReadOf(codec, payload).value.manifest == manifest) <==>
      && |payload| <= 32 * MIB
      && match codec.gunzip(payload)
         case None => false
         case Some(buffer) =>
           && |buffer| <= 128 * MIB
           && if StartsBinary(buffer) then BinaryIsGood(codec, buffer, manifest)
              else EnvelopeIsGood(codec, buffer, manifest)
  {
    hide ReadBinary, ReadEnvelope, BinaryIsGood, EnvelopeIsGood;
    match codec.gunzip(payload)
    case Some(buffer) =>
      BinaryIsExact(codec, buffer, manifest);
      EnvelopeIsExact(codec, buffer, manifest);
      assert IsBinary(buffer) <==> StartsBinary(buffer);
    case None =>
  }

  // ---------------------------------------------------------------------------
  // Why an archive is refused
  // ---------------------------------------------------------------------------

  /** What is wrong with an entry of a binary archive that is not good. */
  ghost function EntryError(codec: Codec, items: seq<Record>, buffer: bytes, offset: int, total: int, k: nat): Error
    requires k < |items|
  {
    if !StaysInside(items[k].archivePath) then UnsafePath(items[k].archivePath)
    else if items[k].size > 24 * MIB || StartOf(items, k, offset) + items[k].size > |buffer|
    then BadSize(items[k].archivePath)
    else if StartOf(items, k, total) + items[k].size > 96 * MIB then TotalTooLarge
    else HashMismatch(items[k].archivePath)
  }

  /** The walk stops at the first entry that is not good, for what is wrong with it. */
  lemma {:induction false} FirstBadEntry(codec: Codec, items: seq<Record>, buffer: bytes, offset: int, total: int,
                                         resources: map<string, bytes>) returns (k: nat)
    requires Walked(codec, items, buffer, offset, total, resources).Err?
    ensures k < |items| && !EntryIsGood(codec, items, buffer, offset, total, k)
    ensures forall i: nat :: i < k ==> EntryIsGood(codec, items, buffer, offset, total, i)
    ensures Walked(codec, items, buffer, offset, total, resources).error
      == EntryError(codec, items, buffer, offset, total, k)
    decreases |items|
  {
    hide Subarray, StaysInside, Safe, EntryIsGood;
    var item, rest := items[0], items[1..];
    var next := resources[item.archivePath := Subarray(buffer, offset, offset + item.size)];
    FirstEntry(codec, items, buffer, offset, total);
    if EntryIsGood(codec, items, buffer, offset, total, 0) {
      var j := FirstBadEntry(codec, rest, buffer, offset + item.size, total + item.size, next);
      k := j + 1;
      GoodLater(codec, items, buffer, offset, total, k);
      StartAfter(items, k, offset);
      StartAfter(items, k, total);
      forall i: nat | 0 < i < k ensures EntryIsGood(codec, items, buffer, offset, total, i) {
        GoodLater(codec, items, buffer, offset, total, i);
      }
    } else {
      k := 0;
    }
  }

  lemma FirstEntry(codec: Codec, items: seq<Record>, buffer: bytes, offset: int, total: int)
    requires items != []
    ensures EntryIsGood(codec, items, buffer, offset, total, 0) <==>
      && Safe(items[0].archivePath) && items[0].size <= MAX_RESOURCE_BYTES && offset + items[0].size <= |buffer|
      && total + items[0].size <= MAX_TOTAL_RESOURCE_BYTES
      && codec.sha256(Subarray(buffer, offset, offset + items[0].size)) == items[0].sha256
    ensures Safe(items[0].archivePath) <==> StaysInside(items[0].archivePath)
    ensures StartOf(items, 0, offset) == offset && StartOf(items, 0, total) == total
  {
    hide Subarray, StaysInside, Safe;
    SafeIsInside(items[0].archivePath);
    assert items[..0] == [];
  }

  /** What is wrong with an entry of an older archive that is not good. */
  ghost function PayloadError(items: seq<Record>, payloads: map<string, bytes>, total: int, k: nat): Error
    requires k < |items|
  {
    var path := items[k].archivePath;
    if !StaysInside(path) then UnsafePath(path)
    else if path !in payloads then MissingPayload(path)
    else if |payloads[path]| > 24 * MIB || total + SizesOf(items[..k + 1], payloads) > 96 * MIB
    then ResourceTooLarge(path)
    else if |payloads[path]| != items[k].size then BadSize(path)
    else HashMismatch(path)
  }

  lemma {:induction false} FirstBadPayload(codec: Codec, items: seq<Record>, payloads: map<string, bytes>, total: int,
                                           resources: map<string, bytes>) returns (k: nat)
    requires Unpacked(codec, items, payloads, total, resources).Err?
    ensures k < |items| && !PayloadIsGood(codec, items, payloads, total, k)
    ensures forall i: nat :: i < k ==> PayloadIsGood(codec, items, payloads, total, i)
    ensures Unpacked(codec, items, payloads, total, resources).error == PayloadError(items, payloads, total, k)
    decreases |items|
  {
    hide StaysInside, Safe, PayloadIsGood;
    var item, rest := items[0], items[1..];
    FirstPayload(codec, items, payloads, total);
    if PayloadIsGood(codec, items, payloads, total, 0) {
      var data := payloads[item.archivePath];
      var j := FirstBadPayload(codec, rest, payloads, total + |data|, resources[item.archivePath := data]);
      k := j + 1;
      PayloadLater(codec, items, payloads, total, k);
      assert items[..k + 1][1..] == rest[..k] && items[..k + 1][0] == item;
      forall i: nat | 0 < i < k ensures PayloadIsGood(codec, items, payloads, total, i) {
        PayloadLater(codec, items, payloads, total, i);
      }
    } else {
      k := 0;
    }
  }

  lemma FirstPayload(codec: Codec, items: seq<Record>, payloads: map<string, bytes>, total: int)
    requires items != []
    ensures var path := items[0].archivePath;
      && (PayloadIsGood(codec, items, payloads, total, 0) <==>
            && Safe(path) && path in payloads && |payloads[path]| <= MAX_RESOURCE_BYTES
            && total + |payloads[path]| <= MAX_TOTAL_RESOURCE_BYTES && |payloads[path]| == items[0].size
            && codec.sha256(payloads[path]) == items[0].sha256)
      && (Safe(path) <==> StaysInside(path)) && SizesOf(items[..1], payloads) == SizeOf(payloads, path)
  {
    hide StaysInside, Safe;
    SafeIsInside(items[0].archivePath);
    assert items[..0] == [] && items[..1][1..] == [];
  }

  ghost predicate KnownSchema(m: Manifest) {
    m.schemaVersion == 4 || m.schemaVersion == 5 || m.schemaVersion == 6
  }

  /** Why a payload is refused before its entries are looked at, or after all of them were good. */
  lemma ReasonsAreExact(codec: Codec, payload: bytes)
    requires ReadOf(codec, payload).Err?
    ensures |payload| > 32 * MIB <==> ReadOf(codec, payload).error == SnapshotTooLarge
    ensures |payload| <= 32 * MIB && (codec.gunzip(payload).None? || |codec.gunzip(payload).value| > 128 * MIB) ==>
      ReadOf(codec, payload).error == InvalidArchive
    ensures |payload| <= 32 * MIB && codec.gunzip(payload).Some? && |codec.gunzip(payload).value| <= 128 * MIB ==>
      var buffer := codec.gunzip(payload).value;
      ReadOf(codec, payload).error ==
        if StartsBinary(buffer) then BinaryError(codec, buffer) else EnvelopeError(codec, buffer)
  {
    hide StartsBinary, BinaryError, EnvelopeError, ReadBinary, ReadEnvelope, IsBinary;
    if codec.gunzip(payload).Some? {
      var buffer := codec.gunzip(payload).value;
      StartsAreEqual(buffer);
      BinaryFails(codec, buffer);
      EnvelopeFails(codec, buffer);
    }
  }

  lemma StartsAreEqual(buffer: bytes)
    ensures IsBinary(buffer) <==> StartsBinary(buffer)
  {}

  ghost function ManifestError(m: Manifest): Error {
    if KnownSchema(m) then ContentHashMismatch else UnsupportedSchema
  }

  ghost function BinaryError(codec: Codec, buffer: bytes): Error {
    if |buffer| < 12 || FromBE(buffer[8..12]) == 0 || FromBE(buffer[8..12]) > |buffer| - 12 then BadManifestLength
    else
      var length := FromBE(buffer[8..12]);
      match codec.parse(buffer[12..12 + length])
      case None => InvalidArchive
      case Some(m) =>
        if |m.resources| > 4096 then TooManyResources
        else
          match Walked(codec, m.resources, buffer, 12 + length, 0, map[])
          case Err(error) => error
          case Ok(_) => ManifestError(m)
  }

  ghost function EnvelopeError(codec: Codec, buffer: bytes): Error {
    match codec.envelope(buffer)
    case None => InvalidArchive
    case Some(e) =>
      if e.format != "uc-remote-sync-gzip-json-v1" then UnsupportedFormat
      else
        match e.manifest
        case None => UnsupportedSchema
        case Some(m) =>
          match Unpacked(codec, m.resources, e.resources, 0, map[])
          case Err(error) => error
          case Ok(_) => ManifestError(m)
  }

  lemma BinaryFails(codec: Codec, buffer: bytes)
    ensures ReadBinary(codec, buffer).Err? ==>
      ReadBinary(codec, buffer).error == BinaryError(codec, buffer) && BinaryError(codec, buffer) != SnapshotTooLarge
  {
    hide Walked, FromBE;
    if |buffer| >= 12 && 0 < FromBE(buffer[8..12]) <= |buffer| - 12 {
      var length := FromBE(buffer[8..12]);
      match codec.parse(buffer[12..12 + length])
      case None =>
      case Some(m) =>
        if Walked(codec, m.resources, buffer, 12 + length, 0, map[]).Err? {
          var k := FirstBadEntry(codec, m.resources, buffer, 12 + length, 0, map[]);
        }
    }
  }

  lemma EnvelopeFails(codec: Codec, buffer: bytes)
    ensures ReadEnvelope(codec, buffer).Err? ==>
      && ReadEnvelope(codec, buffer).error == EnvelopeError(codec, buffer)
      && EnvelopeError(codec, buffer) != SnapshotTooLarge
  {
    hide Unpacked;
    match codec.envelope(buffer)
    case None =>
    case Some(e) =>
      if e.manifest.Some? && Unpacked(codec, e.manifest.value.resources, e.resources, 0, map[]).Err? {
        var k := FirstBadPayload(codec, e.manifest.value.resources, e.resources, 0, map[]);
      }
  }

  /** A view of a buffer holds the octets between its ends; an end before the buffer counts from behind, as far as there
      are octets, and one past it counts as its end. */
  lemma ViewsAreExact(buffer: bytes, start: int, end: int)
    ensures 0 <= start <= end <= |buffer| ==> Subarray(buffer, start, end) == buffer[start..end]
    ensures start < 0 ==>
      Subarray(buffer, start, end) == Subarray(buffer, if -start <= |buffer| then |buffer| + start else 0, end)
    ensures end < 0 ==>
      Subarray(buffer, start, end) == Subarray(buffer, start, if -end <= |buffer| then |buffer| + end else 0)
    ensures start >= |buffer| || 0 <= end <= start ==> Subarray(buffer, start, end) == []
    ensures end > |buffer| ==> Subarray(buffer, start, end) == Subarray(buffer, start, |buffer|)
  {}

  /** The resources that come with it: every listed path has the bytes of its last entry, or in the older form its
      payload. */
  lemma ReadResourcesAreListed(codec: Codec, payload: bytes, path: string)
    requires ReadOf(codec, payload).Ok?
    ensures var s := ReadOf(codec, payload).value;
      path in s.resources <==>
        exists k :: 0 <= k < |s.manifest.resources| && s.manifest.resources[k].archivePath == path
  {
    hide Walked, Unpacked, FromBE;
    var buffer := codec.gunzip(payload).value;
    if IsBinary(buffer) {
      var length := FromBE(buffer[8..12]);
      var items := codec.parse(buffer[12..12 + length]).value.resources;
      WalkedPaths(codec, items, buffer, 12 + length, 0, map[], path);
    } else {
      var e := codec.envelope(buffer).value;
      UnpackedPayloads(codec, e.manifest.value.resources, e.resources, 0, map[], path);
    }
  }

  lemma {:induction false} WalkedPaths(codec: Codec, items: seq<Record>, buffer: bytes, offset: int, total: int,
                                       resources: map<string, bytes>, path: string)
    requires Walked(codec, items, buffer, offset, total, resources).Ok?
    ensures path in Walked(codec, items, buffer, offset, total, resources).value <==>
      path in resources || exists k :: 0 <= k < |items| && items[k].archivePath == path
    decreases |items|
  {
    hide Subarray, Safe;
    if items != [] {
      var item, rest := items[0], items[1..];
      var data := Subarray(buffer, offset, offset + item.size);
      WalkedPaths(codec, rest, buffer, offset + item.size, total + item.size, resources[item.archivePath := data],
                  path);
      assert forall k :: 0 <= k < |rest| ==> rest[k] == items[k + 1];
      assert forall k :: 0 < k < |items| ==> items[k] == rest[k - 1];
    }
  }
}
