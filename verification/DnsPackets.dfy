/** DNS packets: the parser, and the announcement a Satellite publishes. */
module DnsPackets {
  import opened Options
  import opened Bytes
  import opened DnsNames

  const TYPE_A: nat := 1
  const TYPE_PTR: nat := 12
  const TYPE_TXT: nat := 16
  const TYPE_SRV: nat := 33
  const CLASS_IN: nat := 1
  const TTL: nat := 120
  const EQUALS: byte := 61

  datatype Question = Question(name: bytes, qtype: nat, klass: nat)

  datatype Srv = Srv(priority: nat, weight: nat, port: nat, target: bytes)

  datatype Details = Details(address: Option<bytes>, ptr: Option<bytes>, srv: Option<Srv>,
                             txt: Option<map<bytes, bytes>>)

  datatype Record = Record(name: bytes, rtype: nat, klass: nat, ttl: nat, data: bytes, details: Details)

  datatype PacketError = InName(error: NameError) | TruncatedQuestion | TruncatedRecord | TruncatedRecordData

  datatype Reading<+T> = Read(value: T, next: nat) | Failure(error: PacketError)

  datatype Packet = Packet(questions: seq<Question>, records: seq<Record>)

  datatype PacketResult = Parsed(packet: Packet) | Unparsable(error: PacketError)

  function U16(buffer: bytes, offset: nat): nat
    requires offset + 2 <= |buffer|
  {
    FromBE(buffer[offset..offset + 2])
  }

  // ---------------------------------------------------------------------------
  // Parser
  // ---------------------------------------------------------------------------

  function ReadQuestion(buffer: bytes, offset: nat): Reading<Question> {
    match Text(NameAt(buffer, offset))
    case NameFailed(error) => Failure(InName(error))
    case ParsedName(name, at) =>
      if at + 4 > |buffer| then Failure(TruncatedQuestion)
      else Read(Question(name, U16(buffer, at), U16(buffer, at + 2) % 0x8000), at + 4)
  }

  function Find(item: bytes, b: byte): Option<nat> {
    if item == [] then None
    else if item[0] == b then Some(0)
    else match Find(item[1..], b)
      case None => None
      case Some(i) => Some(i + 1)
  }

  lemma {:induction false} FindFirst(item: bytes, b: byte)
    ensures match Find(item, b)
      case None => b !in item
      case Some(i) => i < |item| && item[i] == b && b !in item[..i]
  {
    if item != [] && item[0] != b {
      FindFirst(item[1..], b);
      match Find(item[1..], b)
      case None => assert item == [item[0]] + item[1..];
      case Some(i) => assert item[..i + 1] == [item[0]] + item[1..][..i];
    }
  }

  /** A text item is a key and a value parted by the first equals sign; later items win. */
  function PutItem(txt: map<bytes, bytes>, item: bytes): map<bytes, bytes> {
    FindFirst(item, EQUALS);
    match Find(item, EQUALS)
    case Some(i) => txt[item[..i] := item[i + 1..]]
    case None => txt[item := []]
  }

  function ReadTxt(buffer: bytes, cursor: nat, end: nat, txt: map<bytes, bytes>): map<bytes, bytes>
    requires end <= |buffer|
    decreases end - cursor
  {
    if cursor >= end then txt
    else
      var start, stop := cursor + 1, cursor + 1 + buffer[cursor];
      if stop > end then txt else ReadTxt(buffer, stop, end, PutItem(txt, buffer[start..stop]))
  }

  function ReadDetails(buffer: bytes, rtype: nat, at: nat, length: nat): Reading<Details>
    requires at + length <= |buffer|
  {
    var data := buffer[at..at + length];
    if rtype == TYPE_A && length == 4 then Read(Details(Some(data), None, None, None), at + length)
    else if rtype == TYPE_PTR then
      match Text(NameAt(buffer, at))
      case NameFailed(error) => Failure(InName(error))
      case ParsedName(name, _) => Read(Details(None, Some(name), None, None), at + length)
    else if rtype == TYPE_SRV && length >= 6 then
      match Text(NameAt(buffer, at + 6))
      case NameFailed(error) => Failure(InName(error))
      case ParsedName(name, _) =>
        var srv := Srv(U16(buffer, at), U16(buffer, at + 2), U16(buffer, at + 4), name);
        Read(Details(None, None, Some(srv), None), at + length)
    else if rtype == TYPE_TXT then
      Read(Details(None, None, None, Some(ReadTxt(buffer, at, at + length, map[]))), at + length)
    else Read(Details(None, None, None, None), at + length)
  }

  function ReadRecord(buffer: bytes, offset: nat): Reading<Record> {
    match Text(NameAt(buffer, offset))
    case NameFailed(error) => Failure(InName(error))
    case ParsedName(name, at) =>
      if at + 10 > |buffer| then Failure(TruncatedRecord)
      else
        var rtype, klass, ttl := U16(buffer, at), U16(buffer, at + 2) % 0x8000, FromBE(buffer[at + 4..at + 8]);
        var length := U16(buffer, at + 8);
        if at + 10 + length > |buffer| then Failure(TruncatedRecordData)
        else match ReadDetails(buffer, rtype, at + 10, length)
          case Failure(error) => Failure(error)
          case Read(details, next) =>
            Read(Record(name, rtype, klass, ttl, buffer[at + 10..at + 10 + length], details), next)
  }

  function ReadQuestions(buffer: bytes, offset: nat, n: nat): Reading<seq<Question>>
    decreases n
  {
    if n == 0 then Read([], offset)
    else match ReadQuestion(buffer, offset)
      case Failure(error) => Failure(error)
      case Read(question, next) => After([question], ReadQuestions(buffer, next, n - 1))
  }

  function ReadRecords(buffer: bytes, offset: nat, n: nat): Reading<seq<Record>>
    decreases n
  {
    if n == 0 then Read([], offset)
    else match ReadRecord(buffer, offset)
      case Failure(error) => Failure(error)
      case Read(record, next) => After([record], ReadRecords(buffer, next, n - 1))
  }

  function After<T>(done: seq<T>, rest: Reading<seq<T>>): Reading<seq<T>> {
    match rest
    case Failure(error) => Failure(error)
    case Read(more, next) => Read(done + more, next)
  }

  lemma AfterTwice<T>(a: seq<T>, b: seq<T>, rest: Reading<seq<T>>)
    ensures After(a, After(b, rest)) == After(a + b, rest)
  {
    if rest.Read? { assert a + (b + rest.value) == a + b + rest.value; }
  }

  function PacketOf(buffer: bytes): PacketResult {
    if |buffer| < 12 then Parsed(Packet([], []))
    else match ReadQuestions(buffer, 12, U16(buffer, 4))
      case Failure(error) => Unparsable(error)
      case Read(questions, next) =>
        match ReadRecords(buffer, next, U16(buffer, 6) + U16(buffer, 8) + U16(buffer, 10))
        case Failure(error) => Unparsable(error)
        case Read(records, _) => Parsed(Packet(questions, records))
  }

  method ParseTxt(buffer: bytes, at: nat, end: nat) returns (txt: map<bytes, bytes>)
    requires at <= end <= |buffer|
    ensures txt == ReadTxt(buffer, at, end, map[])
  {
    txt := map[];
    var cursor := at;
    while cursor < end
      invariant at <= cursor <= end
      invariant ReadTxt(buffer, cursor, end, txt) == ReadTxt(buffer, at, end, map[])
    {
      var itemLength: nat := buffer[cursor];
      cursor := cursor + 1;
      if cursor + itemLength > end { break; }
      txt := PutItem(txt, buffer[cursor..cursor + itemLength]);
      cursor := cursor + itemLength;
    }
  }

  method ParseRecord(buffer: bytes, offset: nat) returns (r: Reading<Record>)
    ensures r == ReadRecord(buffer, offset)
  {
    hide NameAt, FromBE, ReadTxt;
    var parsed := ReadName(buffer, offset);
    if parsed.NameFailed? { return Failure(InName(parsed.error)); }
    var at := parsed.nextOffset;
    if at + 10 > |buffer| { return Failure(TruncatedRecord); }
    var rtype, length := U16(buffer, at), U16(buffer, at + 8);
    var dataOffset, endOffset := at + 10, at + 10 + length;
    if endOffset > |buffer| { return Failure(TruncatedRecordData); }
    var data := buffer[dataOffset..endOffset];
    var details := Details(None, None, None, None);
    if rtype == TYPE_A && length == 4 { details := details.(address := Some(data)); }
    if rtype == TYPE_PTR {
      var name := ReadName(buffer, dataOffset);
      if name.NameFailed? { return Failure(InName(name.error)); }
      details := details.(ptr := Some(name.name));
    }
    if rtype == TYPE_SRV && length >= 6 {
      var name := ReadName(buffer, dataOffset + 6);
      if name.NameFailed? { return Failure(InName(name.error)); }
      details := details.(srv := Some(
        Srv(U16(buffer, dataOffset), U16(buffer, dataOffset + 2), U16(buffer, dataOffset + 4), name.name)));
    }
    if rtype == TYPE_TXT {
      var txt := ParseTxt(buffer, dataOffset, endOffset);
      details := details.(txt := Some(txt));
    }
    return Read(Record(parsed.name, rtype, U16(buffer, at + 2) % 0x8000, FromBE(buffer[at + 4..at + 8]), data, details),
                endOffset);
  }

  lemma AfterNone<T>(rest: Reading<seq<T>>)
    ensures After([], rest) == rest
  {
    if rest.Read? { assert [] + rest.value == rest.value; }
  }

  method ParseQuestions(buffer: bytes, start: nat, qd: nat) returns (r: Reading<seq<Question>>)
    ensures r == ReadQuestions(buffer, start, qd)
  {
    hide ReadQuestion;
    var offset: nat, questions := start, [];
    AfterNone(ReadQuestions(buffer, start, qd));
    for index := 0 to qd
      invariant ReadQuestions(buffer, start, qd) == After(questions, ReadQuestions(buffer, offset, qd - index))
    {
      var parsed := ReadQuestion(buffer, offset);
      if parsed.Failure? { return Failure(parsed.error); }
      AfterTwice(questions, [parsed.value], ReadQuestions(buffer, parsed.next, qd - index - 1));
      questions, offset := questions + [parsed.value], parsed.next;
    }
    assert questions + [] == questions;
    return Read(questions, offset);
  }

  method ParseRecords(buffer: bytes, start: nat, count: nat) returns (r: Reading<seq<Record>>)
    ensures r == ReadRecords(buffer, start, count)
  {
    hide ReadRecord;
    var offset: nat, records := start, [];
    AfterNone(ReadRecords(buffer, start, count));
    for index := 0 to count
      invariant ReadRecords(buffer, start, count) == After(records, ReadRecords(buffer, offset, count - index))
    {
      var parsed := ParseRecord(buffer, offset);
      if parsed.Failure? { return Failure(parsed.error); }
      AfterTwice(records, [parsed.value], ReadRecords(buffer, parsed.next, count - index - 1));
      records, offset := records + [parsed.value], parsed.next;
    }
    assert records + [] == records;
    return Read(records, offset);
  }

  method ParseDnsPacket(buffer: bytes) returns (r: PacketResult)
    ensures r == PacketOf(buffer)
  {
    if |buffer| < 12 { return Parsed(Packet([], [])); }
    var questions := ParseQuestions(buffer, 12, U16(buffer, 4));
    if questions.Failure? { return Unparsable(questions.error); }
    var totalRecords := U16(buffer, 6) + U16(buffer, 8) + U16(buffer, 10);
    var records := ParseRecords(buffer, questions.next, totalRecords);
    if records.Failure? { return Unparsable(records.error); }
    return Parsed(Packet(questions.value, records.value));
  }

  // ---------------------------------------------------------------------------
  // Publisher
  // ---------------------------------------------------------------------------

  /** What a Satellite announces: names as labels, text items in order, one four-byte address each. */
  datatype Publisher = Publisher(
    service: seq<bytes>,
    instance: seq<bytes>,
    hostname: seq<bytes>,
    port: nat,
    txt: seq<(bytes, bytes)>,
    addresses: seq<bytes>)

  function TextItem(pair: (bytes, bytes)): bytes {
    pair.0 + [EQUALS] + pair.1
  }

  /** Items longer than 255 bytes are left out. */
  function TxtPayload(values: seq<(bytes, bytes)>): bytes {
    if values == [] then []
    else
      var item := TextItem(values[0]);
      (if |item| <= 255 then [|item|] + item else []) + TxtPayload(values[1..])
  }

  /** One record, or nothing where the encoder throws: a long label, or a payload whose length needs more
      than 16 bits. */
  function ResourceRecord(name: bytes, rtype: nat, payload: bytes, cacheFlush: bool): Option<bytes> {
    match Encoded(name)
    case None => None
    case Some(wire) =>
      if |payload| > 0xffff then None else Some(wire + RecordTail(rtype, cacheFlush, |payload|) + payload)
  }

  function RecordTail(rtype: nat, cacheFlush: bool, length: nat): (r: bytes)
    ensures |r| == 10
  {
    ToBE(rtype, 2) + ToBE(if cacheFlush then 0x8001 else CLASS_IN, 2) + ToBE(TTL, 4) + ToBE(length, 2)
  }

  function Both(a: Option<bytes>, b: Option<bytes>): Option<bytes> {
    if a.Some? && b.Some? then Some(a.value + b.value) else None
  }

  function AddressRecords(hostname: bytes, addresses: seq<bytes>): Option<bytes> {
    if addresses == [] then Some([])
    else Both(ResourceRecord(hostname, TYPE_A, addresses[0], true), AddressRecords(hostname, addresses[1..]))
  }

  function Header(answers: nat, additionals: nat): (r: bytes)
    ensures |r| == 12
  {
    [0, 0, 0x84, 0, 0, 0] + ToBE(answers, 2) + [0, 0] + ToBE(additionals, 2)
  }

  function Dotted(labels: seq<bytes>): bytes {
    Join(labels) + [DOT]
  }

  /** The announcement, or nothing where building it throws. */
  function Announcement(p: Publisher): Option<bytes> {
    if p.port > 0xffff || |p.addresses| + 2 > 0xffff then None
    else match Encoded(Dotted(p.instance))
      case None => None
      case Some(instance) =>
        match Encoded(Dotted(p.hostname))
        case None => None
        case Some(hostname) =>
          var ptr := ResourceRecord(Dotted(p.service), TYPE_PTR, instance, false);
          var srv :=
            ResourceRecord(Dotted(p.instance), TYPE_SRV, ToBE(0, 2) + ToBE(0, 2) + ToBE(p.port, 2) + hostname, true);
          var txt := ResourceRecord(Dotted(p.instance), TYPE_TXT, TxtPayload(p.txt), true);
          var addresses := AddressRecords(Dotted(p.hostname), p.addresses);
          Both(Some(Header(1, |p.addresses| + 2)), Both(ptr, Both(srv, Both(txt, addresses))))
  }

  method EncodeTxt(values: seq<(bytes, bytes)>) returns (output: bytes)
    ensures output == TxtPayload(values)
  {
    hide TextItem;
    output := [];
    for i := 0 to |values|
      invariant output + TxtPayload(values[i..]) == TxtPayload(values)
    {
      var item := TextItem(values[i]);
      assert values[i..][1..] == values[i + 1..];
      if |item| <= 255 {
        assert output + (([|item|] + item) + TxtPayload(values[i + 1..]))
          == (output + ([|item|] + item)) + TxtPayload(values[i + 1..]);
        output := output + ([|item|] + item);
      }
    }
  }

  /** The publisher's packet, record by record; nothing when one of them cannot be encoded. */
  method BuildAnnouncement(p: Publisher) returns (r: Option<bytes>)
    ensures r == Announcement(p)
  {
    hide Encoded, ResourceRecord, TxtPayload, Dotted, Header;
    if p.port > 0xffff || |p.addresses| + 2 > 0xffff { return None; }
    var instance := EncodeName(Dotted(p.instance));
    if instance == None { return None; }
    var hostname := EncodeName(Dotted(p.hostname));
    if hostname == None { return None; }
    var txtPayload := EncodeTxt(p.txt);
    var ptr := ResourceRecord(Dotted(p.service), TYPE_PTR, instance.value, false);
    var srv :=
      ResourceRecord(Dotted(p.instance), TYPE_SRV, ToBE(0, 2) + ToBE(0, 2) + ToBE(p.port, 2) + hostname.value, true);
    var txt := ResourceRecord(Dotted(p.instance), TYPE_TXT, txtPayload, true);
    var addresses: Option<bytes>, i := Some([]), |p.addresses|;
    assert p.addresses[i..] == [];
    while i > 0
      invariant 0 <= i <= |p.addresses|
      invariant addresses == AddressRecords(Dotted(p.hostname), p.addresses[i..])
    {
      i := i - 1;
      assert p.addresses[i..][1..] == p.addresses[i + 1..];
      addresses := Both(ResourceRecord(Dotted(p.hostname), TYPE_A, p.addresses[i], true), addresses);
    }
    return Both(Some(Header(1, |p.addresses| + 2)), Both(ptr, Both(srv, Both(txt, addresses))));
  }

  /** The text record a reader should see: the announced pairs whose item fits. */
  function Announced(values: seq<(bytes, bytes)>, txt: map<bytes, bytes>): map<bytes, bytes> {
    if values == [] then txt
    else Announced(values[1..], if |TextItem(values[0])| <= 255 then txt[values[0].0 := values[0].1] else txt)
  }

  function Plain(name: bytes, rtype: nat, data: bytes, details: Details): Record {
    Record(name, rtype, CLASS_IN, TTL, data, details)
  }

  function AddressRecord(hostname: bytes, address: bytes): Record {
    Plain(hostname, TYPE_A, address, Details(Some(address), None, None, None))
  }

  function AddressesOf(hostname: bytes, addresses: seq<bytes>): seq<Record> {
    if addresses == [] then [] else [AddressRecord(hostname, addresses[0])] + AddressesOf(hostname, addresses[1..])
  }

  function SrvPayload(p: Publisher): bytes
    requires ValidLabels(p.hostname)
  {
    ToBE(0, 2) + ToBE(0, 2) + ToBE(p.port, 2) + LabelsWire(p.hostname)
  }

  function RecordsOf(p: Publisher): seq<Record>
    requires ValidLabels(p.instance) && ValidLabels(p.hostname)
  {
    [Plain(Dotted(p.service), TYPE_PTR, LabelsWire(p.instance), Details(None, Some(Dotted(p.instance)), None, None)),
     Plain(Dotted(p.instance), TYPE_SRV, SrvPayload(p),
           Details(None, None, Some(Srv(0, 0, p.port, Dotted(p.hostname))), None)),
     Plain(Dotted(p.instance), TYPE_TXT, TxtPayload(p.txt), Details(None, None, None, Some(Announced(p.txt, map[]))))]
    + AddressesOf(Dotted(p.hostname), p.addresses)
  }

  // ---------------------------------------------------------------------------
  // Round trip
  // ---------------------------------------------------------------------------

  ghost predicate Announceable(p: Publisher) {
    && p.service != [] && p.instance != [] && p.hostname != []
    && ValidLabels(p.service) && ValidLabels(p.instance) && ValidLabels(p.hostname)
    && p.port <= 0xffff && |p.addresses| + 2 <= 0xffff
    && |LabelsWire(p.instance)| <= 0xffff && |LabelsWire(p.hostname)| + 6 <= 0xffff && |TxtPayload(p.txt)| <= 0xffff
    && (forall i :: 0 <= i < |p.addresses| ==> |p.addresses[i]| == 4)
    && (forall i :: 0 <= i < |p.txt| ==> EQUALS !in p.txt[i].0)
  }

  function RecordWire(labels: seq<bytes>, rtype: nat, cacheFlush: bool, payload: bytes): bytes
    requires ValidLabels(labels)
  {
    LabelsWire(labels) + RecordTail(rtype, cacheFlush, |payload|) + payload
  }

  /** The fixed fields of a record, read at their offsets. */
  lemma ReadTail(before: bytes, rtype: nat, cacheFlush: bool, length: nat, after: bytes)
    requires rtype <= 0xffff && length <= 0xffff
    ensures var b, at := before + RecordTail(rtype, cacheFlush, length) + after, |before|;
      && U16(b, at) == rtype && U16(b, at + 2) % 0x8000 == CLASS_IN
      && FromBE(b[at + 4..at + 8]) == TTL && U16(b, at + 8) == length
  {
    hide FromBE, ToBE;
    PowersOf256();
    var k := if cacheFlush then 0x8001 else CLASS_IN;
    var t, c, l, n := ToBE(rtype, 2), ToBE(k, 2), ToBE(TTL, 4), ToBE(length, 2);
    var b := before + RecordTail(rtype, cacheFlush, length) + after;
    assert RecordTail(rtype, cacheFlush, length) == t + c + l + n;
    assert b == before + t + (c + l + n + after);
    ReadField(before, rtype, 2, c + l + n + after);
    assert b == before + t + c + (l + n + after);
    ReadField(before + t, k, 2, l + n + after);
    assert b == before + t + c + l + (n + after);
    ReadField(before + t + c, TTL, 4, n + after);
    assert b == before + t + c + l + n + after;
    ReadField(before + t + c + l, length, 2, after);
  }

  lemma ReadField(before: bytes, value: nat, width: nat, after: bytes)
    requires value < Pow256(width)
    ensures FromBE((before + ToBE(value, width) + after)[|before|..|before| + width]) == value
  {
    BigEndianRoundTrip(value, width);
    assert (before + ToBE(value, width) + after)[|before|..|before| + width] == ToBE(value, width);
  }

  lemma Regroupings(before: bytes, name: bytes, tail: bytes, payload: bytes, after: bytes)
    ensures before + (name + tail + payload) + after == before + name + tail + payload + after
    ensures before + name + (tail + payload + after) == before + name + tail + payload + after
    ensures before + name + tail + (payload + after) == before + name + tail + payload + after
  {}

  lemma {:induction false} ReadRecordWire(before: bytes, labels: seq<bytes>, rtype: nat, cacheFlush: bool,
                                          payload: bytes, after: bytes, details: Details)
    requires labels != [] && ValidLabels(labels) && rtype <= 0xffff && |payload| <= 0xffff
    requires var head := before + LabelsWire(labels) + RecordTail(rtype, cacheFlush, |payload|);
      ReadDetails(head + payload + after, rtype, |head|, |payload|) == Read(details, |head + payload|)
    ensures var wire := RecordWire(labels, rtype, cacheFlush, payload);
      ReadRecord(before + wire + after, |before|)
        == Read(Plain(Dotted(labels), rtype, payload, details), |before + wire|)
  {
    hide ReadDetails, NameAt, Text, Encoded, Join, LabelsWire, RecordTail;
    var name, tail := LabelsWire(labels), RecordTail(rtype, cacheFlush, |payload|);
    var head := before + name + tail;
    var buffer := head + payload + after;
    Regroupings(before, name, tail, payload, after);
    NameRoundTrip(before, labels, tail + payload + after);
    ReadTail(before + name, rtype, cacheFlush, |payload|, payload + after);
    assert buffer[|head|..|head| + |payload|] == payload;
  }

  lemma {:induction false} PtrDetails(head: bytes, target: seq<bytes>, after: bytes)
    requires target != [] && ValidLabels(target)
    ensures var data := LabelsWire(target);
      ReadDetails(head + data + after, TYPE_PTR, |head|, |data|)
        == Read(Details(None, Some(Dotted(target)), None, None), |head + data|)
  {
    hide NameAt, Join, LabelsWire, Encoded;
    NameRoundTrip(head, target, after);
  }

  lemma {:induction false} SrvDetails(head: bytes, p: Publisher, after: bytes)
    requires p.hostname != [] && ValidLabels(p.hostname) && p.port <= 0xffff
    ensures var data := SrvPayload(p);
      ReadDetails(head + data + after, TYPE_SRV, |head|, |data|)
        == Read(Details(None, None, Some(Srv(0, 0, p.port, Dotted(p.hostname))), None), |head + data|)
  {
    hide NameAt, Join, LabelsWire, Encoded, FromBE, ToBE;
    PowersOf256();
    var zero, port, name := ToBE(0, 2), ToBE(p.port, 2), LabelsWire(p.hostname);
    var buffer := head + SrvPayload(p) + after;
    assert buffer == head + zero + (zero + port + name + after);
    ReadField(head, 0, 2, zero + port + name + after);
    assert buffer == head + zero + zero + (port + name + after);
    ReadField(head + zero, 0, 2, port + name + after);
    assert buffer == head + zero + zero + port + (name + after);
    ReadField(head + zero + zero, p.port, 2, name + after);
    assert buffer == head + zero + zero + port + name + after;
    NameRoundTrip(head + zero + zero + port, p.hostname, after);
  }

  /** A value keeps its equals signs: only the first one of an item parts key and value. */
  lemma PutAnnounced(txt: map<bytes, bytes>, pair: (bytes, bytes))
    requires EQUALS !in pair.0
    ensures PutItem(txt, TextItem(pair)) == txt[pair.0 := pair.1]
  {
    var item, n := TextItem(pair), |pair.0|;
    assert item[n] == EQUALS && item[..n] == pair.0 && item[n + 1..] == pair.1;
    FindAt(item, EQUALS, n);
  }

  lemma {:induction false} FindAt(item: bytes, b: byte, n: nat)
    requires n < |item| && item[n] == b && b !in item[..n]
    ensures Find(item, b) == Some(n)
    decreases n
  {
    if n > 0 {
      assert item[..n] == [item[0]] + item[1..][..n - 1];
      FindAt(item[1..], b, n - 1);
    }
  }

  lemma {:induction false} TxtRoundTrip(before: bytes, values: seq<(bytes, bytes)>, after: bytes,
                                        txt: map<bytes, bytes>)
    requires forall i :: 0 <= i < |values| ==> EQUALS !in values[i].0
    ensures var data := TxtPayload(values);
      ReadTxt(before + data + after, |before|, |before + data|, txt) == Announced(values, txt)
    decreases |values|
  {
    hide PutItem, TextItem;
    if values != [] {
      var item, rest := TextItem(values[0]), TxtPayload(values[1..]);
      if |item| <= 255 {
        PutAnnounced(txt, values[0]);
        TxtRoundTrip(before + ([|item|] + item), values[1..], after, txt[values[0].0 := values[0].1]);
        TakeItem(before, item, rest, after, txt);
      } else {
        assert TxtPayload(values) == rest;
        TxtRoundTrip(before, values[1..], after, txt);
      }
    }
  }

  lemma TakeItem(before: bytes, item: bytes, rest: bytes, after: bytes, txt: map<bytes, bytes>)
    requires |item| <= 255
    ensures var framed := [|item|] + item;
      var buffer, end := before + (framed + rest) + after, |before + (framed + rest)|;
      && buffer == before + framed + rest + after && end == |before + framed + rest|
      && ReadTxt(buffer, |before|, end, txt) == ReadTxt(buffer, |before + framed|, end, PutItem(txt, item))
  {
    hide PutItem;
    var buffer := before + ([|item|] + item + rest) + after;
    assert buffer == before + ([|item|] + item) + rest + after;
    assert buffer[|before|] == |item|;
    assert buffer[|before| + 1..|before| + 1 + |item|] == item;
  }

  lemma TxtDetails(head: bytes, values: seq<(bytes, bytes)>, after: bytes)
    requires forall i :: 0 <= i < |values| ==> EQUALS !in values[i].0
    ensures var data := TxtPayload(values);
      ReadDetails(head + data + after, TYPE_TXT, |head|, |data|)
        == Read(Details(None, None, None, Some(Announced(values, map[]))), |head + data|)
  {
    hide ReadTxt, Announced;
    TxtRoundTrip(head, values, after, map[]);
  }

  lemma AddressDetails(head: bytes, address: bytes, after: bytes)
    requires |address| == 4
    ensures ReadDetails(head + address + after, TYPE_A, |head|, 4)
      == Read(Details(Some(address), None, None, None), |head + address|)
  {
    assert (head + address + after)[|head|..|head| + 4] == address;
  }

  lemma EncodedRecord(labels: seq<bytes>, rtype: nat, cacheFlush: bool, payload: bytes)
    requires labels != [] && ValidLabels(labels) && |payload| <= 0xffff
    ensures ResourceRecord(Dotted(labels), rtype, payload, cacheFlush)
      == Some(RecordWire(labels, rtype, cacheFlush, payload))
  {
    EncodedLabels(labels);
  }

  function AddressWires(hostname: seq<bytes>, addresses: seq<bytes>): bytes
    requires ValidLabels(hostname)
  {
    if addresses == [] then []
    else RecordWire(hostname, TYPE_A, true, addresses[0]) + AddressWires(hostname, addresses[1..])
  }

  lemma {:induction false} EncodedAddresses(hostname: seq<bytes>, addresses: seq<bytes>)
    requires hostname != [] && ValidLabels(hostname)
    requires forall i :: 0 <= i < |addresses| ==> |addresses[i]| == 4
    ensures AddressRecords(Dotted(hostname), addresses) == Some(AddressWires(hostname, addresses))
  {
    hide RecordWire, ResourceRecord;
    if addresses != [] {
      EncodedRecord(hostname, TYPE_A, true, addresses[0]);
      EncodedAddresses(hostname, addresses[1..]);
    }
  }

  /** One record at the front of what is left to read. */
  lemma ReadFirst(before: bytes, wire: bytes, rest: bytes, record: Record, n: nat)
    requires n > 0
    requires ReadRecord(before + wire + rest, |before|) == Read(record, |before + wire|)
    ensures ReadRecords(before + wire + rest, |before|, n)
         == After([record], ReadRecords(before + wire + rest, |before + wire|, n - 1))
  {}

  lemma {:induction false} AddressesRead(before: bytes, hostname: seq<bytes>, addresses: seq<bytes>)
    requires hostname != [] && ValidLabels(hostname)
    requires forall i :: 0 <= i < |addresses| ==> |addresses[i]| == 4
    ensures var data := AddressWires(hostname, addresses);
      ReadRecords(before + data, |before|, |addresses|)
        == Read(AddressesOf(Dotted(hostname), addresses), |before + data|)
    decreases |addresses|
  {
    hide RecordWire, ReadRecord, ReadRecords, Dotted, AddressesOf, AddressWires;
    if addresses != [] {
      var a, rest := addresses[0], AddressWires(hostname, addresses[1..]);
      var wire := RecordWire(hostname, TYPE_A, true, a);
      AddressesRead(before + wire, hostname, addresses[1..]);
      AddressRead(before, hostname, a, rest);
      ReadFirst(before, wire, rest, AddressRecord(Dotted(hostname), a), |addresses|);
      FirstAddress(hostname, addresses);
      assert before + (wire + rest) == before + wire + rest;
    } else {
      NoAddresses(before, hostname);
    }
  }

  lemma AddressRead(before: bytes, hostname: seq<bytes>, a: bytes, rest: bytes)
    requires hostname != [] && ValidLabels(hostname) && |a| == 4
    ensures var wire := RecordWire(hostname, TYPE_A, true, a);
      ReadRecord(before + wire + rest, |before|) == Read(AddressRecord(Dotted(hostname), a), |before + wire|)
  {
    hide RecordWire, ReadRecord, ReadDetails, Dotted;
    AddressDetails(before + LabelsWire(hostname) + RecordTail(TYPE_A, true, 4), a, rest);
    ReadRecordWire(before, hostname, TYPE_A, true, a, rest, Details(Some(a), None, None, None));
  }

  lemma NoAddresses(before: bytes, hostname: seq<bytes>)
    requires hostname != [] && ValidLabels(hostname)
    ensures var data := AddressWires(hostname, []);
      ReadRecords(before + data, |before|, 0) == Read(AddressesOf(Dotted(hostname), []), |before + data|)
  {
    hide Dotted;
    assert before + [] == before;
  }

  lemma FirstAddress(hostname: seq<bytes>, addresses: seq<bytes>)
    requires hostname != [] && ValidLabels(hostname) && addresses != []
    requires forall i :: 0 <= i < |addresses| ==> |addresses[i]| == 4
    ensures AddressWires(hostname, addresses)
      == RecordWire(hostname, TYPE_A, true, addresses[0]) + AddressWires(hostname, addresses[1..])
    ensures AddressesOf(Dotted(hostname), addresses)
      == [AddressRecord(Dotted(hostname), addresses[0])] + AddressesOf(Dotted(hostname), addresses[1..])
  {
    hide RecordWire, Dotted;
  }

  function Wires(p: Publisher): (bytes, bytes, bytes, bytes)
    requires Announceable(p)
  {
    (RecordWire(p.service, TYPE_PTR, false, LabelsWire(p.instance)),
     RecordWire(p.instance, TYPE_SRV, true, SrvPayload(p)),
     RecordWire(p.instance, TYPE_TXT, true, TxtPayload(p.txt)),
     AddressWires(p.hostname, p.addresses))
  }

  lemma {:induction false} AnnouncementWire(p: Publisher)
    requires Announceable(p)
    ensures var (ptr, srv, txt, addresses) := Wires(p);
      Announcement(p) == Some(Header(1, |p.addresses| + 2) + (ptr + (srv + (txt + addresses))))
  {
    hide RecordWire, ResourceRecord, AddressWires, AddressRecords, LabelsWire, Encoded, Dotted, TxtPayload;
    InstanceEncodes(p.instance);
    InstanceEncodes(p.hostname);
    EncodedRecord(p.service, TYPE_PTR, false, LabelsWire(p.instance));
    EncodedRecord(p.instance, TYPE_SRV, true, SrvPayload(p));
    EncodedRecord(p.instance, TYPE_TXT, true, TxtPayload(p.txt));
    EncodedAddresses(p.hostname, p.addresses);
  }

  lemma InstanceEncodes(labels: seq<bytes>)
    requires labels != [] && ValidLabels(labels)
    ensures Encoded(Dotted(labels)) == Some(LabelsWire(labels))
  {
    EncodedLabels(labels);
  }

  /** The three leading records of an announcement, each read where the one before it ends. */
  lemma {:induction false} LeadingRecords(p: Publisher, head: bytes, n: nat)
    requires Announceable(p)
    ensures var (ptr, srv, txt, rest) := Wires(p);
      var buffer := head + (ptr + (srv + (txt + rest)));
      && buffer == head + ptr + srv + txt + rest
      && ReadRecords(buffer, |head|, n + 3)
        == After(RecordsOf(p)[..3], ReadRecords(buffer, |head + ptr + srv + txt|, n))
  {
    hide RecordWire, ReadRecord, ReadDetails, AddressWires, RecordTail, LabelsWire, TxtPayload, SrvPayload, Dotted,
         Announced;
    var (ptr, srv, txt, rest) := Wires(p);
    var buffer := head + (ptr + (srv + (txt + rest)));
    var records := RecordsOf(p);
    var target, service, text := LabelsWire(p.instance), SrvPayload(p), TxtPayload(p.txt);
    SrvPayloadLength(p);
    assert buffer == head + ptr + (srv + (txt + rest));
    PtrDetails(head + LabelsWire(p.service) + RecordTail(TYPE_PTR, false, |target|), p.instance, srv + (txt + rest));
    ReadRecordWire(head, p.service, TYPE_PTR, false, target, srv + (txt + rest), records[0].details);
    ReadFirst(head, ptr, srv + (txt + rest), records[0], n + 3);
    assert buffer == head + ptr + srv + (txt + rest);
    SrvDetails(head + ptr + LabelsWire(p.instance) + RecordTail(TYPE_SRV, true, |service|), p, txt + rest);
    ReadRecordWire(head + ptr, p.instance, TYPE_SRV, true, service, txt + rest, records[1].details);
    ReadFirst(head + ptr, srv, txt + rest, records[1], n + 2);
    assert buffer == head + ptr + srv + txt + rest;
    TxtDetails(head + ptr + srv + LabelsWire(p.instance) + RecordTail(TYPE_TXT, true, |text|), p.txt, rest);
    ReadRecordWire(head + ptr + srv, p.instance, TYPE_TXT, true, text, rest, records[2].details);
    ReadFirst(head + ptr + srv, txt, rest, records[2], n + 1);
    var tail := ReadRecords(buffer, |head + ptr + srv + txt|, n);
    AfterTwice([records[1]], [records[2]], tail);
    AfterTwice([records[0]], [records[1]] + [records[2]], tail);
    assert records[..3] == [records[0]] + ([records[1]] + [records[2]]);
  }

  lemma SrvPayloadLength(p: Publisher)
    requires ValidLabels(p.hostname)
    ensures |SrvPayload(p)| == 6 + |LabelsWire(p.hostname)|
  {}

  /** Parsing an announcement gives back the records that were put in: the service pointer, the service
      location, the text items that fit with their values intact, and one address record per address. */
  lemma {:induction false} PacketRoundTrip(p: Publisher)
    requires Announceable(p)
    ensures Announcement(p).Some?
    ensures PacketOf(Announcement(p).value) == Parsed(Packet([], RecordsOf(p)))
  {
    hide Wires, ReadRecords, RecordsOf, AddressesOf, AddressWires, Announcement, U16, Dotted, ReadQuestion;
    AnnouncementWire(p);
    var n := |p.addresses|;
    var head := Header(1, n + 2);
    var buffer := Announcement(p).value;
    var (ptr, srv, txt, rest) := Wires(p);
    HeaderFields(n, ptr + (srv + (txt + rest)));
    LeadingRecords(p, head, n);
    RestIsAddresses(p);
    AddressesRead(head + ptr + srv + txt, p.hostname, p.addresses);
  }

  lemma RestIsAddresses(p: Publisher)
    requires Announceable(p)
    ensures Wires(p).3 == AddressWires(p.hostname, p.addresses)
    ensures RecordsOf(p) == RecordsOf(p)[..3] + AddressesOf(Dotted(p.hostname), p.addresses)
  {}

  lemma HeaderFields(n: nat, rest: bytes)
    requires n + 2 <= 0xffff
    ensures var buffer := Header(1, n + 2) + rest;
      U16(buffer, 4) == 0 && U16(buffer, 6) == 1 && U16(buffer, 8) == 0 && U16(buffer, 10) == n + 2
  {
    PowersOf256();
    BigEndianRoundTrip(1, 2);
    BigEndianRoundTrip(n + 2, 2);
    var buffer := Header(1, n + 2) + rest;
    assert buffer[4..6] == [0, 0] && buffer[8..10] == [0, 0];
    assert FromBE([0, 0]) == 0 by { assert [0, 0][..1] == [0] && [0][..0] == []; }
    assert buffer[6..8] == ToBE(1, 2) && buffer[10..12] == ToBE(n + 2, 2);
  }
}
