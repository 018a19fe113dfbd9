/** Packets that anybody may have written, and what the parser makes of them. */
module DnsWire {
  import opened Options
  import opened Bytes
  import opened DnsNames
  import opened DnsPackets

  /** A text item: a key without an equals sign, and a value if there is one. */
  datatype Item = Item(key: bytes, value: Option<bytes>)

  /** What a record holds. A text payload may end in an item that is cut short. */
  datatype Content =
    | Address(address: bytes)
    | Pointer(target: seq<bytes>)
    | Service(priority: nat, weight: nat, port: nat, host: seq<bytes>)
    | Texts(items: seq<Item>, broken: bytes)
    | Other(rtype: nat, payload: bytes)

  datatype Asked = Asked(labels: seq<bytes>, qtype: nat, klass: nat)

  datatype Told = Told(labels: seq<bytes>, klass: nat, ttl: nat, content: Content)

  ghost predicate Named(labels: seq<bytes>) {
    labels != [] && ValidLabels(labels)
  }

  ghost predicate ValidItem(item: Item) {
    61 !in item.key && |ItemWire(item)| <= 255
  }

  /** The last item says it is longer than what is left. */
  ghost predicate CutShort(broken: bytes) {
    broken == [] || broken[0] > |broken| - 1
  }

  ghost predicate ValidContent(c: Content) {
    match c
    case Address(address) => |address| == 4
    case Pointer(target) => Named(target)
    case Service(priority, weight, port, host) =>
      priority <= 0xffff && weight <= 0xffff && port <= 0xffff && Named(host)
    case Texts(items, broken) => CutShort(broken) && forall i :: 0 <= i < |items| ==> ValidItem(items[i])
    case Other(rtype, payload) =>
      && rtype <= 0xffff && rtype != 12 && rtype != 16 && !(rtype == 1 && |payload| == 4)
      && !(rtype == 33 && |payload| >= 6)
  }

  ghost predicate ValidTold(t: Told) {
    && Named(t.labels) && t.klass <= 0xffff && t.ttl <= 0xffff_ffff && ValidContent(t.content)
    && |ContentWire(t.content)| <= 0xffff
  }

  ghost predicate ValidAsked(a: Asked) {
    Named(a.labels) && a.qtype <= 0xffff && a.klass <= 0xffff
  }

  // ---------------------------------------------------------------------------
  // On the wire (section 4.1 of RFC 1035, section 3.3 for the types, RFC 2782 for services)
  // ---------------------------------------------------------------------------

  function ItemWire(item: Item): bytes {
    match item.value case Some(value) => item.key + [61] + value case None => item.key
  }

  ghost function ItemsWire(items: seq<Item>): bytes
    requires forall i :: 0 <= i < |items| ==> ValidItem(items[i])
  {
    if items == [] then []
    else
      assert ValidItem(items[0]);
      [|ItemWire(items[0])|] + ItemWire(items[0]) + ItemsWire(items[1..])
  }

  ghost function ContentWire(c: Content): bytes
    requires ValidContent(c)
  {
    match c
    case Address(address) => address
    case Pointer(target) => LabelsWire(target)
    case Service(priority, weight, port, host) =>
      ToBE(priority, 2) + ToBE(weight, 2) + ToBE(port, 2) + LabelsWire(host)
    case Texts(items, broken) => ItemsWire(items) + broken
    case Other(_, payload) => payload
  }

  function TypeOf(c: Content): nat {
    match c
    case Address(_) => 1
    case Pointer(_) => 12
    case Texts(_, _) => 16
    case Service(_, _, _, _) => 33
    case Other(rtype, _) => rtype
  }

  ghost function AskedWire(a: Asked): bytes
    requires ValidAsked(a)
  {
    LabelsWire(a.labels) + ToBE(a.qtype, 2) + ToBE(a.klass, 2)
  }

  ghost function ToldWire(t: Told): bytes
    requires ValidTold(t)
  {
    LabelsWire(t.labels) + Fixed(t) + ContentWire(t.content)
  }

  ghost function Fixed(t: Told): bytes
    requires ValidTold(t)
  {
    ToBE(TypeOf(t.content), 2) + ToBE(t.klass, 2) + ToBE(t.ttl, 4) + ToBE(|ContentWire(t.content)|, 2)
  }

  ghost function AskedWires(asked: seq<Asked>): bytes
    requires forall i :: 0 <= i < |asked| ==> ValidAsked(asked[i])
  {
    if asked == [] then [] else AskedWire(asked[0]) + AskedWires(asked[1..])
  }

  ghost function ToldWires(told: seq<Told>): bytes
    requires forall i :: 0 <= i < |told| ==> ValidTold(told[i])
  {
    if told == [] then [] else ToldWire(told[0]) + ToldWires(told[1..])
  }

  // ---------------------------------------------------------------------------
  // What a reader must see
  // ---------------------------------------------------------------------------

  /** Later items win; an item without an equals sign has the empty value. */
  function TextOf(items: seq<Item>, txt: map<bytes, bytes>): map<bytes, bytes> {
    if items == [] then txt
    else TextOf(items[1..], txt[items[0].key := match items[0].value case Some(value) => value case None => []])
  }

  function Seen(c: Content): Details {
    match c
    case Address(address) => Details(Some(address), None, None, None)
    case Pointer(target) => Details(None, Some(Dotted(target)), None, None)
    case Service(priority, weight, port, host) =>
      Details(None, None, Some(Srv(priority, weight, port, Dotted(host))), None)
    case Texts(items, _) => Details(None, None, None, Some(TextOf(items, map[])))
    case Other(_, _) => Details(None, None, None, None)
  }

  /** The highest bit of a class is a flag and does not count. */
  function QuestionFor(a: Asked): Question {
    Question(Dotted(a.labels), a.qtype, a.klass % 0x8000)
  }

  ghost function RecordFor(t: Told): Record
    requires ValidTold(t)
  {
    Record(Dotted(t.labels), TypeOf(t.content), t.klass % 0x8000, t.ttl, ContentWire(t.content), Seen(t.content))
  }

  ghost function QuestionsFor(asked: seq<Asked>): seq<Question> {
    if asked == [] then [] else [QuestionFor(asked[0])] + QuestionsFor(asked[1..])
  }

  ghost function RecordsFor(told: seq<Told>): seq<Record>
    requires forall i :: 0 <= i < |told| ==> ValidTold(told[i])
  {
    if told == [] then [] else [RecordFor(told[0])] + RecordsFor(told[1..])
  }

  // ---------------------------------------------------------------------------
  // Reading it
  // ---------------------------------------------------------------------------

  lemma {:induction false} QuestionIsRead(before: bytes, a: Asked, after: bytes)
    requires ValidAsked(a)
    ensures ReadQuestion(before + AskedWire(a) + after, |before|) == Read(QuestionFor(a), |before + AskedWire(a)|)
  {
    hide NameAt, Text, Join, LabelsWire, FromBE, ToBE, Encoded;
    PowersOf256();
    var name, t, c := LabelsWire(a.labels), ToBE(a.qtype, 2), ToBE(a.klass, 2);
    var buffer := before + AskedWire(a) + after;
    assert buffer == before + name + (t + c + after);
    NameRoundTrip(before, a.labels, t + c + after);
    assert buffer == before + name + t + (c + after);
    ReadField(before + name, a.qtype, 2, c + after);
    assert buffer == before + name + t + c + after;
    ReadField(before + name + t, a.klass, 2, after);
  }

  lemma {:induction false} QuestionsAreRead(before: bytes, asked: seq<Asked>, after: bytes)
    requires forall i :: 0 <= i < |asked| ==> ValidAsked(asked[i])
    ensures ReadQuestions(before + AskedWires(asked) + after, |before|, |asked|)
      == Read(QuestionsFor(asked), |before + AskedWires(asked)|)
    decreases |asked|
  {
    hide ReadQuestion, AskedWire, QuestionFor, ValidAsked;
    if asked == [] {
      assert before + [] + after == before + after && before + [] == before;
    } else {
      var wire, rest := AskedWire(asked[0]), AskedWires(asked[1..]);
      QuestionIsRead(before, asked[0], rest + after);
      QuestionsAreRead(before + wire, asked[1..], after);
      assert before + (wire + rest) + after == before + wire + (rest + after) == before + wire + rest + after;
      assert before + (wire + rest) == before + wire + rest;
    }
  }

  lemma {:induction false} ItemIsPut(txt: map<bytes, bytes>, item: Item)
    requires ValidItem(item)
    ensures PutItem(txt, ItemWire(item)) == txt[item.key := match item.value case Some(value) => value case None => []]
  {
    match item.value
    case Some(value) => PutAnnounced(txt, (item.key, value));
    case None => FindFirst(item.key, EQUALS);
  }

  lemma {:induction false} ItemsAreRead(before: bytes, items: seq<Item>, broken: bytes, after: bytes,
                                        txt: map<bytes, bytes>)
    requires CutShort(broken) && forall i :: 0 <= i < |items| ==> ValidItem(items[i])
    ensures var data := ItemsWire(items) + broken;
      ReadTxt(before + data + after, |before|, |before + data|, txt) == TextOf(items, txt)
    decreases |items|
  {
    hide PutItem, ItemWire, ValidItem;
    if items == [] {
      assert [] + broken == broken;
      if broken != [] { assert (before + broken + after)[|before|] == broken[0]; }
    } else {
      assert |ItemWire(items[0])| <= 255 by { ItemFits(items[0]); }
      var item, rest := ItemWire(items[0]), ItemsWire(items[1..]) + broken;
      ItemIsPut(txt, items[0]);
      assert ItemsWire(items) + broken == [|item|] + item + rest;
      ReadItem(before, item, rest, after, txt);
      var more := match items[0].value case Some(value) => value case None => [];
      ItemsAreRead(before + ([|item|] + item), items[1..], broken, after, txt[items[0].key := more]);
    }
  }

  lemma ItemFits(item: Item)
    requires ValidItem(item)
    ensures |ItemWire(item)| <= 255
  {}

  lemma ReadItem(before: bytes, item: bytes, rest: bytes, after: bytes, txt: map<bytes, bytes>)
    requires |item| <= 255
    ensures var framed := [|item|] + item;
      var buffer, end := before + (framed + rest) + after, |before + (framed + rest)|;
      && buffer == before + framed + rest + after && buffer == (before + framed) + rest + after
      && end == |(before + framed) + rest|
      && ReadTxt(buffer, |before|, end, txt) == ReadTxt(buffer, |before + framed|, end, PutItem(txt, item))
  {
    hide PutItem;
    var framed := [|item|] + item;
    var buffer := before + (framed + rest) + after;
    assert buffer == before + framed + rest + after;
    assert buffer[|before|] == |item|;
    assert buffer[|before| + 1..|before| + 1 + |item|] == item;
  }

  lemma {:induction false} ContentIsRead(head: bytes, c: Content, after: bytes)
    requires ValidContent(c)
    ensures var data := ContentWire(c);
      ReadDetails(head + data + after, TypeOf(c), |head|, |data|) == Read(Seen(c), |head + data|)
  {
    hide ReadDetails, ReadTxt, NameAt, LabelsWire;
    match c
    case Address(address) => AddressDetails(head, address, after);
    case Pointer(target) => PtrDetails(head, target, after);
    case Service(priority, weight, port, host) => ServiceIsRead(head, priority, weight, port, host, after);
    case Texts(items, broken) => TextsAreRead(head, items, broken, after);
    case Other(rtype, payload) => OtherIsRead(head, rtype, payload, after);
  }

  lemma TextsAreRead(head: bytes, items: seq<Item>, broken: bytes, after: bytes)
    requires CutShort(broken) && forall i :: 0 <= i < |items| ==> ValidItem(items[i])
    ensures var data := ItemsWire(items) + broken;
      ReadDetails(head + data + after, 16, |head|, |data|)
        == Read(Details(None, None, None, Some(TextOf(items, map[]))), |head + data|)
  {
    hide ReadTxt, NameAt;
    ItemsAreRead(head, items, broken, after, map[]);
  }

  lemma OtherIsRead(head: bytes, rtype: nat, payload: bytes, after: bytes)
    requires ValidContent(Other(rtype, payload))
    ensures ReadDetails(head + payload + after, rtype, |head|, |payload|)
      == Read(Details(None, None, None, None), |head + payload|)
  {
    hide ReadTxt, NameAt;
  }

  lemma {:induction false} ServiceIsRead(head: bytes, priority: nat, weight: nat, port: nat, host: seq<bytes>,
                                         after: bytes)
    requires priority <= 0xffff && weight <= 0xffff && port <= 0xffff && Named(host)
    ensures var data := ToBE(priority, 2) + ToBE(weight, 2) + ToBE(port, 2) + LabelsWire(host);
      ReadDetails(head + data + after, 33, |head|, |data|)
        == Read(Details(None, None, Some(Srv(priority, weight, port, Dotted(host))), None), |head + data|)
  {
    hide NameAt, Join, LabelsWire, Encoded, FromBE, ToBE, ReadTxt;
    PowersOf256();
    var p, w, q, name := ToBE(priority, 2), ToBE(weight, 2), ToBE(port, 2), LabelsWire(host);
    var buffer := head + (p + w + q + name) + after;
    assert buffer == head + p + (w + q + name + after);
    ReadField(head, priority, 2, w + q + name + after);
    assert buffer == head + p + w + (q + name + after);
    ReadField(head + p, weight, 2, q + name + after);
    assert buffer == head + p + w + q + (name + after);
    ReadField(head + p + w, port, 2, name + after);
    assert buffer == head + p + w + q + name + after;
    NameRoundTrip(head + p + w + q, host, after);
  }

  /** The fixed fields between the name and the payload. */
  lemma FixedIsRead(before: bytes, t: Told, after: bytes)
    requires ValidTold(t)
    ensures |Fixed(t)| == 10
    ensures var b, at := before + Fixed(t) + after, |before|;
      && U16(b, at) == TypeOf(t.content) && U16(b, at + 2) == t.klass && FromBE(b[at + 4..at + 8]) == t.ttl
      && U16(b, at + 8) == |ContentWire(t.content)|
  {
    hide FromBE, ToBE, ContentWire;
    PowersOf256();
    TypeFits(t.content);
    var k, c, l, n := ToBE(TypeOf(t.content), 2), ToBE(t.klass, 2), ToBE(t.ttl, 4), ToBE(|ContentWire(t.content)|, 2);
    var b := before + Fixed(t) + after;
    assert b == before + k + (c + l + n + after);
    ReadField(before, TypeOf(t.content), 2, c + l + n + after);
    assert b == before + k + c + (l + n + after);
    ReadField(before + k, t.klass, 2, l + n + after);
    assert b == before + k + c + l + (n + after);
    ReadField(before + k + c, t.ttl, 4, n + after);
    assert b == before + k + c + l + n + after;
    ReadField(before + k + c + l, |ContentWire(t.content)|, 2, after);
  }

  lemma TypeFits(c: Content)
    requires ValidContent(c)
    ensures TypeOf(c) <= 0xffff
  {}

  lemma {:induction false} RecordIsRead(before: bytes, t: Told, after: bytes)
    requires ValidTold(t)
    ensures ReadRecord(before + ToldWire(t) + after, |before|) == Read(RecordFor(t), |before + ToldWire(t)|)
  {
    hide ReadDetails, NameAt, Text, Encoded, Join, LabelsWire, Fixed, ContentWire, Seen, ValidContent;
    var name, tail, payload := LabelsWire(t.labels), Fixed(t), ContentWire(t.content);
    var buffer := before + name + tail + payload + after;
    FixedIsRead(before + name, t, payload + after);
    Regroupings(before, name, tail, payload, after);
    NameRoundTrip(before, t.labels, tail + payload + after);
    ContentIsRead(before + name + tail, t.content, after);
    assert buffer[|before + name + tail|..|before + name + tail| + |payload|] == payload;
  }

  lemma {:induction false} RecordsAreRead(before: bytes, told: seq<Told>, after: bytes)
    requires forall i :: 0 <= i < |told| ==> ValidTold(told[i])
    ensures ReadRecords(before + ToldWires(told) + after, |before|, |told|)
      == Read(RecordsFor(told), |before + ToldWires(told)|)
    decreases |told|
  {
    hide ReadRecord, ToldWire, RecordFor, ValidTold;
    if told == [] {
      assert before + [] + after == before + after && before + [] == before;
    } else {
      var wire, rest := ToldWire(told[0]), ToldWires(told[1..]);
      RecordIsRead(before, told[0], rest + after);
      RecordsAreRead(before + wire, told[1..], after);
      assert before + (wire + rest) + after == before + wire + (rest + after) == before + wire + rest + after;
      assert before + (wire + rest) == before + wire + rest;
    }
  }

  /** The header: an identifier and flags, which do not matter, and how many entries each section has. */
  ghost function HeaderWire(start: bytes, asked: nat, answers: nat, authorities: nat, additionals: nat): bytes {
    start + ToBE(asked, 2) + ToBE(answers, 2) + ToBE(authorities, 2) + ToBE(additionals, 2)
  }

  lemma HeaderIsRead(start: bytes, q: nat, a: nat, n: nat, r: nat, rest: bytes)
    requires |start| == 4 && q <= 0xffff && a <= 0xffff && n <= 0xffff && r <= 0xffff
    ensures var b := HeaderWire(start, q, a, n, r) + rest;
      |HeaderWire(start, q, a, n, r)| == 12 && U16(b, 4) == q && U16(b, 6) == a && U16(b, 8) == n && U16(b, 10) == r
  {
    hide FromBE, ToBE;
    PowersOf256();
    var s, t, u, v := ToBE(q, 2), ToBE(a, 2), ToBE(n, 2), ToBE(r, 2);
    var b := HeaderWire(start, q, a, n, r) + rest;
    assert b == start + s + (t + u + v + rest);
    ReadField(start, q, 2, t + u + v + rest);
    assert b == start + s + t + (u + v + rest);
    ReadField(start + s, a, 2, u + v + rest);
    assert b == start + s + t + u + (v + rest);
    ReadField(start + s + t, n, 2, v + rest);
    assert b == start + s + t + u + v + rest;
    ReadField(start + s + t + u, r, 2, rest);
  }

  /** Any packet of questions and records of any kinds is read as what it says, whatever follows it. */
  lemma {:induction false} AnyPacketIsRead(start: bytes, asked: seq<Asked>, told: seq<Told>, answers: nat,
                                           authorities: nat, additionals: nat, after: bytes)
    requires |start| == 4 && |asked| <= 0xffff && answers <= 0xffff && authorities <= 0xffff && additionals <= 0xffff
    requires answers + authorities + additionals == |told|
    requires forall i :: 0 <= i < |asked| ==> ValidAsked(asked[i])
    requires forall i :: 0 <= i < |told| ==> ValidTold(told[i])
    ensures PacketOf(HeaderWire(start, |asked|, answers, authorities, additionals)
                     + AskedWires(asked) + ToldWires(told) + after)
      == Parsed(Packet(QuestionsFor(asked), RecordsFor(told)))
  {
    hide AskedWires, ToldWires, HeaderWire, ReadQuestions, ReadRecords, U16, ValidAsked, ValidTold;
    var head, q, r := HeaderWire(start, |asked|, answers, authorities, additionals), AskedWires(asked), ToldWires(told);
    assert head + q + r + after == head + q + (r + after) == head + (q + r + after);
    HeaderIsRead(start, |asked|, answers, authorities, additionals, q + r + after);
    QuestionsAreRead(head, asked, r + after);
    RecordsAreRead(head + q, told, after);
  }

  // ---------------------------------------------------------------------------
  // What cannot be read
  // ---------------------------------------------------------------------------

  /** A question or record is refused for its name, or for what is missing after it. */
  lemma {:induction false} ShortEntriesAreRefused(before: bytes, labels: seq<bytes>, rest: bytes)
    requires Named(labels)
    ensures var buffer := before + LabelsWire(labels) + rest;
      && (|rest| < 4 ==> ReadQuestion(buffer, |before|) == Failure(TruncatedQuestion))
      && (|rest| < 10 ==> ReadRecord(buffer, |before|) == Failure(TruncatedRecord))
      && (|rest| >= 10 && FromBE(rest[8..10]) > |rest| - 10 ==>
          ReadRecord(buffer, |before|) == Failure(TruncatedRecordData))
  {
    hide NameAt, Text, Join, LabelsWire, FromBE, Encoded, ReadDetails;
    NameRoundTrip(before, labels, rest);
    var buffer, at := before + LabelsWire(labels) + rest, |before + LabelsWire(labels)|;
    if |rest| >= 10 { assert buffer[at + 8..at + 10] == rest[8..10]; }
  }

  lemma BadNamesAreRefused(buffer: bytes, offset: nat, error: NameError)
    requires NameAt(buffer, offset) == BadName(error)
    ensures ReadQuestion(buffer, offset) == Failure(InName(error))
      && ReadRecord(buffer, offset) == Failure(InName(error))
  {}

  /** Anything shorter than a header is an empty packet. */
  lemma ShortPacketsAreEmpty(buffer: bytes)
    requires |buffer| < 12
    ensures PacketOf(buffer) == Parsed(Packet([], []))
  {}

  // ---------------------------------------------------------------------------
  // What a Satellite publishes
  // ---------------------------------------------------------------------------

  /** The text items of which key, equals sign and value fit into 255 bytes. */
  function Fitting(values: seq<(bytes, bytes)>): seq<Item> {
    if values == [] then []
    else
      (if |values[0].0| + 1 + |values[0].1| <= 255 then [Item(values[0].0, Some(values[0].1))] else [])
      + Fitting(values[1..])
  }

  lemma {:induction false} FittingIsValid(values: seq<(bytes, bytes)>)
    requires forall i :: 0 <= i < |values| ==> 61 !in values[i].0
    ensures forall i :: 0 <= i < |Fitting(values)| ==> ValidItem(Fitting(values)[i])
    ensures ItemsWire(Fitting(values)) == TxtPayload(values)
  {
    if values != [] {
      FittingIsValid(values[1..]);
      var rest := Fitting(values[1..]);
      var item := Item(values[0].0, Some(values[0].1));
      assert ItemWire(item) == TextItem(values[0]);
      if |ItemWire(item)| <= 255 {
        assert ([item] + rest)[1..] == rest;
      } else {
        assert [] + rest == rest && [] + TxtPayload(values[1..]) == TxtPayload(values[1..]);
      }
    }
  }

  function AddressesTold(hostname: seq<bytes>, addresses: seq<bytes>): seq<Told> {
    if addresses == [] then []
    else [Told(hostname, 0x8001, 120, Address(addresses[0]))] + AddressesTold(hostname, addresses[1..])
  }

  /** One pointer from the service to the instance, and what the instance is, says and where it is; all but the pointer
      ask to flush older entries, and everything holds for two minutes. */
  function Published(p: Publisher): seq<Told> {
    [Told(p.service, 1, 120, Content.Pointer(p.instance)),
     Told(p.instance, 0x8001, 120, Service(0, 0, p.port, p.hostname)),
     Told(p.instance, 0x8001, 120, Texts(Fitting(p.txt), []))]
    + AddressesTold(p.hostname, p.addresses)
  }

  lemma ToldIsRecord(t: Told, cacheFlush: bool)
    requires ValidTold(t) && t.ttl == 120 && t.klass == if cacheFlush then 0x8001 else 1
    ensures ToldWire(t) == RecordWire(t.labels, TypeOf(t.content), cacheFlush, ContentWire(t.content))
  {
    hide ContentWire, LabelsWire, ToBE;
  }

  lemma {:induction false} AddressesAreTold(hostname: seq<bytes>, addresses: seq<bytes>)
    requires Named(hostname) && forall i :: 0 <= i < |addresses| ==> |addresses[i]| == 4
    ensures var told := AddressesTold(hostname, addresses);
      && |told| == |addresses| && (forall i :: 0 <= i < |told| ==> ValidTold(told[i]))
      && ToldWires(told) == AddressWires(hostname, addresses)
  {
    hide RecordWire, ToldWire;
    if addresses != [] {
      var first, rest := Told(hostname, 0x8001, 120, Address(addresses[0])), AddressesTold(hostname, addresses[1..]);
      AddressesAreTold(hostname, addresses[1..]);
      ToldIsRecord(first, true);
      assert ([first] + rest)[1..] == rest;
    }
  }

  lemma PublishedIsValid(p: Publisher)
    requires Announceable(p)
    ensures |Published(p)| == |p.addresses| + 3 && forall i :: 0 <= i < |Published(p)| ==> ValidTold(Published(p)[i])
  {
    hide ItemsWire, LabelsWire, Fitting, TxtPayload;
    FittingIsValid(p.txt);
    AddressesAreTold(p.hostname, p.addresses);
    assert ItemsWire(Fitting(p.txt)) + [] == ItemsWire(Fitting(p.txt));
    forall i | 0 <= i < |Published(p)| ensures ValidTold(Published(p)[i]) {
      if i >= 3 { assert Published(p)[i] == AddressesTold(p.hostname, p.addresses)[i - 3]; }
    }
  }

  /** The packet that is published, byte by byte: a response with one answer and the other records beside it. */
  lemma {:induction false} PublishedPacket(p: Publisher)
    requires Announceable(p)
    ensures |Published(p)| == |p.addresses| + 3 && forall i :: 0 <= i < |Published(p)| ==> ValidTold(Published(p)[i])
    ensures Announcement(p) ==
      Some(HeaderWire([0, 0, 0x84, 0], 0, 1, 0, |p.addresses| + 2) + AskedWires([]) + ToldWires(Published(p)) + [])
  {
    hide RecordWire, ToldWire, AddressWires, Announceable, Announcement, ItemsWire, TxtPayload, LabelsWire, ToldWires,
         Header, HeaderWire, Wires;
    PublishedIsValid(p);
    AnnouncementWire(p);
    var told, rest := Published(p), AddressesTold(p.hostname, p.addresses);
    var (ptr, srv, txt, addresses) := Wires(p);
    WiresAreTold(p);
    AddressesOfPublished(p);
    assert told == [told[0], told[1], told[2]] + rest;
    assert ValidTold(told[0]) && ValidTold(told[1]) && ValidTold(told[2]);
    ThreeAndMore(told[0], told[1], told[2], rest);
    SameHeader(|p.addresses| + 2);
    var head := Header(1, |p.addresses| + 2);
    assert head + [] + ToldWires(told) + [] == head + ToldWires(told);
  }

  lemma SameHeader(n: nat)
    ensures HeaderWire([0, 0, 0x84, 0], 0, 1, 0, n) == Header(1, n)
  {
    hide ToBE;
    assert ToBE(0, 2) == [0, 0] by { TwoZeros(); }
  }

  lemma TwoZeros()
    ensures ToBE(0, 2) == [0, 0]
  {}

  lemma ThreeAndMore(a: Told, b: Told, c: Told, rest: seq<Told>)
    requires ValidTold(a) && ValidTold(b) && ValidTold(c) && forall i :: 0 <= i < |rest| ==> ValidTold(rest[i])
    ensures forall i :: 0 <= i < |[a, b, c] + rest| ==> ValidTold(([a, b, c] + rest)[i])
    ensures ToldWires([a, b, c] + rest) == ToldWire(a) + (ToldWire(b) + (ToldWire(c) + ToldWires(rest)))
  {
    hide ValidTold, ToldWire, ToldWires;
    OneAndMore(c, rest);
    OneAndMore(b, [c] + rest);
    OneAndMore(a, [b] + ([c] + rest));
    assert [a, b, c] + rest == [a] + ([b] + ([c] + rest));
  }

  lemma OneAndMore(t: Told, rest: seq<Told>)
    requires ValidTold(t) && forall i :: 0 <= i < |rest| ==> ValidTold(rest[i])
    ensures forall i :: 0 <= i < |[t] + rest| ==> ValidTold(([t] + rest)[i])
    ensures ToldWires([t] + rest) == ToldWire(t) + ToldWires(rest)
  {
    hide ValidTold, ToldWire;
    assert ([t] + rest)[1..] == rest;
  }

  lemma AddressesOfPublished(p: Publisher)
    requires Announceable(p)
    ensures var told := AddressesTold(p.hostname, p.addresses);
      (forall i :: 0 <= i < |told| ==> ValidTold(told[i])) && ToldWires(told) == Wires(p).3
  {
    AddressesAreTold(p.hostname, p.addresses);
  }

  lemma WiresAreTold(p: Publisher)
    requires Announceable(p) && forall i :: 0 <= i < |Published(p)| ==> ValidTold(Published(p)[i])
    ensures var (ptr, srv, txt, addresses) := Wires(p);
      ToldWire(Published(p)[0]) == ptr && ToldWire(Published(p)[1]) == srv && ToldWire(Published(p)[2]) == txt
  {
    hide RecordWire, ToldWire, AddressWires, ItemsWire, TxtPayload, LabelsWire;
    var told := Published(p);
    assert ValidTold(told[0]) && ValidTold(told[1]) && ValidTold(told[2]);
    ToldIsRecord(told[0], false);
    ToldIsRecord(told[1], true);
    ToldIsRecord(told[2], true);
    FittingIsValid(p.txt);
    assert ItemsWire(Fitting(p.txt)) + [] == ItemsWire(Fitting(p.txt));
  }

  // ---------------------------------------------------------------------------
  // What cannot be published
  // ---------------------------------------------------------------------------

  ghost predicate Short(labels: seq<bytes>) {
    forall i :: 0 <= i < |labels| ==> |labels[i]| <= 63
  }

  function TextLength(values: seq<(bytes, bytes)>): nat {
    if values == [] then 0
    else
      var item := |values[0].0| + 1 + |values[0].1|;
      (if item <= 255 then 1 + item else 0) + TextLength(values[1..])
  }

  lemma {:induction false} TextPayloadLength(values: seq<(bytes, bytes)>)
    ensures |TxtPayload(values)| == TextLength(values)
  {
    if values != [] { TextPayloadLength(values[1..]); }
  }

  /** One record can be written exactly when its labels are short and its payload fits its length field. */
  lemma RecordBuilds(labels: seq<bytes>, rtype: nat, payload: bytes, cacheFlush: bool)
    requires Apart(labels)
    ensures ResourceRecord(Dotted(labels), rtype, payload, cacheFlush).Some? <==> Short(labels) && |payload| <= 65535
  {
    hide Encoded;
    EncodesExactly(labels);
  }

  lemma NameBuilds(labels: seq<bytes>)
    requires Apart(labels)
    ensures Encoded(Dotted(labels)).Some? <==> Short(labels)
    ensures Encoded(Dotted(labels)).Some? ==> |Encoded(Dotted(labels)).value| == LengthOf(labels)
  {
    hide Encoded;
    EncodesExactly(labels);
  }

  lemma {:induction false} AddressesBuild(hostname: seq<bytes>, addresses: seq<bytes>)
    requires Apart(hostname) && Short(hostname) && forall i :: 0 <= i < |addresses| ==> |addresses[i]| <= 65535
    ensures AddressRecords(Dotted(hostname), addresses).Some?
  {
    hide ResourceRecord, Dotted;
    if addresses != [] {
      RecordBuilds(hostname, 1, addresses[0], true);
      AddressesBuild(hostname, addresses[1..]);
    }
  }

  /** A packet can be published exactly when every label, payload and count fits its field. */
  lemma {:induction false} PublishedExactly(p: Publisher)
    requires Apart(p.service) && Apart(p.instance) && Apart(p.hostname)
    requires forall i :: 0 <= i < |p.addresses| ==> |p.addresses[i]| == 4
    ensures Announcement(p).Some?
      <==> Short(p.service) && Short(p.instance) && Short(p.hostname)
           && p.port <= 65535 && |p.addresses| <= 65533
           && LengthOf(p.instance) <= 65535 && LengthOf(p.hostname) <= 65529 && TextLength(p.txt) <= 65535
  {
    hide ResourceRecord, Encoded, Dotted, Header, TxtPayload, Short;
    NameBuilds(p.instance);
    NameBuilds(p.hostname);
    TextPayloadLength(p.txt);
    var instance, hostname := Encoded(Dotted(p.instance)), Encoded(Dotted(p.hostname));
    if instance.Some? && hostname.Some? {
      var service := ToBE(0, 2) + ToBE(0, 2) + ToBE(p.port, 2) + hostname.value;
      RecordBuilds(p.service, 12, instance.value, false);
      RecordBuilds(p.instance, 33, service, true);
      RecordBuilds(p.instance, 16, TxtPayload(p.txt), true);
      AddressesBuild(p.hostname, p.addresses);
    }
  }
}
