/** Frame layout of the WebSocket transport: the encoder `frame` and the header parser of `#data`. */
module WebSocketFrames {
  import opened Options
  import opened Bytes

  const MAX_SAFE_INTEGER: nat := 0x1F_FFFF_FFFF_FFFF
  const TEXT: nat := 1
  const BINARY: nat := 2
  const CLOSE: nat := 8
  const PING: nat := 9
  const PONG: nat := 10

  type MaskKey = k: bytes | |k| == 4 witness [0, 0, 0, 0]
  type Opcode = op: nat | op < 16

  function Masked(payload: bytes, key: MaskKey): (r: bytes)
    ensures |r| == |payload|
  {
    seq(|payload|, i requires 0 <= i < |payload| => Xor(payload[i], key[i % 4]))
  }

  function KeyBytes(mask: Option<MaskKey>): bytes {
    if mask.Some? then mask.value else []
  }

  function Body(payload: bytes, mask: Option<MaskKey>): (r: bytes)
    ensures |r| == |payload|
  {
    if mask.Some? then Masked(payload, mask.value) else payload
  }

  /** The second header byte and the extended length, in the shortest of the three encodings. */
  function LengthField(length: nat, masked: bool): (r: bytes)
    requires length <= MAX_SAFE_INTEGER
    ensures |r| == if length < 126 then 1 else if length <= 0xffff then 3 else 9
  {
    var bit := if masked then 0x80 else 0;
    if length < 126 then [bit + length]
    else if length <= 0xffff then [bit + 126] + ToBE(length, 2)
    else [bit + 127] + ToBE(length, 8)
  }

  /** One frame on the wire (section 5.2 of RFC 6455). The encoder of the transport always sets FIN. */
  function WireFrame(fin: bool, opcode: Opcode, payload: bytes, mask: Option<MaskKey>): bytes
    requires |payload| <= MAX_SAFE_INTEGER
  {
    [(if fin then 0x80 else 0) + opcode] + LengthField(|payload|, mask.Some?) + KeyBytes(mask) + Body(payload, mask)
  }

  /** The encoder as written: it sizes an output buffer and fills it by offset. */
  method Frame(opcode: Opcode, payload: bytes, mask: Option<MaskKey>) returns (output: array<byte>)
    requires |payload| <= MAX_SAFE_INTEGER
    ensures fresh(output)
    ensures output[..] == WireFrame(true, opcode, payload, mask)
  {
    var length := |payload|;
    var headerLength := 2;
    if 126 <= length <= 0xffff { headerLength := headerLength + 2; }
    else if length > 0xffff { headerLength := headerLength + 8; }
    if mask.Some? { headerLength := headerLength + 4; }
    output := new byte[headerLength + length];
    output[0] := 0x80 + opcode;
    var field := LengthField(length, mask.Some?);
    var offset := 1;
    CopyInto(output, offset, field);
    offset := offset + |field|;
    if mask.Some? {
      CopyInto(output, offset, mask.value);
      offset := offset + 4;
    }
    assert output[..offset] == [0x80 + opcode] + field + KeyBytes(mask);
    if mask.None? {
      CopyInto(output, offset, payload);
    } else {
      MaskInto(output, offset, payload, mask.value);
    }
    assert output[..] == output[..offset] + output[offset..];
  }

  method MaskInto(output: array<byte>, offset: nat, payload: bytes, key: MaskKey)
    requires offset + |payload| == output.Length
    modifies output
    ensures output[..offset] == old(output[..offset])
    ensures output[offset..] == Masked(payload, key)
  {
    var i := 0;
    while i < |payload|
      invariant 0 <= i <= |payload|
      invariant forall j :: 0 <= j < offset ==> output[j] == old(output[j])
      invariant forall j :: 0 <= j < i ==> output[offset + j] == Xor(payload[j], key[j % 4])
    {
      output[offset + i] := Xor(payload[i], key[i % 4]);
      i := i + 1;
    }
  }

  method CopyInto(output: array<byte>, offset: nat, data: bytes)
    requires offset + |data| <= output.Length
    modifies output
    ensures output[..offset + |data|] == old(output[..offset]) + data
  {
    forall i | 0 <= i < |data| {
      output[offset + i] := data[i];
    }
  }

  // ---------------------------------------------------------------------------
  // Header parser
  // ---------------------------------------------------------------------------

  datatype ProtocolError =
    | UnsupportedExtensions
    | FrameTooLarge
    | PayloadExceedsLimit
    | InvalidControlFrame
    | UnexpectedContinuation
    | UnsupportedOpcode(opcode: nat)

  datatype Decoded =
    | Incomplete
    | Rejected(error: ProtocolError)
    | Complete(fin: bool, opcode: Opcode, payload: bytes, size: nat)

  function Decode(buffer: bytes, maxPayload: nat): (d: Decoded)
    requires |buffer| >= 2
    ensures d.Complete? ==> 2 <= d.size <= |buffer|
  {
    var first, second := buffer[0], buffer[1];
    var masked := second >= 0x80;
    var short := second % 0x80;
    if (first / 16) % 8 != 0 then Rejected(UnsupportedExtensions)
    else if short == 126 then
      if |buffer| < 4 then Incomplete
      else DecodeBody(buffer, maxPayload, masked, FromBE(buffer[2..4]), 4)
    else if short == 127 then
      if |buffer| < 10 then Incomplete
      else
        var big := FromBE(buffer[2..10]);
        if big > MAX_SAFE_INTEGER then Rejected(FrameTooLarge)
        else DecodeBody(buffer, maxPayload, masked, big, 10)
    else DecodeBody(buffer, maxPayload, masked, short, 2)
  }

  function DecodeBody(buffer: bytes, maxPayload: nat, masked: bool, length: nat, offset: nat): (d: Decoded)
    requires 2 <= offset <= |buffer|
    ensures d.Complete? ==> 2 <= d.size <= |buffer|
  {
    if length > maxPayload then Rejected(PayloadExceedsLimit)
    else if masked && |buffer| < offset + 4 then Incomplete
    else
      var start := if masked then offset + 4 else offset;
      if |buffer| < start + length then Incomplete
      else
        var raw := buffer[start..start + length];
        var payload := if masked then Masked(raw, buffer[offset..offset + 4]) else raw;
        Complete(buffer[0] >= 0x80, buffer[0] % 16, payload, start + length)
  }

  /** Bytes that arrive later never change a verdict that has been reached. */
  lemma DecodeStable(buffer: bytes, more: bytes, maxPayload: nat)
    requires |buffer| >= 2
    requires !Decode(buffer, maxPayload).Incomplete?
    ensures Decode(buffer + more, maxPayload) == Decode(buffer, maxPayload)
  {
    var all := buffer + more;
    forall lo: nat, hi: nat | lo <= hi <= |buffer| ensures all[lo..hi] == buffer[lo..hi] {}
  }

  lemma MaskedTwice(payload: bytes, key: MaskKey)
    ensures Masked(Masked(payload, key), key) == payload
  {
    forall i | 0 <= i < |payload| ensures Masked(Masked(payload, key), key)[i] == payload[i] {
      XorTwice(payload[i], key[i % 4]);
    }
  }

  /** The parser inverts the encoder for every opcode, payload, mask and trailing data; a payload over the
      receiver's limit is refused. */
  lemma DecodeWireFrame(fin: bool, opcode: Opcode, payload: bytes, mask: Option<MaskKey>, rest: bytes, maxPayload: nat)
    requires |payload| <= MAX_SAFE_INTEGER
    ensures var w := WireFrame(fin, opcode, payload, mask);
      |w| >= 2 && Decode(w + rest, maxPayload) ==
        if |payload| > maxPayload then Rejected(PayloadExceedsLimit) else Complete(fin, opcode, payload, |w|)
  {
    var length, masked := |payload|, mask.Some?;
    var field := LengthField(length, masked);
    var head := [(if fin then 0x80 else 0) + opcode] + field;
    var tail := KeyBytes(mask) + Body(payload, mask) + rest;
    assert WireFrame(fin, opcode, payload, mask) + rest == head + tail;
    assert head[1..] == field;
    FirstByte(fin, opcode);
    DecodeHead(head, tail, length, masked, maxPayload);
    DecodeTail(head, payload, mask, rest, maxPayload);
  }

  lemma DecodeHead(head: bytes, tail: bytes, length: nat, masked: bool, maxPayload: nat)
    requires length <= MAX_SAFE_INTEGER
    requires |head| >= 2 && head[1..] == LengthField(length, masked) && (head[0] / 16) % 8 == 0
    ensures Decode(head + tail, maxPayload) == DecodeBody(head + tail, maxPayload, masked, length, |head|)
  {
    var all := head + tail;
    LengthFieldValue(length, masked);
    assert all[1] == head[1..][0];
    if length >= 126 { assert all[2..|head|] == head[1..][1..]; }
  }

  lemma {:induction false} DecodeTail(head: bytes, payload: bytes, mask: Option<MaskKey>, rest: bytes, maxPayload: nat)
    requires |head| >= 2
    ensures var length := |payload|;
      DecodeBody(head + (KeyBytes(mask) + Body(payload, mask) + rest), maxPayload, mask.Some?, length, |head|) ==
        if length > maxPayload then Rejected(PayloadExceedsLimit)
        else Complete(head[0] >= 0x80, head[0] % 16, payload, |head| + |KeyBytes(mask)| + length)
  {
    var key, body := KeyBytes(mask), Body(payload, mask);
    var all := head + (key + body + rest);
    var start := |head| + |key|;
    assert all[|head|..start] == key;
    assert all[start..start + |payload|] == body;
    if mask.Some? { MaskedTwice(payload, mask.value); }
  }

  lemma FirstByte(fin: bool, opcode: Opcode)
    ensures var b := (if fin then 0x80 else 0) + opcode;
      (b / 16) % 8 == 0 && b % 16 == opcode && (b >= 0x80 <==> fin)
  {}

  lemma LengthFieldValue(length: nat, masked: bool)
    requires length <= MAX_SAFE_INTEGER
    ensures var f := LengthField(length, masked);
      && (f[0] >= 0x80 <==> masked)
      && f[0] % 0x80 == (if |f| == 1 then length else if |f| == 3 then 126 else 127)
      && (|f| > 1 ==> FromBE(f[1..]) == length)
  {
    PowersOf256();
    if length >= 126 {
      var width := if length <= 0xffff then 2 else 8;
      BigEndianRoundTrip(length, width);
      assert LengthField(length, masked)[1..] == ToBE(length, width);
    }
  }

  /** The examples of section 5.7 of RFC 6455: "Hello" without a mask, its two fragments, and the headers of
      256 bytes and of 64 KiB. */
  lemma {:induction false} ExamplesOfTheStandard(long: bytes, longer: bytes)
    requires |long| == 256 && |longer| == 65536
    ensures WireFrame(true, 1, [72, 101, 108, 108, 111], None) == [0x81, 0x05, 0x48, 0x65, 0x6c, 0x6c, 0x6f]
    ensures WireFrame(false, 1, [72, 101, 108], None) == [0x01, 0x03, 0x48, 0x65, 0x6c]
    ensures WireFrame(true, 0, [108, 111], None) == [0x80, 0x02, 0x6c, 0x6f]
    ensures WireFrame(true, 2, long, None) == [0x82, 0x7e, 0x01, 0x00] + long
    ensures WireFrame(true, 2, longer, None) == [0x82, 0x7f, 0, 0, 0, 0, 0, 1, 0, 0] + longer
  {
    assert ToBE(256, 2) == [1, 0];
    assert ToBE(65536, 8) == [0, 0, 0, 0, 0, 1, 0, 0] by { TwoZeros(65536); }
    assert LengthField(65536, false) == [0x7f] + ToBE(65536, 8);
  }

  lemma TwoZeros(n: nat)
    requires n == 65536
    ensures ToBE(n, 8) == [0, 0, 0, 0, 0, 1, 0, 0]
  {
    AnotherZero(256, 7);
    AnotherZero(1, 6);
    assert ToBE(1, 6) == [0, 0, 0, 0, 0, 1];
  }

  lemma AnotherZero(n: nat, width: nat)
    ensures ToBE(256 * n, width + 1) == ToBE(n, width) + [0]
  {
    assert 256 * n / 256 == n && 256 * n % 256 == 0;
  }

  /** Masking (section 5.3 of RFC 6455): every bit of octet `i` is the sum without carry of that bit of the payload and
      of octet `i` modulo 4 of the key, which stands just before the payload. */
  lemma {:induction false} MaskingOfTheStandard(fin: bool, opcode: Opcode, payload: bytes, key: MaskKey, i: nat, k: nat)
    requires |payload| <= MAX_SAFE_INTEGER && i < |payload| && k < 8
    ensures var w := WireFrame(fin, opcode, payload, Some(key));
      var start := |w| - |payload|;
      && start >= 6 && w[start - 4..start] == key
      && Digit(w[start + i], k) == (Digit(payload[i], k) + Digit(key[i % 4], k)) % 2
  {
    hide Xor, Digit, WireFrame, Masked;
    var head := MaskedParts(fin, opcode, payload, key);
    Parts(head, key, Masked(payload, key));
    MaskedAt(payload, key, i);
    ByteDigit(payload[i], key[i % 4], k);
  }

  lemma MaskedParts(fin: bool, opcode: Opcode, payload: bytes, key: MaskKey) returns (head: bytes)
    requires |payload| <= MAX_SAFE_INTEGER
    ensures |head| >= 2 && |Masked(payload, key)| == |payload|
    ensures WireFrame(fin, opcode, payload, Some(key)) == head + key + Masked(payload, key)
  {
    hide LengthField, Masked;
    head := [(if fin then 0x80 else 0) + opcode] + LengthField(|payload|, true);
  }

  lemma MaskedAt(payload: bytes, key: MaskKey, i: nat)
    requires i < |payload|
    ensures Masked(payload, key)[i] == Xor(payload[i], key[i % 4])
  {
    hide Xor;
  }

  lemma Parts(head: bytes, key: bytes, body: bytes)
    requires |head| >= 2 && |key| == 4
    ensures var w, start := head + key + body, |head| + 4;
      start == |w| - |body| && w[start - 4..start] == key && forall i :: 0 <= i < |body| ==> w[start + i] == body[i]
  {}
}
