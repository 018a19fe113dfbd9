/** The receiving side of one WebSocket connection: an incremental parser over a growing buffer. */
module WebSocketPeer {
  import opened Options
  import opened Bytes
  import opened WebSocketFrames

  const OPEN: nat := 1
  const CLOSING: nat := 2
  const CLOSED: nat := 3

  /** What the peer does to the outside, in order: emitted events and socket operations. */
  datatype Event =
    | Message(payload: bytes)
    | PongReceived(payload: bytes)
    | Failed(error: ProtocolError)
    | Written(frame: bytes)
    | SocketEnded

  /** Fixed for the life of a peer. The random mask keys are an arbitrary supply, drawn in order. */
  datatype Config = Config(maskOutgoing: bool, maxPayload: nat, keys: nat -> MaskKey)

  datatype State = State(
    buffer: bytes,
    fragments: seq<bytes>,
    fragmentOpcode: Option<Opcode>,
    readyState: nat,
    drawn: nat,
    events: seq<Event>)

  const Fresh := State([], [], None, OPEN, 0, [])

  function Emit(s: State, e: Event): State {
    s.(events := s.events + [e])
  }

  /** Writes one frame, drawing a key when outgoing frames are masked. A Node buffer is never longer than
      the largest safe integer, so the length guard never fires there. */
  function Write(cfg: Config, s: State, opcode: Opcode, payload: bytes): State {
    if |payload| > MAX_SAFE_INTEGER then s
    else if cfg.maskOutgoing then
      Emit(s, Written(WireFrame(true, opcode, payload, Some(cfg.keys(s.drawn))))).(drawn := s.drawn + 1)
    else Emit(s, Written(WireFrame(true, opcode, payload, None)))
  }

  function ClosePayload(code: nat, reason: bytes): bytes {
    ToBE(code, 2) + if |reason| > 123 then reason[..123] else reason
  }

  /** A close code is written as 16 bits; for any other the peer is closing already when that throws. */
  function Close(cfg: Config, s: State, code: int, reason: bytes): State {
    if s.readyState >= CLOSING then s
    else if !(0 <= code <= 0xffff) then s.(readyState := CLOSING)
    else Write(cfg, s.(readyState := CLOSING), CLOSE, ClosePayload(code, reason))
  }

  const PROTOCOL_ERROR_REASON: bytes := [80, 114, 111, 116, 111, 99, 111, 108, 32, 101, 114, 114, 111, 114]

  function ProtocolFailure(cfg: Config, s: State, error: ProtocolError): State {
    Close(cfg, Emit(s, Failed(error)), 1002, PROTOCOL_ERROR_REASON)
  }

  // ---------------------------------------------------------------------------
  // One turn of the parsing loop
  // ---------------------------------------------------------------------------

  datatype Turn = Wait | Continue(next: State) | Abort(next: State)

  /** Acts on one complete frame whose bytes have left the buffer. */
  function Handle(cfg: Config, s: State, fin: bool, opcode: Opcode, payload: bytes): (t: Turn)
    ensures !t.Wait? && t.next.buffer == s.buffer
  {
    if opcode >= 8 && (!fin || |payload| > 125) then Abort(ProtocolFailure(cfg, s, InvalidControlFrame))
    else if opcode == CLOSE then
      var echoed := if s.readyState == OPEN then Write(cfg, s, CLOSE, payload) else s;
      Continue(Emit(echoed.(readyState := CLOSING), SocketEnded))
    else if opcode == PING then Continue(Write(cfg, s, PONG, payload))
    else if opcode == PONG then Continue(Emit(s, PongReceived(payload)))
    else if opcode == 0 then
      if s.fragmentOpcode.None? then Abort(ProtocolFailure(cfg, s, UnexpectedContinuation))
      else if !fin then Continue(s.(fragments := s.fragments + [payload]))
      else
        var cleared := s.(fragments := [], fragmentOpcode := None);
        Continue(if s.fragmentOpcode.value == TEXT
                 then Emit(cleared, Message(Flatten(s.fragments + [payload]))) else cleared)
    else if opcode != TEXT && opcode != BINARY then Abort(ProtocolFailure(cfg, s, UnsupportedOpcode(opcode)))
    else if !fin then Continue(s.(fragmentOpcode := Some(opcode), fragments := [payload]))
    else Continue(Emit(s, Message(payload)))
  }

  function Step(cfg: Config, s: State): (t: Turn)
    ensures t.Continue? ==> |t.next.buffer| < |s.buffer|
    ensures t.Abort? ==> |t.next.events| > |s.events|
  {
    if |s.buffer| < 2 then Wait
    else match Decode(s.buffer, cfg.maxPayload)
      case Incomplete => Wait
      case Rejected(error) => Abort(ProtocolFailure(cfg, s, error))
      case Complete(fin, opcode, payload, size) =>
        Handle(cfg, s.(buffer := s.buffer[size..]), fin, opcode, payload)
  }

  /** Runs the loop until it waits for data (false) or hits a protocol error (true). */
  function Run(cfg: Config, s: State): (State, bool)
    decreases |s.buffer|
  {
    match Step(cfg, s)
    case Wait => (s, false)
    case Continue(next) => Run(cfg, next)
    case Abort(next) => (next, true)
  }

  function Extend(s: State, chunk: bytes): State {
    s.(buffer := s.buffer + chunk)
  }

  function Data(cfg: Config, s: State, chunk: bytes): (State, bool) {
    Run(cfg, Extend(s, chunk))
  }

  ghost predicate Quiet(cfg: Config, s: State) {
    Step(cfg, s).Wait?
  }

  // ---------------------------------------------------------------------------
  // Chunk independence
  // ---------------------------------------------------------------------------

  function Later(t: Turn, more: bytes): Turn {
    match t
    case Wait => Wait
    case Continue(next) => Continue(Extend(next, more))
    case Abort(next) => Abort(Extend(next, more))
  }

  lemma HandleExtend(cfg: Config, s: State, fin: bool, opcode: Opcode, payload: bytes, more: bytes)
    ensures Handle(cfg, Extend(s, more), fin, opcode, payload) == Later(Handle(cfg, s, fin, opcode, payload), more)
  {}

  lemma FailureExtend(cfg: Config, s: State, error: ProtocolError, more: bytes)
    ensures ProtocolFailure(cfg, Extend(s, more), error) == Extend(ProtocolFailure(cfg, s, error), more)
  {}

  lemma {:induction false} StepExtend(cfg: Config, s: State, more: bytes)
    requires !Step(cfg, s).Wait?
    ensures Step(cfg, Extend(s, more)) == Later(Step(cfg, s), more)
  {
    hide Handle, ProtocolFailure, Decode;
    DecodeStable(s.buffer, more, cfg.maxPayload);
    match Decode(s.buffer, cfg.maxPayload)
    case Rejected(error) => FailureExtend(cfg, s, error, more);
    case Complete(fin, opcode, payload, size) =>
      var read := s.(buffer := s.buffer[size..]);
      assert (s.buffer + more)[size..] == s.buffer[size..] + more;
      HandleExtend(cfg, read, fin, opcode, payload, more);
      assert s.(buffer := (s.buffer + more)[size..]) == Extend(read, more);
  }

  lemma {:induction false} RunExtend(cfg: Config, s: State, more: bytes)
    ensures var (q, failed) := Run(cfg, s);
      Run(cfg, Extend(s, more)) == if failed then (Extend(q, more), true) else Run(cfg, Extend(q, more))
    ensures !Run(cfg, s).1 ==> Quiet(cfg, Run(cfg, s).0)
    decreases |s.buffer|
  {
    var t := Step(cfg, s);
    if !t.Wait? {
      StepExtend(cfg, s, more);
      if t.Continue? { RunExtend(cfg, t.next, more); }
    }
  }

  /** Delivers chunks one by one and stops at the first protocol error. */
  function Feed(cfg: Config, s: State, chunks: seq<bytes>): (State, bool)
    decreases |chunks|
  {
    if chunks == [] then (s, false)
    else
      var (q, failed) := Data(cfg, s, chunks[0]);
      if failed then (q, true) else Feed(cfg, q, chunks[1..])
  }

  /** However a stream is cut, everything the peer does up to and including its first protocol error is what
      it does when the stream arrives whole. Only the unread remainder differs, and only after an error. */
  lemma {:induction false} ChunkIndependence(cfg: Config, s: State, chunks: seq<bytes>)
    requires Quiet(cfg, s)
    ensures var (q, failed) := Feed(cfg, s, chunks);
      var (w, wholeFailed) := Data(cfg, s, Flatten(chunks));
      && failed == wholeFailed
      && (!failed ==> w == q && Quiet(cfg, q))
      && (failed ==> w == q.(buffer := w.buffer) && q.buffer <= w.buffer)
    decreases |chunks|
  {
    hide Step;
    if chunks == [] {
      assert Extend(s, []) == s;
    } else {
      var rest := Flatten(chunks[1..]);
      var (q, failed) := Data(cfg, s, chunks[0]);
      RunExtend(cfg, Extend(s, chunks[0]), rest);
      assert Extend(Extend(s, chunks[0]), rest) == Extend(s, Flatten(chunks));
      if !failed { ChunkIndependence(cfg, q, chunks[1..]); }
    }
  }

  /** Two cuts of one stream cannot be told apart from the peer's behaviour. */
  lemma {:induction false} AnyTwoCutsAgree(cfg: Config, s: State, one: seq<bytes>, other: seq<bytes>)
    requires Quiet(cfg, s) && Flatten(one) == Flatten(other)
    ensures Feed(cfg, s, one).1 == Feed(cfg, s, other).1
    ensures Feed(cfg, s, one).0.events == Feed(cfg, s, other).0.events
    ensures Feed(cfg, s, one).0.readyState == Feed(cfg, s, other).0.readyState
    ensures !Feed(cfg, s, one).1 ==> Feed(cfg, s, one) == Feed(cfg, s, other)
  {
    ChunkIndependence(cfg, s, one);
    ChunkIndependence(cfg, s, other);
  }

  /** Past a protocol error the cut does matter: delivering `a` and then `b` anyway ends where `a + b` ends
      exactly when `a` raised no error or what is then buffered is not yet a frame. */
  lemma {:induction false} CutAfterErrorMatters(cfg: Config, s: State, a: bytes, b: bytes)
    ensures var (q, failed) := Data(cfg, s, a);
      Data(cfg, q, b).0 == Data(cfg, s, a + b).0 <==> !failed || Quiet(cfg, Extend(q, b))
  {
    hide Step, Run, Quiet;
    var (q, failed) := Data(cfg, s, a);
    RunExtend(cfg, Extend(s, a), b);
    assert Extend(Extend(s, a), b) == Extend(s, a + b);
    if failed {
      if Quiet(cfg, Extend(q, b)) { RunRests(cfg, Extend(q, b)); } else { RunMoves(cfg, Extend(q, b)); }
    }
  }

  lemma RunRests(cfg: Config, s: State)
    requires Quiet(cfg, s)
    ensures Run(cfg, s) == (s, false)
  {
    hide Step;
  }

  lemma {:induction false} RunMoves(cfg: Config, s: State)
    requires !Quiet(cfg, s)
    ensures var w := Run(cfg, s).0; |w.buffer| < |s.buffer| || |w.events| > |s.events|
    decreases |s.buffer|
  {
    var t := Step(cfg, s);
    if t.Continue? { RunNeverRewinds(cfg, t.next); }
  }

  lemma {:induction false} RunNeverRewinds(cfg: Config, s: State)
    ensures |Run(cfg, s).0.buffer| <= |s.buffer|
    decreases |s.buffer|
  {
    var t := Step(cfg, s);
    if t.Continue? { RunNeverRewinds(cfg, t.next); }
    if t.Abort? { AbortKeepsBuffer(cfg, s); }
  }

  lemma AbortKeepsBuffer(cfg: Config, s: State)
    requires Step(cfg, s).Abort?
    ensures |Step(cfg, s).next.buffer| <= |s.buffer|
  {}

  /** A continuation frame out of the blue followed by a ping: whole, the ping goes unanswered; cut between
      the two frames, the second chunk is parsed and answered. */
  lemma {:induction false} ErrorThenPing(cfg: Config)
    requires !cfg.maskOutgoing && cfg.maxPayload >= 125
    ensures var stray := WireFrame(true, 0, [], None);
      var ping := WireFrame(true, PING, [], None);
      var q := Data(cfg, Fresh, stray).0;
      Data(cfg, q, ping).0 != Data(cfg, Fresh, stray + ping).0
  {
    var stray, ping := WireFrame(true, 0, [], None), WireFrame(true, PING, [], None);
    DecodeWireFrame(true, 0, [], None, [], cfg.maxPayload);
    DecodeWireFrame(true, PING, [], None, [], cfg.maxPayload);
    assert stray + [] == stray && ping + [] == ping;
    var q := Data(cfg, Fresh, stray).0;
    assert Extend(Fresh, stray).buffer == stray;
    assert Step(cfg, Extend(Fresh, stray)).Abort?;
    assert q.buffer == [];
    assert Extend(q, ping).buffer == ping;
    CutAfterErrorMatters(cfg, Fresh, stray, ping);
  }

  // ---------------------------------------------------------------------------
  // End-to-end round trip
  // ---------------------------------------------------------------------------

  datatype Sent = Sent(payload: bytes, mask: Option<MaskKey>)

  ghost predicate Sendable(frames: seq<Sent>) {
    forall i :: 0 <= i < |frames| ==> |frames[i].payload| <= MAX_SAFE_INTEGER
  }

  /** What a sequence of `send` calls puts on the wire. */
  function Stream(frames: seq<Sent>): bytes
    requires Sendable(frames)
  {
    if frames == [] then [] else WireFrame(true, TEXT, frames[0].payload, frames[0].mask) + Stream(frames[1..])
  }

  function Messages(frames: seq<Sent>): (r: seq<Event>)
    ensures |r| == |frames| && forall i :: 0 <= i < |r| ==> r[i] == Message(frames[i].payload)
  {
    seq(|frames|, i requires 0 <= i < |frames| => Message(frames[i].payload))
  }

  lemma {:induction false} StepFrame(cfg: Config, s: State, fin: bool, opcode: Opcode, payload: bytes,
                                     mask: Option<MaskKey>, rest: bytes)
    requires |payload| <= MAX_SAFE_INTEGER
    requires s.buffer == WireFrame(fin, opcode, payload, mask) + rest
    ensures Step(cfg, s) ==
      if |payload| > cfg.maxPayload then Abort(ProtocolFailure(cfg, s, PayloadExceedsLimit))
      else Handle(cfg, s.(buffer := rest), fin, opcode, payload)
  {
    DecodeWireFrame(fin, opcode, payload, mask, rest, cfg.maxPayload);
    assert s.buffer[|WireFrame(fin, opcode, payload, mask)|..] == rest;
  }

  /** The number of leading payloads the receiver's limit lets through. */
  function Admitted(frames: seq<Sent>, maxPayload: nat): (k: nat)
    ensures k <= |frames| && forall i :: 0 <= i < k ==> |frames[i].payload| <= maxPayload
    ensures k < |frames| ==> |frames[k].payload| > maxPayload
  {
    if frames == [] || |frames[0].payload| > maxPayload then 0 else 1 + Admitted(frames[1..], maxPayload)
  }

  lemma {:induction false} StreamAppend(a: seq<Sent>, b: seq<Sent>)
    requires Sendable(a) && Sendable(b)
    ensures Stream(a + b) == Stream(a) + Stream(b)
  {
    if a == [] {
      assert a + b == b;
    } else {
      assert (a + b)[1..] == a[1..] + b;
      StreamAppend(a[1..], b);
    }
  }

  lemma {:induction false} StepText(cfg: Config, s: State, frame: Sent, more: bytes)
    requires |frame.payload| <= MAX_SAFE_INTEGER
    requires s.buffer == WireFrame(true, TEXT, frame.payload, frame.mask) + more
    ensures Step(cfg, s) ==
      if |frame.payload| <= cfg.maxPayload then Continue(Emit(s.(buffer := more), Message(frame.payload)))
      else Abort(ProtocolFailure(cfg, s, PayloadExceedsLimit))
  {
    StepFrame(cfg, s, true, TEXT, frame.payload, frame.mask, more);
  }

  lemma RunContinues(cfg: Config, s: State, next: State)
    requires Step(cfg, s) == Continue(next)
    ensures Run(cfg, s) == Run(cfg, next)
  {
    hide Step;
  }

  lemma Emitted(s: State, e: Event)
    ensures Emit(s, e) == s.(events := s.events + [e])
  {}

  lemma {:induction false} RunStream(cfg: Config, s: State, frames: seq<Sent>, rest: bytes)
    requires Sendable(frames) && Admitted(frames, cfg.maxPayload) == |frames|
    requires s.buffer == Stream(frames) + rest
    ensures Run(cfg, s) == Run(cfg, s.(buffer := rest, events := s.events + Messages(frames)))
    decreases |frames|
  {
    hide Step, WireFrame, Run, Emit;
    if frames == [] {
      assert s == s.(buffer := rest, events := s.events + Messages(frames));
    } else {
      var more := Stream(frames[1..]) + rest;
      assert s.buffer == WireFrame(true, TEXT, frames[0].payload, frames[0].mask) + more;
      StepText(cfg, s, frames[0], more);
      var next := Emit(s.(buffer := more), Message(frames[0].payload));
      RunContinues(cfg, s, next);
      Emitted(s.(buffer := more), Message(frames[0].payload));
      RunStream(cfg, next, frames[1..], rest);
      assert next.events + Messages(frames[1..]) == s.events + Messages(frames);
    }
  }

  /** What receiving `frames` must come to: everything before the first payload over the limit is delivered. */
  ghost predicate Received(cfg: Config, s: State, frames: seq<Sent>, result: (State, bool)) {
    var k := Admitted(frames, cfg.maxPayload);
    var delivered := s.(buffer := [], events := s.events + Messages(frames[..k]));
    if k == |frames| then result == (delivered, false)
    else result.1 && result.0.events == ProtocolFailure(cfg, delivered, PayloadExceedsLimit).events
  }

  lemma {:induction false} RunWholeStream(cfg: Config, s: State, frames: seq<Sent>)
    requires Sendable(frames) && s.buffer == Stream(frames)
    ensures Received(cfg, s, frames, Run(cfg, s))
  {
    hide Step, Run, WireFrame, ProtocolFailure, Stream;
    var k := Admitted(frames, cfg.maxPayload);
    assert frames == frames[..k] + frames[k..];
    StreamAppend(frames[..k], frames[k..]);
    RunThenStop(cfg, s, frames[..k], frames[k..]);
  }

  lemma {:induction false} RunThenStop(cfg: Config, s: State, good: seq<Sent>, bad: seq<Sent>)
    requires Sendable(good) && Sendable(bad) && s.buffer == Stream(good) + Stream(bad)
    requires forall i :: 0 <= i < |good| ==> |good[i].payload| <= cfg.maxPayload
    requires bad != [] ==> |bad[0].payload| > cfg.maxPayload
    ensures var delivered := s.(buffer := [], events := s.events + Messages(good));
      if bad == [] then Run(cfg, s) == (delivered, false)
      else Run(cfg, s).1 && Run(cfg, s).0.events == ProtocolFailure(cfg, delivered, PayloadExceedsLimit).events
  {
    hide Step, Run, WireFrame, ProtocolFailure;
    AllAdmitted(good, cfg.maxPayload);
    RunStream(cfg, s, good, Stream(bad));
    var rest := s.(buffer := Stream(bad), events := s.events + Messages(good));
    if bad == [] {
      RunEmpty(cfg, rest);
    } else {
      RunOverLimit(cfg, rest, bad[0], Stream(bad[1..]));
      FailureIgnoresBuffer(cfg, rest, []);
    }
  }

  lemma {:induction false} RunOverLimit(cfg: Config, s: State, frame: Sent, more: bytes)
    requires cfg.maxPayload < |frame.payload| <= MAX_SAFE_INTEGER
    requires s.buffer == WireFrame(true, TEXT, frame.payload, frame.mask) + more
    ensures Run(cfg, s) == (ProtocolFailure(cfg, s, PayloadExceedsLimit), true)
  {
    hide Step;
    StepText(cfg, s, frame, more);
  }

  lemma FailureIgnoresBuffer(cfg: Config, s: State, other: bytes)
    ensures ProtocolFailure(cfg, s.(buffer := other), PayloadExceedsLimit).events
         == ProtocolFailure(cfg, s, PayloadExceedsLimit).events
  {}

  lemma RunEmpty(cfg: Config, s: State)
    requires s.buffer == []
    ensures Run(cfg, s) == (s, false) && Quiet(cfg, s)
  {}

  /** Payloads within the limit, framed with any masks and cut anywhere, come out as sent, in order, with
      nothing left over; the first payload over the limit is where the receiver stops, having delivered
      everything before it. */
  lemma {:induction false} RoundTrip(cfg: Config, s: State, frames: seq<Sent>, chunks: seq<bytes>)
    requires s.buffer == [] && Sendable(frames) && Flatten(chunks) == Stream(frames)
    ensures Received(cfg, s, frames, Feed(cfg, s, chunks))
    ensures Feed(cfg, s, chunks).1 <==> exists i :: 0 <= i < |frames| && |frames[i].payload| > cfg.maxPayload
    ensures !Feed(cfg, s, chunks).1 ==> Feed(cfg, s, chunks).0 == s.(events := s.events + Messages(frames))
  {
    hide Step, Run, Stream, ProtocolFailure, Feed;
    RunEmpty(cfg, s);
    ChunkIndependence(cfg, s, chunks);
    var whole := Extend(s, Stream(frames));
    assert whole.buffer == Stream(frames);
    RunWholeStream(cfg, whole, frames);
    var k := Admitted(frames, cfg.maxPayload);
    if k == |frames| {
      assert frames[..k] == frames;
    } else {
      assert |frames[k].payload| > cfg.maxPayload;
    }
  }

  lemma AllAdmitted(frames: seq<Sent>, maxPayload: nat)
    requires forall i :: 0 <= i < |frames| ==> |frames[i].payload| <= maxPayload
    ensures Admitted(frames, maxPayload) == |frames|
  {}

  // ---------------------------------------------------------------------------
  // Fragment reassembly
  // ---------------------------------------------------------------------------

  /** What may stand between the first and the last fragment of a message. */
  datatype Piece =
    | Part(payload: bytes, mask: Option<MaskKey>)
    | PingPiece(payload: bytes, mask: Option<MaskKey>)
    | PongPiece(payload: bytes, mask: Option<MaskKey>)

  ghost predicate Acceptable(cfg: Config, payload: bytes) {
    |payload| <= MAX_SAFE_INTEGER && |payload| <= cfg.maxPayload
  }

  ghost predicate ValidPieces(cfg: Config, pieces: seq<Piece>) {
    forall i :: 0 <= i < |pieces| ==>
      Acceptable(cfg, pieces[i].payload) && (!pieces[i].Part? ==> |pieces[i].payload| <= 125)
  }

  function PieceFrame(p: Piece): bytes
    requires |p.payload| <= MAX_SAFE_INTEGER
  {
    match p
    case Part(payload, mask) => WireFrame(false, 0, payload, mask)
    case PingPiece(payload, mask) => WireFrame(true, PING, payload, mask)
    case PongPiece(payload, mask) => WireFrame(true, PONG, payload, mask)
  }

  function PieceStream(pieces: seq<Piece>): bytes
    requires forall i :: 0 <= i < |pieces| ==> |pieces[i].payload| <= MAX_SAFE_INTEGER
  {
    if pieces == [] then [] else PieceFrame(pieces[0]) + PieceStream(pieces[1..])
  }

  function PartOf(p: Piece): seq<bytes> {
    if p.Part? then [p.payload] else []
  }

  function Parts(pieces: seq<Piece>): seq<bytes> {
    if pieces == [] then [] else PartOf(pieces[0]) + Parts(pieces[1..])
  }

  function Draws(cfg: Config, p: Piece): nat {
    if p.PingPiece? && cfg.maskOutgoing then 1 else 0
  }

  function Reply(cfg: Config, drawn: nat, p: Piece): seq<Event>
    requires |p.payload| <= MAX_SAFE_INTEGER
  {
    match p
    case Part(_, _) => []
    case PongPiece(payload, _) => [PongReceived(payload)]
    case PingPiece(payload, _) =>
      [Written(WireFrame(true, PONG, payload, if cfg.maskOutgoing then Some(cfg.keys(drawn)) else None))]
  }

  /** One answer for every ping, one report for every pong, in the order they came. */
  function Replies(cfg: Config, drawn: nat, pieces: seq<Piece>): seq<Event>
    requires forall i :: 0 <= i < |pieces| ==> |pieces[i].payload| <= MAX_SAFE_INTEGER
    decreases |pieces|
  {
    if pieces == [] then []
    else Reply(cfg, drawn, pieces[0]) + Replies(cfg, drawn + Draws(cfg, pieces[0]), pieces[1..])
  }

  lemma FlattenAppend(a: seq<bytes>, b: seq<bytes>)
    ensures Flatten(a + b) == Flatten(a) + Flatten(b)
  {
    if a == [] {
      assert a + b == b;
    } else {
      assert (a + b)[1..] == a[1..] + b;
      FlattenAppend(a[1..], b);
    }
  }

  function AfterPiece(cfg: Config, s: State, p: Piece, more: bytes): State
    requires |p.payload| <= MAX_SAFE_INTEGER
  {
    State(more, s.fragments + PartOf(p), s.fragmentOpcode, s.readyState,
          s.drawn + Draws(cfg, p), s.events + Reply(cfg, s.drawn, p))
  }

  lemma {:induction false} StepPiece(cfg: Config, s: State, p: Piece, more: bytes)
    requires Acceptable(cfg, p.payload) && (!p.Part? ==> |p.payload| <= 125)
    requires s.fragmentOpcode.Some? && s.buffer == PieceFrame(p) + more
    ensures Step(cfg, s) == Continue(AfterPiece(cfg, s, p, more))
  {
    match p
    case Part(payload, mask) =>
      StepFrame(cfg, s, false, 0, payload, mask, more);
      assert s.events + [] == s.events;
    case PingPiece(payload, mask) =>
      StepFrame(cfg, s, true, PING, payload, mask, more);
      assert s.fragments + [] == s.fragments;
    case PongPiece(payload, mask) =>
      StepFrame(cfg, s, true, PONG, payload, mask, more);
      assert s.fragments + [] == s.fragments;
  }

  /** What reading `pieces` and the last fragment in the middle of a message must come to. */
  ghost predicate Assembled(cfg: Config, s: State, pieces: seq<Piece>, last: bytes, result: (State, bool))
    requires s.fragmentOpcode.Some? && ValidPieces(cfg, pieces)
  {
    var q := result.0;
    && !result.1 && q.buffer == [] && q.fragments == [] && q.fragmentOpcode == None
    && q.readyState == s.readyState
    && q.events == s.events + Replies(cfg, s.drawn, pieces)
                   + if s.fragmentOpcode.value == TEXT then [Message(Flatten(s.fragments + Parts(pieces) + [last]))]
                     else []
  }

  lemma {:induction false} AssembledStep(cfg: Config, s: State, pieces: seq<Piece>, more: bytes, last: bytes,
                                         result: (State, bool))
    requires s.fragmentOpcode.Some? && ValidPieces(cfg, pieces) && pieces != []
    requires Assembled(cfg, AfterPiece(cfg, s, pieces[0], more), pieces[1..], last, result)
    ensures Assembled(cfg, s, pieces, last, result)
  {
    hide Reply, Draws, Flatten, PartOf;
    var p, tail := pieces[0], pieces[1..];
    Associative(s.fragments, PartOf(p), Parts(tail));
    Associative(s.events, Reply(cfg, s.drawn, p), Replies(cfg, s.drawn + Draws(cfg, p), tail));
  }

  lemma Associative<T>(a: seq<T>, b: seq<T>, c: seq<T>)
    ensures (a + b) + c == a + (b + c)
  {}

  lemma {:induction false} RunLast(cfg: Config, s: State, last: Sent)
    requires s.fragmentOpcode.Some? && Acceptable(cfg, last.payload)
    requires s.buffer == WireFrame(true, 0, last.payload, last.mask)
    ensures Assembled(cfg, s, [], last.payload, Run(cfg, s))
  {
    assert s.buffer == WireFrame(true, 0, last.payload, last.mask) + [];
    StepFrame(cfg, s, true, 0, last.payload, last.mask, []);
    RunEmpty(cfg, Step(cfg, s).next);
    assert s.fragments + [] == s.fragments && s.events + [] == s.events;
  }

  lemma {:induction false} RunPieces(cfg: Config, s: State, pieces: seq<Piece>, last: Sent)
    requires s.fragmentOpcode.Some? && ValidPieces(cfg, pieces) && Acceptable(cfg, last.payload)
    requires s.buffer == PieceStream(pieces) + WireFrame(true, 0, last.payload, last.mask)
    ensures Assembled(cfg, s, pieces, last.payload, Run(cfg, s))
    decreases |pieces|
  {
    hide Step, Assembled, WireFrame, PieceFrame, Reply, Draws;
    var closing := WireFrame(true, 0, last.payload, last.mask);
    if pieces == [] {
      assert s.buffer == closing;
      RunLast(cfg, s, last);
    } else {
      var more := PieceStream(pieces[1..]) + closing;
      assert s.buffer == PieceFrame(pieces[0]) + more;
      StepPiece(cfg, s, pieces[0], more);
      var next := AfterPiece(cfg, s, pieces[0], more);
      RunPieces(cfg, next, pieces[1..], last);
      AssembledStep(cfg, s, pieces, more, last.payload, Run(cfg, next));
    }
  }

  /** A message cut into fragments, with pings and pongs between them and the stream cut into any chunks:
      a text message is emitted once, as the concatenation (sections 5.4 and 5.5 of RFC 6455); a binary one
      is dropped. Every ping is answered by a pong with its payload, in order. */
  lemma {:induction false} Reassembly(cfg: Config, s: State, opcode: Opcode, first: Sent, pieces: seq<Piece>,
                                      last: Sent, chunks: seq<bytes>)
    requires opcode == TEXT || opcode == BINARY
    requires s.buffer == []
    requires Acceptable(cfg, first.payload) && Acceptable(cfg, last.payload) && ValidPieces(cfg, pieces)
    requires Flatten(chunks) == WireFrame(false, opcode, first.payload, first.mask)
                                + (PieceStream(pieces) + WireFrame(true, 0, last.payload, last.mask))
    ensures var (q, failed) := Feed(cfg, s, chunks);
      var message := first.payload + Flatten(Parts(pieces)) + last.payload;
      && !failed && q.buffer == [] && q.fragments == [] && q.fragmentOpcode == None
      && q.readyState == s.readyState
      && q.events == s.events + Replies(cfg, s.drawn, pieces) + if opcode == TEXT then [Message(message)] else []
  {
    ChunkIndependence(cfg, s, chunks);
    hide Step, Run, Feed, WireFrame, PieceStream, Parts, Replies, Flatten;
    var rest := PieceStream(pieces) + WireFrame(true, 0, last.payload, last.mask);
    var whole := Extend(s, Flatten(chunks));
    var started := whole.(buffer := rest, fragmentOpcode := Some(opcode), fragments := [first.payload]);
    RunOpening(cfg, whole, opcode, first, rest);
    RunPieces(cfg, started, pieces, last);
    FlattenAppend([first.payload] + Parts(pieces), [last.payload]);
    FlattenAppend([first.payload], Parts(pieces));
    FlattenOne(first.payload);
    FlattenOne(last.payload);
  }

  lemma RunOpening(cfg: Config, s: State, opcode: Opcode, first: Sent, rest: bytes)
    requires opcode == TEXT || opcode == BINARY
    requires Acceptable(cfg, first.payload) && s.buffer == WireFrame(false, opcode, first.payload, first.mask) + rest
    ensures Run(cfg, s) == Run(cfg, s.(buffer := rest, fragmentOpcode := Some(opcode), fragments := [first.payload]))
  {
    StepFrame(cfg, s, false, opcode, first.payload, first.mask, rest);
  }

  lemma FlattenOne(b: bytes)
    ensures Flatten([b]) == b
  {
    assert [b][1..] == [] && b + [] == b;
  }

  // ---------------------------------------------------------------------------
  // One frame of every kind
  // ---------------------------------------------------------------------------

  function OwnMask(cfg: Config, drawn: nat): Option<MaskKey> {
    if cfg.maskOutgoing then Some(cfg.keys(drawn)) else None
  }

  function Drawn(cfg: Config, s: State, frames: nat): nat {
    s.drawn + if cfg.maskOutgoing then frames else 0
  }

  /** An error is reported; a peer that was not closing yet then sends a close frame with code 1002 and the reason
      "Protocol error", and is closing. */
  ghost predicate FailsWith(cfg: Config, s: State, error: ProtocolError, result: (State, bool)) {
    var farewell := [3, 234, 80, 114, 111, 116, 111, 99, 111, 108, 32, 101, 114, 114, 111, 114];
    && result.1
    && result.0.events == s.events + [Failed(error)]
         + (if s.readyState < CLOSING then [Written(WireFrame(true, 8, farewell, OwnMask(cfg, s.drawn)))] else [])
    && result.0.readyState == (if s.readyState < CLOSING then CLOSING else s.readyState)
    && result.0.drawn == Drawn(cfg, s, if s.readyState < CLOSING then 1 else 0)
    && result.0.fragments == s.fragments && result.0.fragmentOpcode == s.fragmentOpcode
  }

  /** Closing: an open or connecting peer writes one frame with the code in network order and at most 123 bytes of the
      reason, and is closing; any other does nothing. */
  lemma {:induction false} CloseSays(cfg: Config, s: State, code: int, reason: bytes)
    ensures var cut := if |reason| <= 123 then reason else reason[..123];
      Close(cfg, s, code, reason) ==
        if s.readyState >= 2 then s
        else if code < 0 || code > 65535 then s.(readyState := 2)
        else s.(readyState := 2, drawn := Drawn(cfg, s, 1),
                events :=
                  s.events + [Written(WireFrame(true, 8, [code / 256, code % 256] + cut, OwnMask(cfg, s.drawn)))])
  {
    if 0 <= code <= 0xffff {
      assert ToBE(code / 256, 1) == [code / 256] by { assert ToBE(code / 256 / 256, 0) == []; }
      assert ToBE(code, 2) == [code / 256, code % 256];
    }
  }

  lemma FailureIs(cfg: Config, s: State, t: State, error: ProtocolError)
    requires t == s.(buffer := t.buffer)
    ensures FailsWith(cfg, s, error, (ProtocolFailure(cfg, t, error), true))
  {
    assert ToBE(1002, 2) == [3, 234];
    assert ClosePayload(1002, PROTOCOL_ERROR_REASON)
      == [3, 234, 80, 114, 111, 116, 111, 99, 111, 108, 32, 101, 114, 114, 111, 114];
    assert s.events + [Failed(error)] + [] == s.events + [Failed(error)];
  }

  /** One frame that came in whole, in any chunks, to a peer with nothing buffered. */
  ghost predicate Arrives(s: State, fin: bool, opcode: Opcode, payload: bytes, mask: Option<MaskKey>,
                          chunks: seq<bytes>)
  {
    |payload| <= MAX_SAFE_INTEGER && s.buffer == [] && Flatten(chunks) == WireFrame(fin, opcode, payload, mask)
  }

  lemma {:induction false} FrameIsHandled(cfg: Config, s: State, fin: bool, opcode: Opcode, payload: bytes,
                                          mask: Option<MaskKey>, chunks: seq<bytes>)
    requires Arrives(s, fin, opcode, payload, mask, chunks)
    ensures var result := Feed(cfg, s, chunks);
      if |payload| > cfg.maxPayload then FailsWith(cfg, s, PayloadExceedsLimit, result)
      else
        match Handle(cfg, s, fin, opcode, payload)
        case Continue(next) => result == (next, false)
        case Abort(next) => result.1 && result.0 == next.(buffer := result.0.buffer)
        case Wait => true
  {
    hide Step, Handle, WireFrame, ProtocolFailure;
    RunEmpty(cfg, s);
    var whole := Extend(s, Flatten(chunks));
    assert whole.buffer == WireFrame(fin, opcode, payload, mask) + [];
    ChunkIndependence(cfg, s, chunks);
    StepFrame(cfg, whole, fin, opcode, payload, mask, []);
    assert whole.(buffer := []) == s;
    if |payload| > cfg.maxPayload {
      FailureIs(cfg, s, whole, PayloadExceedsLimit);
    } else if Handle(cfg, s, fin, opcode, payload).Continue? {
      RunEmpty(cfg, Handle(cfg, s, fin, opcode, payload).next);
    }
  }

  /** A close frame (section 5.5.1 of RFC 6455): an open peer echoes it with its payload, any peer ends the socket
      and is closing. */
  lemma {:induction false} CloseIsAnswered(cfg: Config, s: State, payload: bytes, mask: Option<MaskKey>,
                                           chunks: seq<bytes>)
    requires Arrives(s, true, 8, payload, mask, chunks) && |payload| <= 125 && |payload| <= cfg.maxPayload
    ensures var (q, failed) := Feed(cfg, s, chunks);
      && !failed && q.readyState == CLOSING && q.fragments == s.fragments && q.fragmentOpcode == s.fragmentOpcode
      && (s.readyState == OPEN ==>
          q.events == s.events + [Written(WireFrame(true, 8, payload, OwnMask(cfg, s.drawn))), SocketEnded]
          && q.drawn == Drawn(cfg, s, 1))
      && (s.readyState != OPEN ==> q.events == s.events + [SocketEnded] && q.drawn == s.drawn)
  {
    hide Feed;
    FrameIsHandled(cfg, s, true, 8, payload, mask, chunks);
  }

  /** Pings are answered with their payload and pongs reported, in any state. */
  lemma {:induction false} PingIsAnswered(cfg: Config, s: State, opcode: Opcode, payload: bytes, mask: Option<MaskKey>,
                                          chunks: seq<bytes>)
    requires (opcode == 9 || opcode == 10) && Arrives(s, true, opcode, payload, mask, chunks)
    requires |payload| <= 125 && |payload| <= cfg.maxPayload
    ensures var (q, failed) := Feed(cfg, s, chunks);
      && !failed
      && (opcode == 9 ==> q == s.(events := s.events + [Written(WireFrame(true, 10, payload, OwnMask(cfg, s.drawn)))],
                                  drawn := Drawn(cfg, s, 1)))
      && (opcode == 10 ==> q == s.(events := s.events + [PongReceived(payload)]))
  {
    hide Feed;
    FrameIsHandled(cfg, s, true, opcode, payload, mask, chunks);
  }

  /** A text or binary frame that is not fragmented is emitted at once, whatever message is in parts; a fragmented
      one begins a message anew. */
  lemma {:induction false} DataIsTaken(cfg: Config, s: State, fin: bool, opcode: Opcode, payload: bytes,
                                       mask: Option<MaskKey>, chunks: seq<bytes>)
    requires (opcode == 1 || opcode == 2) && Arrives(s, fin, opcode, payload, mask, chunks)
    requires |payload| <= cfg.maxPayload
    ensures var result := Feed(cfg, s, chunks);
      result == if fin then (s.(events := s.events + [Message(payload)]), false)
                else (s.(fragmentOpcode := Some(opcode), fragments := [payload]), false)
  {
    hide Feed;
    FrameIsHandled(cfg, s, fin, opcode, payload, mask, chunks);
  }

  /** A continuation adds to the message in parts. The last one emits a text message as the concatenation, and drops
      a binary one. */
  lemma {:induction false} ContinuationIsTaken(cfg: Config, s: State, fin: bool, payload: bytes, mask: Option<MaskKey>,
                                               chunks: seq<bytes>)
    requires Arrives(s, fin, 0, payload, mask, chunks) && |payload| <= cfg.maxPayload && s.fragmentOpcode.Some?
    ensures var result := Feed(cfg, s, chunks);
      && (!fin ==> result == (s.(fragments := s.fragments + [payload]), false))
      && (fin && s.fragmentOpcode == Some(1) ==>
          result == (s.(fragments := [], fragmentOpcode := None,
                        events := s.events + [Message(Flatten(s.fragments) + payload)]), false))
      && (fin && s.fragmentOpcode != Some(1) ==> result == (s.(fragments := [], fragmentOpcode := None), false))
  {
    hide Feed;
    FrameIsHandled(cfg, s, fin, 0, payload, mask, chunks);
    FlattenAppend(s.fragments, [payload]);
    FlattenOne(payload);
  }

  /** What a peer refuses: a payload over its limit, a control frame that is fragmented or over 125 bytes, a
      continuation of no message, and an opcode without a meaning. */
  lemma {:induction false} FrameIsRefused(cfg: Config, s: State, fin: bool, opcode: Opcode, payload: bytes,
                                          mask: Option<MaskKey>, chunks: seq<bytes>)
    requires Arrives(s, fin, opcode, payload, mask, chunks)
    ensures var result := Feed(cfg, s, chunks);
      if |payload| > cfg.maxPayload then FailsWith(cfg, s, PayloadExceedsLimit, result)
      else if opcode >= 8 && (!fin || |payload| > 125) then FailsWith(cfg, s, InvalidControlFrame, result)
      else if opcode == 0 && s.fragmentOpcode.None? then FailsWith(cfg, s, UnexpectedContinuation, result)
      else if 3 <= opcode <= 7 || 11 <= opcode then FailsWith(cfg, s, UnsupportedOpcode(opcode), result)
      else !result.1
  {
    hide Feed, ProtocolFailure, FailsWith;
    FrameIsHandled(cfg, s, fin, opcode, payload, mask, chunks);
    var result := Feed(cfg, s, chunks);
    if |payload| <= cfg.maxPayload && result.1 {
      var error := if opcode >= 8 && (!fin || |payload| > 125) then InvalidControlFrame
        else if opcode == 0 then UnexpectedContinuation else UnsupportedOpcode(opcode);
      assert Handle(cfg, s, fin, opcode, payload) == Abort(ProtocolFailure(cfg, s, error));
      FailureIs(cfg, s, s, error);
      BufferIsApart(cfg, s, error, result);
    }
  }

  lemma BufferIsApart(cfg: Config, s: State, error: ProtocolError, result: (State, bool))
    requires result.1 && result.0 == ProtocolFailure(cfg, s, error).(buffer := result.0.buffer)
    requires FailsWith(cfg, s, error, (ProtocolFailure(cfg, s, error), true))
    ensures FailsWith(cfg, s, error, result)
  {
    hide ProtocolFailure;
  }

  /** A header is refused before its payload has come: for a reserved bit, for a length beyond the largest safe
      integer, and for a length over the limit. */
  lemma {:induction false} HeaderIsRefused(cfg: Config, s: State, buffer: bytes)
    requires s.buffer == [] && |buffer| >= 2
    ensures var result := Data(cfg, s, buffer);
      var length := if buffer[1] % 128 < 126 then buffer[1] % 128
                    else if buffer[1] % 128 == 126 && |buffer| >= 4 then FromBE(buffer[2..4])
                    else if buffer[1] % 128 == 127 && |buffer| >= 10 then FromBE(buffer[2..10]) else 0;
      && (buffer[0] / 16 % 8 != 0 ==> FailsWith(cfg, s, UnsupportedExtensions, result))
      && (buffer[0] / 16 % 8 == 0 && length > MAX_SAFE_INTEGER ==> FailsWith(cfg, s, FrameTooLarge, result))
      && (buffer[0] / 16 % 8 == 0 && cfg.maxPayload < length <= MAX_SAFE_INTEGER ==>
          FailsWith(cfg, s, PayloadExceedsLimit, result))
  {
    hide ProtocolFailure, FailsWith, Handle;
    var whole := Extend(s, buffer);
    assert whole.buffer == buffer;
    FailureIs(cfg, s, whole, UnsupportedExtensions);
    FailureIs(cfg, s, whole, FrameTooLarge);
    FailureIs(cfg, s, whole, PayloadExceedsLimit);
    if |buffer| >= 4 { ShortLengths(buffer); }
  }

  lemma ShortLengths(buffer: bytes)
    requires |buffer| >= 4
    ensures FromBE(buffer[2..4]) <= MAX_SAFE_INTEGER
  {
    var pair := buffer[2..4];
    assert pair[..1][..0] == [];
    assert FromBE(pair) == FromBE(pair[..1]) * 256 + pair[1] && FromBE(pair[..1]) == pair[0];
  }

  // ---------------------------------------------------------------------------
  // The peer object
  // ---------------------------------------------------------------------------

  class WebSocketPeer {
    const cfg: Config
    var buffer: bytes
    var fragments: seq<bytes>
    var fragmentOpcode: Option<Opcode>
    var readyState: nat
    var drawn: nat
    var events: seq<Event>

    ghost function Model(): State
      reads this
    {
      State(buffer, fragments, fragmentOpcode, readyState, drawn, events)
    }

    constructor (cfg: Config)
      ensures this.cfg == cfg && Model() == Fresh
    {
      this.cfg := cfg;
      buffer, fragments, fragmentOpcode := [], [], None;
      readyState, drawn, events := OPEN, 0, [];
    }

    method WriteFrame(opcode: Opcode, payload: bytes)
      modifies this
      ensures Model() == Write(cfg, old(Model()), opcode, payload)
    {
      if |payload| > MAX_SAFE_INTEGER { return; }
      var mask := if cfg.maskOutgoing then Some(cfg.keys(drawn)) else None;
      var output := Frame(opcode, payload, mask);
      events := events + [Written(output[..])];
      if cfg.maskOutgoing { drawn := drawn + 1; }
    }

    /** Sends one text message; false when the peer is not open. */
    method Send(payload: bytes) returns (sent: bool)
      modifies this
      ensures sent == (old(readyState) == OPEN)
      ensures Model() == if sent then Write(cfg, old(Model()), TEXT, payload) else old(Model())
    {
      sent := readyState == OPEN;
      if sent { WriteFrame(TEXT, payload); }
    }

    method SendClose(code: int, reason: bytes) returns (thrown: bool)
      modifies this
      ensures Model() == Close(cfg, old(Model()), code, reason)
      ensures thrown <==> old(readyState) < CLOSING && !(0 <= code <= 0xffff)
    {
      if readyState >= CLOSING { return false; }
      readyState := CLOSING;
      if !(0 <= code <= 0xffff) { return true; }
      WriteFrame(CLOSE, ToBE(code, 2) + if |reason| > 123 then reason[..123] else reason);
      return false;
    }

    method Fail(error: ProtocolError)
      modifies this
      ensures Model() == ProtocolFailure(cfg, old(Model()), error)
    {
      events := events + [Failed(error)];
      var _ := SendClose(1002, PROTOCOL_ERROR_REASON);
    }

    /** The handler of the socket's data event: appends the chunk and consumes frames until it must wait or
        meets a protocol error. Every consumed frame shrinks the buffer. */
    method OnData(chunk: bytes) returns (failed: bool)
      modifies this
      ensures (Model(), failed) == Data(cfg, old(Model()), chunk)
    {
      buffer := buffer + chunk;
      ghost var start := Model();
      while |buffer| >= 2
        invariant Run(cfg, Model()) == Run(cfg, start)
        decreases |buffer|
      {
        match Decode(buffer, cfg.maxPayload) {
          case Incomplete => return false;
          case Rejected(error) =>
            Fail(error);
            return true;
          case Complete(fin, opcode, payload, size) =>
            buffer := buffer[size..];
            if opcode >= 8 && (!fin || |payload| > 125) {
              Fail(InvalidControlFrame);
              return true;
            }
            if opcode == CLOSE {
              if readyState == OPEN { WriteFrame(CLOSE, payload); }
              readyState := CLOSING;
              events := events + [SocketEnded];
            } else if opcode == PING {
              WriteFrame(PONG, payload);
            } else if opcode == PONG {
              events := events + [PongReceived(payload)];
            } else if opcode == 0 {
              if fragmentOpcode == None {
                Fail(UnexpectedContinuation);
                return true;
              }
              fragments := fragments + [payload];
              if fin {
                var complete, originalOpcode := Flatten(fragments), fragmentOpcode.value;
                fragments, fragmentOpcode := [], None;
                if originalOpcode == TEXT { events := events + [Message(complete)]; }
              }
            } else if opcode != TEXT && opcode != BINARY {
              Fail(UnsupportedOpcode(opcode));
              return true;
            } else if !fin {
              fragmentOpcode, fragments := Some(opcode), [payload];
            } else {
              events := events + [Message(payload)];
            }
        }
      }
      return false;
    }
  }
}
