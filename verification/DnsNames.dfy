/** Domain names on the wire, as their UTF-8 bytes, and the walk over compression pointers. */
module DnsNames {
  import opened Options
  import opened Bytes

  const DOT: byte := 46

  datatype NameError = Loop | TruncatedPointer | TruncatedName | Unterminated

  datatype NameResult = Name(labels: seq<bytes>, nextOffset: nat) | BadName(error: NameError)

  /** What stands at one offset of a packet. */
  datatype Move =
    | Terminator
    | Label(text: bytes, next: nat)
    | Pointer(target: nat)
    | Broken(error: NameError)

  /** Any length byte below 0xc0 opens a label, also the reserved values 0x40 to 0xbf. */
  function Look(buffer: bytes, offset: nat): (m: Move)
    ensures m.Label? ==> offset < m.next <= |buffer| && m.text != []
    ensures !m.Broken? ==> offset < |buffer|
  {
    if offset >= |buffer| then Broken(Unterminated)
    else
      var length: int := buffer[offset];
      if length == 0 then Terminator
      else if length >= 0xc0 then
        if offset + 1 >= |buffer| then Broken(TruncatedPointer)
        else Pointer((length % 0x40) * 256 + buffer[offset + 1])
      else if offset + 1 + length > |buffer| then Broken(TruncatedName)
      else Label(buffer[offset + 1..offset + 1 + length], offset + 1 + length)
  }

  // ---------------------------------------------------------------------------
  // The unbounded walk
  // ---------------------------------------------------------------------------

  function Next(buffer: bytes, offset: nat): Option<nat> {
    match Look(buffer, offset)
    case Label(_, next) => Some(next)
    case Pointer(target) => Some(target)
    case _ => None
  }

  /** The offset reached after `n` moves of following labels and pointers without keeping count. */
  function At(buffer: bytes, start: nat, n: nat): Option<nat>
    decreases n
  {
    if n == 0 then Some(start)
    else match Next(buffer, start)
      case None => None
      case Some(next) => At(buffer, next, n - 1)
  }

  ghost predicate NeverEnds(buffer: bytes, start: nat) {
    forall n: nat :: At(buffer, start, n).Some?
  }

  lemma NeverEndsNext(buffer: bytes, start: nat)
    ensures NeverEnds(buffer, start) <==> Next(buffer, start).Some? && NeverEnds(buffer, Next(buffer, start).value)
  {
    if NeverEnds(buffer, start) {
      assert At(buffer, start, 1).Some?;
      var next := Next(buffer, start).value;
      forall n: nat ensures At(buffer, next, n).Some? {
        assert At(buffer, start, n + 1).Some?;
      }
    }
    if Next(buffer, start).Some? && NeverEnds(buffer, Next(buffer, start).value) {
      forall n: nat ensures At(buffer, start, n).Some? {
        if n > 0 { assert At(buffer, Next(buffer, start).value, n - 1).Some?; }
      }
    }
  }

  /** The reader's answer with a bound on the number of offsets it may visit. The labels are the pieces the
      reader joins: a pointer contributes the whole name at its target as one piece. */
  function Resolve(buffer: bytes, offset: nat, fuel: nat): NameResult
    decreases fuel
  {
    if fuel == 0 then BadName(Loop)
    else match Look(buffer, offset)
      case Terminator => Name([], offset + 1)
      case Broken(error) => BadName(error)
      case Label(text, next) => Prepend([text], Resolve(buffer, next, fuel - 1))
      case Pointer(target) =>
        match Resolve(buffer, target, fuel - 1)
        case BadName(error) => BadName(error)
        case Name(labels, _) => Name([Join(labels)], offset + 2)
  }

  function Prepend(labels: seq<bytes>, r: NameResult): NameResult {
    match r
    case BadName(error) => r
    case Name(more, nextOffset) => Name(labels + more, nextOffset)
  }

  function Join(labels: seq<bytes>): bytes {
    if labels == [] then []
    else if |labels| == 1 then labels[0]
    else labels[0] + [DOT] + Join(labels[1..])
  }

  /** A packet of n bytes has n offsets, so n + 1 moves decide. */
  function NameAt(buffer: bytes, offset: nat): NameResult {
    Resolve(buffer, offset, |buffer| + 1)
  }

  // ---------------------------------------------------------------------------
  // Loop detection
  // ---------------------------------------------------------------------------

  /** The offsets visited so far, each one move after the one before, none twice. */
  ghost predicate Trail(buffer: bytes, path: seq<nat>, offset: nat) {
    && (forall i :: 0 <= i < |path| ==> path[i] < |buffer| && Next(buffer, path[i]) == Some(After(path, offset, i)))
    && (forall i, j :: 0 <= i < j < |path| ==> path[i] != path[j])
  }

  ghost function After(path: seq<nat>, offset: nat, i: nat): nat {
    if i + 1 < |path| then path[i + 1] else offset
  }

  lemma TrailGrows(buffer: bytes, path: seq<nat>, offset: nat)
    requires Trail(buffer, path, offset) && offset !in path && Next(buffer, offset).Some?
    ensures Trail(buffer, path + [offset], Next(buffer, offset).value)
  {
    var longer, next := path + [offset], Next(buffer, offset).value;
    forall i | 0 <= i < |longer|
      ensures longer[i] < |buffer| && Next(buffer, longer[i]) == Some(After(longer, next, i))
    {
      if i < |path| { assert longer[i] == path[i]; }
    }
  }

  function Visited(path: seq<nat>): (r: set<nat>)
    ensures forall x :: x in r <==> x in path
  {
    if path == [] then {} else Visited(path[..|path| - 1]) + {path[|path| - 1]}
  }

  lemma VisitedMore(path: seq<nat>, offset: nat)
    ensures Visited(path + [offset]) == Visited(path) + {offset}
  {
    assert (path + [offset])[..|path|] == path;
  }

  function Below(n: nat): (r: set<nat>)
    ensures |r| == n && forall x: nat :: x in r <==> x < n
  {
    if n == 0 then {} else Below(n - 1) + {n - 1}
  }

  lemma TrailIsShort(buffer: bytes, path: seq<nat>, offset: nat)
    requires Trail(buffer, path, offset)
    ensures |path| <= |buffer|
    ensures offset < |buffer| && offset !in path ==> |path| < |buffer|
  {
    DistinctCount(path);
    SubsetSize(Visited(path), Below(|buffer|));
    if offset < |buffer| && offset !in path { SubsetSize(Visited(path) + {offset}, Below(|buffer|)); }
  }

  lemma {:induction false} Unvisited(buffer: bytes, path: seq<nat>, offset: nat)
    requires Trail(buffer, path, offset) && offset < |buffer| && offset !in Visited(path)
    ensures |path| < |buffer|
    ensures Next(buffer, offset).Some? ==> Trail(buffer, path + [offset], Next(buffer, offset).value)
  {
    TrailIsShort(buffer, path, offset);
    if Next(buffer, offset).Some? { TrailGrows(buffer, path, offset); }
  }

  lemma {:induction false} Revisited(buffer: bytes, path: seq<nat>, offset: nat, fuel: nat)
    requires Trail(buffer, path, offset) && offset in Visited(path)
    ensures Resolve(buffer, offset, fuel) == BadName(Loop)
  {
    RevisitNeverEnds(buffer, path, offset);
    NeverEndsIsLoop(buffer, offset, fuel);
  }

  lemma {:induction false} DistinctCount(path: seq<nat>)
    requires forall i, j :: 0 <= i < j < |path| ==> path[i] != path[j]
    ensures |Visited(path)| == |path|
  {
    if path != [] {
      var init := path[..|path| - 1];
      assert forall i :: 0 <= i < |init| ==> init[i] == path[i];
      DistinctCount(init);
      assert path[|path| - 1] !in init;
    }
  }

  lemma {:induction false} SubsetSize<T>(a: set<T>, b: set<T>)
    requires a <= b
    ensures |a| <= |b|
    decreases |a|
  {
    if a != {} {
      var x :| x in a;
      SubsetSize(a - {x}, b - {x});
    }
  }

  /** Coming back to a visited offset means the walk repeats itself for ever. */
  lemma RevisitNeverEnds(buffer: bytes, path: seq<nat>, offset: nat)
    requires Trail(buffer, path, offset) && offset in path
    ensures NeverEnds(buffer, offset)
  {
    forall n: nat ensures At(buffer, offset, n).Some? {
      StaysOnTrail(buffer, path, offset, offset, n);
    }
  }

  lemma TrailGoesOn(buffer: bytes, path: seq<nat>, offset: nat, from: nat)
    requires Trail(buffer, path, offset) && offset in path && from in path
    ensures Next(buffer, from).Some? && Next(buffer, from).value in path
  {
    hide Next;
    var i :| 0 <= i < |path| && path[i] == from;
    assert Next(buffer, path[i]) == Some(After(path, offset, i));
  }

  lemma {:induction false} StaysOnTrail(buffer: bytes, path: seq<nat>, offset: nat, from: nat, n: nat)
    requires Trail(buffer, path, offset) && offset in path && from in path
    ensures At(buffer, from, n).Some?
    decreases n
  {
    hide Trail, Next;
    if n > 0 {
      TrailGoesOn(buffer, path, offset, from);
      StaysOnTrail(buffer, path, offset, Next(buffer, from).value, n - 1);
    }
  }

  lemma {:induction false} NeverEndsIsLoop(buffer: bytes, offset: nat, fuel: nat)
    requires NeverEnds(buffer, offset)
    ensures Resolve(buffer, offset, fuel) == BadName(Loop)
    decreases fuel
  {
    if fuel > 0 {
      NeverEndsNext(buffer, offset);
      NeverEndsIsLoop(buffer, Next(buffer, offset).value, fuel - 1);
    }
  }

  lemma {:induction false} LoopNeverEnds(buffer: bytes, path: seq<nat>, offset: nat)
    requires Trail(buffer, path, offset) && |path| <= |buffer|
    requires Resolve(buffer, offset, |buffer| + 1 - |path|) == BadName(Loop)
    ensures NeverEnds(buffer, offset)
    decreases |buffer| - |path|
  {
    if offset in path {
      RevisitNeverEnds(buffer, path, offset);
    } else {
      assert Look(buffer, offset).Label? || Look(buffer, offset).Pointer?;
      TrailIsShort(buffer, path, offset);
      TrailGrows(buffer, path, offset);
      var next := Next(buffer, offset).value;
      LoopNeverEnds(buffer, path + [offset], next);
      NeverEndsNext(buffer, offset);
    }
  }

  /** A loop is reported exactly when following labels and pointers without a bound would never end. */
  lemma LoopExactlyWhenEndless(buffer: bytes, offset: nat)
    ensures NameAt(buffer, offset) == BadName(Loop) <==> NeverEnds(buffer, offset)
  {
    if NeverEnds(buffer, offset) { NeverEndsIsLoop(buffer, offset, |buffer| + 1); }
    if NameAt(buffer, offset) == BadName(Loop) { LoopNeverEnds(buffer, [], offset); }
  }

  /** The bound is not felt by a walk that ends: any larger bound gives the same answer. */
  lemma {:induction false} MoreFuel(buffer: bytes, offset: nat, fuel: nat, more: nat)
    requires fuel <= more && Resolve(buffer, offset, fuel) != BadName(Loop)
    ensures Resolve(buffer, offset, more) == Resolve(buffer, offset, fuel)
    decreases fuel
  {
    match Look(buffer, offset)
    case Label(_, next) => MoreFuel(buffer, next, fuel - 1, more - 1);
    case Pointer(target) => MoreFuel(buffer, target, fuel - 1, more - 1);
    case _ =>
  }

  // ---------------------------------------------------------------------------
  // The reader as written
  // ---------------------------------------------------------------------------

  datatype ParsedName = ParsedName(name: bytes, nextOffset: nat) | NameFailed(error: NameError)

  function Text(r: NameResult): ParsedName {
    match r
    case Name(labels, nextOffset) => ParsedName(Join(labels) + [DOT], nextOffset)
    case BadName(error) => NameFailed(error)
  }

  /** One turn of the walk, by what stands at `offset`. */
  lemma {:induction false} ResolveTurn(buffer: bytes, offset: nat, fuel: nat, labels: seq<bytes>)
    requires fuel > 0
    ensures var r := Prepend(labels, Resolve(buffer, offset, fuel));
      match Look(buffer, offset)
      case Terminator => r == Name(labels, offset + 1)
      case Broken(error) => r == BadName(error)
      case Label(text, next) =>
        Next(buffer, offset) == Some(next) && r == Prepend(labels + [text], Resolve(buffer, next, fuel - 1))
      case Pointer(target) =>
        && Next(buffer, offset) == Some(target)
        && r == match Resolve(buffer, target, fuel - 1)
          case BadName(error) => BadName(error)
          case Name(more, _) => Name(labels + [Join(more)], offset + 2)
  {
    hide Look, Join;
    match Look(buffer, offset)
    case Label(text, next) => PrependTwice(labels, [text], Resolve(buffer, next, fuel - 1));
    case Terminator => assert labels + [] == labels;
    case _ =>
  }

  lemma ResolvesNothing(buffer: bytes, offset: nat, fuel: nat)
    requires offset >= |buffer| && fuel > 0
    ensures Resolve(buffer, offset, fuel) == BadName(Unterminated)
  {}

  /** Walks labels from `startOffset`, recursing at the first pointer with the shared set of visited offsets.
      Every turn adds an offset that was not visited before, so it ends on every buffer. */
  method ParseName(buffer: bytes, startOffset: nat, seen0: set<nat>, ghost path0: seq<nat>) returns (r: ParsedName)
    requires Trail(buffer, path0, startOffset) && |path0| <= |buffer| && seen0 == Visited(path0)
    ensures r == Text(Resolve(buffer, startOffset, |buffer| + 1 - |path0|))
    decreases |buffer| - |path0|
  {
    hide Trail, Visited, NeverEnds, Join, Resolve, Next;
    var offset: nat, seen: set<nat>, labels: seq<bytes> := startOffset, seen0, [];
    ghost var path: seq<nat> := path0;
    while offset < |buffer|
      invariant Trail(buffer, path, offset) && |path0| <= |path| <= |buffer| && seen == Visited(path)
      invariant Resolve(buffer, startOffset, |buffer| + 1 - |path0|)
             == Prepend(labels, Resolve(buffer, offset, |buffer| + 1 - |path|))
      decreases |buffer| - |path|
    {
      if offset in seen {
        Revisited(buffer, path, offset, |buffer| + 1 - |path|);
        return NameFailed(Loop);
      }
      Unvisited(buffer, path, offset);
      seen := seen + {offset};
      ghost var visited: seq<nat> := path + [offset];
      VisitedMore(path, offset);
      ResolveTurn(buffer, offset, |buffer| + 1 - |path|, labels);
      var length: int := buffer[offset];
      if length == 0 {
        return ParsedName(Join(labels) + [DOT], offset + 1);
      }
      if length >= 0xc0 {
        if offset + 1 >= |buffer| { return NameFailed(TruncatedPointer); }
        var target: nat := (length % 0x40) * 256 + buffer[offset + 1];
        var nested := ParseName(buffer, target, seen, visited);
        match nested {
          case NameFailed(error) => return NameFailed(error);
          case ParsedName(name, _) =>
            labels := labels + [name[..|name| - 1]];
            return ParsedName(Join(labels) + [DOT], offset + 2);
        }
      }
      if offset + 1 + length > |buffer| { return NameFailed(TruncatedName); }
      labels := labels + [buffer[offset + 1..offset + 1 + length]];
      offset := offset + 1 + length;
      path := visited;
    }
    ResolvesNothing(buffer, offset, |buffer| + 1 - |path|);
    return NameFailed(Unterminated);
  }

  lemma PrependTwice(a: seq<bytes>, b: seq<bytes>, r: NameResult)
    ensures Prepend(a, Prepend(b, r)) == Prepend(a + b, r)
  {
    if r.Name? { assert a + (b + r.labels) == a + b + r.labels; }
  }

  method ReadName(buffer: bytes, offset: nat) returns (r: ParsedName)
    ensures r == Text(NameAt(buffer, offset))
  {
    r := ParseName(buffer, offset, {}, []);
  }

  // ---------------------------------------------------------------------------
  // What the reader returns
  // ---------------------------------------------------------------------------

  /** Every label on the walk, in order, pointers expanded (section 4.1.4 of RFC 1035). */
  function Expanded(buffer: bytes, offset: nat, fuel: nat): seq<bytes>
    decreases fuel
  {
    if fuel == 0 then []
    else match Look(buffer, offset)
      case Label(text, next) => [text] + Expanded(buffer, next, fuel - 1)
      case Pointer(target) => Expanded(buffer, target, fuel - 1)
      case _ => []
  }

  /** Some label is followed by a pointer, and nothing but pointers stands between it and the root. */
  predicate PointsAtRoot(buffer: bytes, offset: nat, fuel: nat)
    decreases fuel
  {
    fuel > 0 &&
    match Look(buffer, offset)
    case Label(_, next) =>
      || PointsAtRoot(buffer, next, fuel - 1)
      || (Look(buffer, next).Pointer? && Expanded(buffer, next, fuel - 1) == [])
    case Pointer(target) => PointsAtRoot(buffer, target, fuel - 1)
    case _ => false
  }

  lemma {:induction false} ResolvedText(buffer: bytes, offset: nat, fuel: nat)
    requires Resolve(buffer, offset, fuel).Name?
    ensures var labels := Resolve(buffer, offset, fuel).labels;
      && Join(labels) == Join(Expanded(buffer, offset, fuel))
                         + (if PointsAtRoot(buffer, offset, fuel) then [DOT] else [])
      && (labels == [] <==> Look(buffer, offset).Terminator?)
    ensures PointsAtRoot(buffer, offset, fuel) ==> Expanded(buffer, offset, fuel) != []
    decreases fuel
  {
    match Look(buffer, offset)
    case Label(text, next) =>
      ResolvedText(buffer, next, fuel - 1);
      var rest, all := Resolve(buffer, next, fuel - 1).labels, Expanded(buffer, next, fuel - 1);
      JoinCons(text, rest);
      JoinCons(text, all);
      assert Join(all) + [] == Join(all);
    case Pointer(target) => ResolvedText(buffer, target, fuel - 1);
    case _ =>
  }

  lemma JoinCons(head: bytes, tail: seq<bytes>)
    ensures Join([head] + tail) == if tail == [] then head else head + [DOT] + Join(tail)
  {
    assert ([head] + tail)[1..] == tail;
  }

  /** The name is the fully expanded one, closed by a dot, exactly when no label runs into the root through a
      pointer; then, and only then, a stray dot is added. */
  lemma {:induction false} NameIsExpanded(buffer: bytes, offset: nat)
    requires NameAt(buffer, offset).Name?
    ensures var n := |buffer| + 1;
      !PointsAtRoot(buffer, offset, n) <==>
      Text(NameAt(buffer, offset)).name == Join(Expanded(buffer, offset, n)) + [DOT]
    ensures PointsAtRoot(buffer, offset, |buffer| + 1) ==>
      Text(NameAt(buffer, offset)).name == Join(Expanded(buffer, offset, |buffer| + 1)) + [DOT, DOT]
  {
    ResolvedText(buffer, offset, |buffer| + 1);
    var text := Join(Expanded(buffer, offset, |buffer| + 1));
    assert text + [] == text && text + [DOT] + [DOT] == text + [DOT, DOT];
    assert |text + [DOT, DOT]| != |text + [DOT]|;
  }

  /** "a", then a pointer to a root: the name comes out with two dots. */
  lemma PointerToRoot()
    ensures Text(NameAt([1, 97, 0xc0, 4, 0], 0)) == ParsedName([97, DOT, DOT], 4)
  {
    var b: bytes := [1, 97, 0xc0, 4, 0];
    assert Look(b, 4) == Terminator && Look(b, 2) == Pointer(4);
    assert b[1..2] == [97];
    assert Look(b, 0) == Label([97], 2);
    assert Resolve(b, 4, 4) == Name([], 5);
    assert Resolve(b, 2, 5) == Name([[]], 4);
    assert Resolve(b, 0, 6) == Name([[97]] + [[]], 4);
  }

  /** The first offset from `offset` on that does not open a label. */
  function FirstStop(buffer: bytes, offset: nat): nat
    decreases if offset < |buffer| then |buffer| - offset else 0
  {
    match Look(buffer, offset)
    case Label(_, next) => FirstStop(buffer, next)
    case _ => offset
  }

  /** Reading resumes just past the terminator or past the first pointer, wherever that pointer leads. */
  lemma {:induction false} NextOffset(buffer: bytes, offset: nat, fuel: nat)
    requires Resolve(buffer, offset, fuel).Name?
    ensures var stop := FirstStop(buffer, offset);
      && (Look(buffer, stop).Terminator? || Look(buffer, stop).Pointer?)
      && Resolve(buffer, offset, fuel).nextOffset == stop + (if Look(buffer, stop).Pointer? then 2 else 1) <= |buffer|
    decreases fuel
  {
    match Look(buffer, offset)
    case Label(_, next) => NextOffset(buffer, next, fuel - 1);
    case _ =>
  }

  // ---------------------------------------------------------------------------
  // The encoder
  // ---------------------------------------------------------------------------

  function StripDot(name: bytes): bytes {
    if name != [] && name[|name| - 1] == DOT then name[..|name| - 1] else name
  }

  /** The pieces between dots; text without a dot is one piece, also when it is empty. */
  function Split(name: bytes): (r: seq<bytes>)
    ensures r != []
  {
    if name == [] then [[]]
    else if name[0] == DOT then [[]] + Split(name[1..])
    else
      var rest := Split(name[1..]);
      [[name[0]] + rest[0]] + rest[1..]
  }

  function LabelsWire(labels: seq<bytes>): bytes
    requires forall i :: 0 <= i < |labels| ==> |labels[i]| <= 63
  {
    if labels == [] then [0] else [|labels[0]|] + labels[0] + LabelsWire(labels[1..])
  }

  function EncodeLabels(labels: seq<bytes>): Option<bytes> {
    if labels == [] then Some([0])
    else if |labels[0]| > 63 then None
    else match EncodeLabels(labels[1..])
      case None => None
      case Some(rest) => Some([|labels[0]|] + labels[0] + rest)
  }

  function Encoded(name: bytes): Option<bytes> {
    EncodeLabels(Split(StripDot(name)))
  }

  function Onto(output: bytes, rest: Option<bytes>): Option<bytes> {
    if rest.Some? then Some(output + rest.value) else None
  }

  /** The name on the wire, or nothing when a label is longer than 63 bytes. */
  method EncodeName(name: bytes) returns (r: Option<bytes>)
    ensures r == Encoded(name)
  {
    var labels := Split(StripDot(name));
    var output: bytes, i := [], 0;
    assert labels[0..] == labels;
    ghost var all := EncodeLabels(labels);
    if all.Some? { assert [] + all.value == all.value; }
    while i < |labels|
      invariant 0 <= i <= |labels|
      invariant Encoded(name) == Onto(output, EncodeLabels(labels[i..]))
    {
      if |labels[i]| > 63 { return None; }
      assert labels[i..][1..] == labels[i + 1..];
      ghost var rest := EncodeLabels(labels[i + 1..]);
      if rest.Some? {
        assert output + ([|labels[i]|] + labels[i] + rest.value) == output + ([|labels[i]|] + labels[i]) + rest.value;
      }
      output := output + ([|labels[i]|] + labels[i]);
      i := i + 1;
    }
    return Some(output + [0]);
  }

  lemma {:induction false} EncodeLabelsWire(labels: seq<bytes>)
    ensures EncodeLabels(labels).Some? <==> forall i :: 0 <= i < |labels| ==> |labels[i]| <= 63
    ensures EncodeLabels(labels).Some? ==> EncodeLabels(labels).value == LabelsWire(labels)
  {
    if labels != [] {
      EncodeLabelsWire(labels[1..]);
      assert forall i :: 0 < i < |labels| ==> labels[i] == labels[1..][i - 1];
    }
  }

  predicate ValidLabel(text: bytes) {
    0 < |text| <= 63 && DOT !in text
  }

  predicate ValidLabels(labels: seq<bytes>) {
    forall i :: 0 <= i < |labels| ==> ValidLabel(labels[i])
  }

  /** Labels of any length that can be told apart in a dotted name. */
  predicate Apart(labels: seq<bytes>) {
    labels != [] && forall i :: 0 <= i < |labels| ==> labels[i] != [] && DOT !in labels[i]
  }

  lemma {:induction false} SplitJoin(labels: seq<bytes>)
    requires Apart(labels)
    ensures Split(Join(labels)) == labels
    ensures Join(labels) != [] && Join(labels)[|Join(labels)| - 1] != DOT
    decreases |labels|
  {
    if |labels| == 1 {
      SplitPiece(labels[0], []);
      assert labels[0] + [] == labels[0] && [labels[0]] + [] == labels;
    } else {
      SplitJoin(labels[1..]);
      SplitPiece(labels[0], [DOT] + Join(labels[1..]));
      assert labels[0] + ([DOT] + Join(labels[1..])) == Join(labels);
      assert ([DOT] + Join(labels[1..]))[1..] == Join(labels[1..]);
      assert [labels[0]] + labels[1..] == labels;
    }
  }

  lemma {:induction false} SplitPiece(piece: bytes, rest: bytes)
    requires DOT !in piece && (rest == [] || rest[0] == DOT)
    ensures Split(piece + rest) == [piece] + Split(rest)[1..]
    decreases |piece|
  {
    if piece == [] {
      assert piece + rest == rest;
    } else {
      assert (piece + rest)[1..] == piece[1..] + rest;
      SplitPiece(piece[1..], rest);
      assert [piece[0]] + piece[1..] == piece;
    }
  }

  /** A name of non-empty, dot-free labels of at most 63 bytes encodes, with or without its final dot. */
  lemma {:induction false} EncodedLabels(labels: seq<bytes>)
    requires labels != [] && ValidLabels(labels)
    ensures Encoded(Join(labels) + [DOT]) == Some(LabelsWire(labels))
    ensures Encoded(Join(labels)) == Some(LabelsWire(labels))
  {
    SplitJoin(labels);
    EncodeLabelsWire(labels);
    var text := Join(labels);
    assert StripDot(text + [DOT]) == text;
    assert StripDot(text) == text;
  }

  /** The bytes of a name on the wire: a length before each label and a zero at the end. */
  function LengthOf(labels: seq<bytes>): nat {
    if labels == [] then 1 else 1 + |labels[0]| + LengthOf(labels[1..])
  }

  lemma {:induction false} LengthOnTheWire(labels: seq<bytes>)
    requires forall i :: 0 <= i < |labels| ==> |labels[i]| <= 63
    ensures |LabelsWire(labels)| == LengthOf(labels)
  {
    if labels != [] { LengthOnTheWire(labels[1..]); }
  }

  /** A name encodes exactly when none of its labels is longer than 63 bytes. */
  lemma {:induction false} EncodesExactly(labels: seq<bytes>)
    requires Apart(labels)
    ensures Encoded(Join(labels) + [46]).Some? <==> forall i :: 0 <= i < |labels| ==> |labels[i]| <= 63
    ensures Encoded(Join(labels) + [46]).Some? ==> |Encoded(Join(labels) + [46]).value| == LengthOf(labels)
  {
    SplitJoin(labels);
    EncodeLabelsWire(labels);
    var text := Join(labels);
    assert StripDot(text + [DOT]) == text;
    if Encoded(text + [DOT]).Some? { LengthOnTheWire(labels); }
  }

  lemma LookLabel(before: bytes, text: bytes, after: bytes)
    requires 0 < |text| <= 191
    ensures Look(before + ([|text|] + text) + after, |before|) == Label(text, |before| + 1 + |text|)
  {
    var buffer := before + ([|text|] + text) + after;
    assert buffer[|before|] == |text|;
    assert buffer[|before| + 1..|before| + 1 + |text|] == text;
  }

  lemma {:induction false} ResolveWire(before: bytes, labels: seq<bytes>, after: bytes, fuel: nat)
    requires ValidLabels(labels) && fuel > |labels|
    ensures var end := |before + LabelsWire(labels)|;
      Resolve(before + LabelsWire(labels) + after, |before|, fuel) == Name(labels, end)
    decreases |labels|
  {
    hide Look, Resolve;
    if labels == [] {
      LookTerminator(before, after);
      ResolveEnd(before + [0] + after, |before|, fuel);
    } else {
      var piece, rest := [|labels[0]|] + labels[0], LabelsWire(labels[1..]);
      var buffer := before + (piece + rest) + after;
      Regroup(before, piece, rest, after);
      LookLabel(before, labels[0], rest + after);
      ResolveWire(before + piece, labels[1..], after, fuel - 1);
      ResolveLabel(buffer, |before|, labels[0], |before + piece|, fuel, labels[1..], |before + piece + rest|);
      assert [labels[0]] + labels[1..] == labels;
    }
  }

  lemma ResolveEnd(buffer: bytes, offset: nat, fuel: nat)
    requires fuel > 0 && Look(buffer, offset) == Terminator
    ensures Resolve(buffer, offset, fuel) == Name([], offset + 1)
  {
    hide Look;
  }

  lemma ResolveLabel(buffer: bytes, offset: nat, text: bytes, next: nat, fuel: nat, labels: seq<bytes>, end: nat)
    requires fuel > 0 && Look(buffer, offset) == Label(text, next)
    requires Resolve(buffer, next, fuel - 1) == Name(labels, end)
    ensures Resolve(buffer, offset, fuel) == Name([text] + labels, end)
  {
    hide Look;
  }

  lemma Regroup(a: bytes, b: bytes, c: bytes, d: bytes)
    ensures a + (b + c) + d == a + b + (c + d) == a + b + c + d
  {}

  lemma LookTerminator(before: bytes, after: bytes)
    ensures Look(before + [0] + after, |before|) == Terminator
  {
    assert (before + [0] + after)[|before|] == 0;
  }

  lemma {:induction false} WireLength(labels: seq<bytes>)
    requires ValidLabels(labels)
    ensures |LabelsWire(labels)| > |labels|
  {
    if labels != [] { WireLength(labels[1..]); }
  }

  /** Reading undoes encoding, wherever in a packet the name stands. */
  lemma {:induction false} NameRoundTrip(before: bytes, labels: seq<bytes>, after: bytes)
    requires labels != [] && ValidLabels(labels)
    ensures var name, wire := Join(labels) + [DOT], LabelsWire(labels);
      && Encoded(name) == Some(wire)
      && Text(NameAt(before + wire + after, |before|)) == ParsedName(name, |before + wire|)
  {
    EncodedLabels(labels);
    WireLength(labels);
    ResolveWire(before, labels, after, |before + LabelsWire(labels) + after| + 1);
  }

  // ---------------------------------------------------------------------------
  // Names by their bytes
  // ---------------------------------------------------------------------------

  /** Labels of which a name has been read so far; a length byte of 0x40 to 0xbf opens a label too. */
  ghost predicate Readable(labels: seq<bytes>) {
    forall i :: 0 <= i < |labels| ==> 0 < |labels[i]| <= 191
  }

  ghost function Opened(labels: seq<bytes>): bytes
    requires Readable(labels)
  {
    if labels == [] then [] else ([|labels[0]|] + labels[0]) + Opened(labels[1..])
  }

  lemma {:induction false} OpenedResolves(before: bytes, labels: seq<bytes>, after: bytes, fuel: nat)
    requires Readable(labels)
    ensures var buffer := before + Opened(labels) + after;
      Resolve(buffer, |before|, |labels| + fuel) == Prepend(labels, Resolve(buffer, |before + Opened(labels)|, fuel))
    decreases |labels|
  {
    hide Look, Resolve;
    if labels == [] {
      assert before + [] == before;
      PrependNothing(Resolve(before + after, |before|, fuel));
    } else {
      var piece, rest := [|labels[0]|] + labels[0], Opened(labels[1..]);
      var buffer := before + (piece + rest) + after;
      Regroup(before, piece, rest, after);
      LookLabel(before, labels[0], rest + after);
      OpenedResolves(before + piece, labels[1..], after, fuel);
      TakeLabel(buffer, |before|, labels[0], |before + piece|, |labels| + fuel);
      assert [labels[0]] + labels[1..] == labels;
      PrependTwice([labels[0]], labels[1..], Resolve(buffer, |before + piece + rest|, fuel));
    }
  }

  lemma PrependNothing(r: NameResult)
    ensures Prepend([], r) == r
  {}

  lemma TakeLabel(buffer: bytes, offset: nat, text: bytes, next: nat, fuel: nat)
    requires fuel > 0 && Look(buffer, offset) == Label(text, next)
    ensures Resolve(buffer, offset, fuel) == Prepend([text], Resolve(buffer, next, fuel - 1))
  {
    hide Look;
  }

  /** An answer reached within any bound is the reader's answer. */
  lemma AnyFuel(buffer: bytes, offset: nat, fuel: nat)
    requires Resolve(buffer, offset, fuel) != BadName(Loop)
    ensures NameAt(buffer, offset) == Resolve(buffer, offset, fuel)
  {
    if NameAt(buffer, offset) == BadName(Loop) {
      LoopExactlyWhenEndless(buffer, offset);
      NeverEndsIsLoop(buffer, offset, fuel);
    } else if fuel <= |buffer| + 1 {
      MoreFuel(buffer, offset, fuel, |buffer| + 1);
    } else {
      MoreFuel(buffer, offset, |buffer| + 1, fuel);
    }
  }

  lemma NoFuel(buffer: bytes, offset: nat, fuel: nat)
    requires fuel > |buffer| && Resolve(buffer, offset, fuel) == BadName(Loop)
    ensures NameAt(buffer, offset) == BadName(Loop)
  {
    if NameAt(buffer, offset) != BadName(Loop) { MoreFuel(buffer, offset, |buffer| + 1, fuel); }
  }

  /** A name that goes on with a pointer is its labels and, as one piece, the name at the 14-bit offset; it is
      refused for the reason for which that name is refused. */
  lemma {:induction false} CompressedName(before: bytes, labels: seq<bytes>, high: nat, low: nat, after: bytes)
    requires Readable(labels) && high <= 63 && low <= 255
    ensures var buffer := before + Opened(labels) + ([192 + high, low] + after);
      match NameAt(buffer, 256 * high + low)
      case Name(more, _) => NameAt(buffer, |before|) == Name(labels + [Join(more)], |before + Opened(labels)| + 2)
      case BadName(error) => NameAt(buffer, |before|) == BadName(error)
  {
    hide Resolve, Opened;
    var buffer := before + Opened(labels) + ([192 + high, low] + after);
    var at, target, fuel := |before + Opened(labels)|, 256 * high + low, |buffer| + 1;
    assert buffer[at] == 192 + high && buffer[at + 1] == low;
    assert Look(buffer, at) == Pointer(target);
    TakePointer(buffer, at, target, fuel + 1);
    OpenedResolves(before, labels, [192 + high, low] + after, fuel + 1);
    if NameAt(buffer, target) == BadName(Loop) {
      NoFuel(buffer, |before|, |labels| + fuel + 1);
    } else {
      AnyFuel(buffer, |before|, |labels| + fuel + 1);
    }
  }

  lemma TakePointer(buffer: bytes, offset: nat, target: nat, fuel: nat)
    requires fuel > 0 && Look(buffer, offset) == Pointer(target)
    ensures match Resolve(buffer, target, fuel - 1)
      case Name(more, _) => Resolve(buffer, offset, fuel) == Name([Join(more)], offset + 2)
      case BadName(error) => Resolve(buffer, offset, fuel) == BadName(error)
  {
    hide Look;
  }

  /** A name that the packet breaks off is refused for what is missing. */
  lemma {:induction false} CutNames(before: bytes, labels: seq<bytes>, rest: bytes)
    requires Readable(labels)
    ensures var buffer := before + Opened(labels) + rest;
      && (rest == [] ==> NameAt(buffer, |before|) == BadName(Unterminated))
      && (|rest| == 1 && rest[0] >= 192 ==> NameAt(buffer, |before|) == BadName(TruncatedPointer))
      && (rest != [] && 0 < rest[0] < 192 && |rest| <= rest[0] ==> NameAt(buffer, |before|) == BadName(TruncatedName))
  {
    hide Resolve, Opened;
    var buffer := before + Opened(labels) + rest;
    var at := |before + Opened(labels)|;
    if rest != [] { assert buffer[at] == rest[0]; }
    OpenedResolves(before, labels, rest, 1);
    if Look(buffer, at).Broken? {
      BreakOff(buffer, at);
      if Look(buffer, at).error != Loop { AnyFuel(buffer, |before|, |labels| + 1); }
    }
  }

  lemma BreakOff(buffer: bytes, offset: nat)
    requires Look(buffer, offset).Broken?
    ensures Resolve(buffer, offset, 1) == BadName(Look(buffer, offset).error)
  {
    hide Look;
  }
}
