/** Bytes shared by the wire formats: numbers in network byte order, the exclusive or that masks payloads, the
    concatenation of pieces, and the one way to split a text at its first separator. */
module Bytes {
  type byte = x: int | 0 <= x < 256
  type bytes = seq<byte>

  function Pow256(width: nat): nat {
    if width == 0 then 1 else 256 * Pow256(width - 1)
  }

  /** `value` in `width` bytes, most significant first. */
  function ToBE(value: nat, width: nat): (r: bytes)
    ensures |r| == width
  {
    if width == 0 then [] else ToBE(value / 256, width - 1) + [value % 256]
  }

  function FromBE(s: bytes): nat {
    if s == [] then 0 else FromBE(s[..|s| - 1]) * 256 + s[|s| - 1]
  }

  lemma {:induction false} BigEndianRoundTrip(value: nat, width: nat)
    requires value < Pow256(width)
    ensures FromBE(ToBE(value, width)) == value
  {
    if width > 0 {
      BigEndianRoundTrip(value / 256, width - 1);
      var r := ToBE(value, width);
      assert r[..|r| - 1] == ToBE(value / 256, width - 1);
    }
  }

  lemma PowersOf256()
    ensures Pow256(2) == 0x1_0000
    ensures Pow256(4) == 0x1_0000_0000
    ensures Pow256(8) == 0x1_0000_0000_0000_0000
  {
    assert Pow256(1) == 256;
    assert Pow256(3) == 256 * Pow256(2);
    assert Pow256(5) == 256 * Pow256(4);
    assert Pow256(7) == 256 * Pow256(6);
  }

  /** Exclusive or of the low `bits` bits, one binary digit at a time. */
  function XorBits(a: nat, b: nat, bits: nat): nat {
    if bits == 0 then 0 else (a + b) % 2 + 2 * XorBits(a / 2, b / 2, bits - 1)
  }

  function Pow2(bits: nat): nat {
    if bits == 0 then 1 else 2 * Pow2(bits - 1)
  }

  /** The binary digit of weight 2 to the `k`. */
  function Digit(n: nat, k: nat): nat {
    if k == 0 then n % 2 else Digit(n / 2, k - 1)
  }

  lemma {:induction false} XorDigit(a: nat, b: nat, bits: nat, k: nat)
    requires k < bits
    ensures Digit(XorBits(a, b, bits), k) == (Digit(a, k) + Digit(b, k)) % 2
  {
    var rest := XorBits(a / 2, b / 2, bits - 1);
    LowDigit(a, b, rest);
    LowParity(a, b, rest);
    if k > 0 { XorDigit(a / 2, b / 2, bits - 1, k - 1); }
  }

  lemma LowParity(a: nat, b: nat, high: nat)
    ensures ((a + b) % 2 + 2 * high) % 2 == (a % 2 + b % 2) % 2
  {}

  lemma {:induction false} XorBitsTwice(a: nat, b: nat, bits: nat)
    requires a < Pow2(bits)
    ensures XorBits(a, b, bits) < Pow2(bits)
    ensures XorBits(XorBits(a, b, bits), b, bits) == a
  {
    if bits > 0 {
      XorBitsTwice(a / 2, b / 2, bits - 1);
      LowDigit(a, b, XorBits(a / 2, b / 2, bits - 1));
    }
  }

  lemma LowDigit(a: nat, b: nat, high: nat)
    ensures ((a + b) % 2 + 2 * high) / 2 == high
    ensures ((a + b) % 2 + 2 * high + b) % 2 == a % 2
  {
    var k, q := b / 2, a / 2;
    assert b == 2 * k + b % 2 && a == 2 * q + a % 2;
  }

  function Xor(a: byte, b: byte): byte {
    EightBits();
    XorBitsTwice(a, b, 8);
    XorBits(a, b, 8)
  }

  lemma EightBits()
    ensures Pow2(8) == 256
  {
    assert Pow2(2) == 4 && Pow2(4) == 16 && Pow2(6) == 64;
  }

  lemma ByteDigit(a: byte, b: byte, k: nat)
    requires k < 8
    ensures Digit(Xor(a, b), k) == (Digit(a, k) + Digit(b, k)) % 2
  {
    hide Digit, XorBits;
    XorDigit(a, b, 8, k);
  }

  /** Masking twice with one key byte gives the byte back (section 5.3 of RFC 6455). */
  lemma XorTwice(a: byte, b: byte)
    ensures Xor(Xor(a, b), b) == a
  {
    EightBits();
    XorBitsTwice(a, b, 8);
  }

  function Flatten(parts: seq<bytes>): bytes {
    if parts == [] then [] else parts[0] + Flatten(parts[1..])
  }

  lemma SplitLater<T>(bar: T, a: seq<T>, b: seq<T>, c: seq<T>, d: seq<T>)
    requires bar !in c && |a| < |c|
    ensures a + [bar] + b != c + [bar] + d
  {
    assert (a + [bar] + b)[|a|] == bar && (c + [bar] + d)[|a|] == c[|a|];
  }

  /** What stands before the first separator, and after it. */
  lemma SplitAt<T>(bar: T, a: seq<T>, b: seq<T>, c: seq<T>, d: seq<T>)
    requires bar !in a && bar !in c && a + [bar] + b == c + [bar] + d
    ensures a == c && b == d
  {
    var p, q := a + [bar] + b, c + [bar] + d;
    assert |a| == |c| by {
      if |a| < |c| { SplitLater(bar, a, b, c, d); }
      if |c| < |a| { SplitLater(bar, c, d, a, b); }
    }
    assert a == p[..|a|] && c == q[..|a|] && b == p[|a| + 1..] && d == q[|a| + 1..];
  }
}
