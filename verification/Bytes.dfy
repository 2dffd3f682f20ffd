/**
 Bytes, byte strings and exclusive or.
 */
module Bytes {
  import opened Naturals

  newtype byte = x: int | 0 <= x < 256

  type bytes = seq<byte>

  function Pow2(k: nat): (r: nat)
    ensures r > 0
  {
    if k == 0 then 1 else 2 * Pow2(k - 1)
  }

  /** Exclusive or of the lowest `k` bits. */
  function XorBits(a: nat, b: nat, k: nat): (r: nat)
    ensures r < Pow2(k)
  {
    if k == 0 then 0 else 2 * XorBits(a / 2, b / 2, k - 1) + (a + b) % 2
  }

  function Xor(a: byte, b: byte): byte {
    assert Pow2(8) == 256;
    XorBits(a as nat, b as nat, 8) as byte
  }

  /** Bit `k` of a number. */
  function Bit(x: nat, k: nat): nat {
    (x / Pow2(k)) % 2
  }

  function BitSet(x: byte, k: nat): bool {
    Bit(x as nat, k) == 1
  }

  /** Each bit of `x` is set exactly if one and only one of those of `a` and `b` is. */
  ghost predicate ExclusiveOr(x: byte, a: byte, b: byte) {
    forall k: nat :: k < 8 ==> (BitSet(x, k) <==> BitSet(a, k) != BitSet(b, k))
  }

  lemma {:induction false} XorBit(a: nat, b: nat, m: nat, k: nat)
    requires k < m
    ensures Bit(XorBits(a, b, m), k) == 1 <==> (Bit(a, k) == 1) != (Bit(b, k) == 1)
  {
    var q := XorBits(a / 2, b / 2, m - 1);
    if k > 0 {
      XorBit(a / 2, b / 2, m - 1, k - 1);
      Halves(q, a, b);
      BitOfHalf(a, k);
      BitOfHalf(b, k);
      BitOfHalf(XorBits(a, b, m), k);
    } else {
      LowestBit(q, a, b);
    }
  }

  lemma LowestBit(q: nat, a: nat, b: nat)
    ensures Bit(2 * q + (a + b) % 2, 0) == 1 <==> (Bit(a, 0) == 1) != (Bit(b, 0) == 1)
  {
    assert Pow2(0) == 1;
  }

  lemma BitOfHalf(x: nat, k: nat)
    requires k > 0
    ensures Bit(x, k) == Bit(x / 2, k - 1)
  {
    DivideTwice(x, 2, Pow2(k - 1));
  }

  lemma XorIsExclusiveOr(a: byte, b: byte)
    ensures ExclusiveOr(Xor(a, b), a, b)
  {
    forall k: nat | k < 8 ensures BitSet(Xor(a, b), k) <==> BitSet(a, k) != BitSet(b, k) {
      assert Pow2(8) == 256;
      XorBit(a as nat, b as nat, 8, k);
    }
  }

  lemma {:induction false} XorBitsCancels(a: nat, b: nat, k: nat)
    requires a < Pow2(k)
    ensures XorBits(XorBits(a, b, k), b, k) == a
  {
    if k > 0 {
      XorBitsCancels(a / 2, b / 2, k - 1);
      Halves(XorBits(a / 2, b / 2, k - 1), a, b);
    }
  }

  lemma Halves(q: nat, a: nat, b: nat)
    ensures var r := 2 * q + (a + b) % 2;
            r / 2 == q && (r + b) % 2 == a % 2
  {
    var i, j := a / 2, b / 2;
    assert a == 2 * i + a % 2 && b == 2 * j + b % 2;
  }

  lemma XorCancels(a: byte, b: byte)
    ensures Xor(Xor(a, b), b) == a
  {
    assert Pow2(8) == 256;
    XorBitsCancels(a as nat, b as nat, 8);
  }

  /** Byte-wise exclusive or over the length of `a`. */
  function XorAll(a: bytes, b: bytes): (r: bytes)
    requires |a| <= |b|
    ensures |r| == |a|
  {
    seq(|a|, i requires 0 <= i < |a| => Xor(a[i], b[i]))
  }

  /** For one contribution fixed, the joint value determines the other. */
  lemma XorAllCancels(a: bytes, b: bytes)
    requires |a| == |b|
    ensures XorAll(XorAll(a, b), b) == a
  {
    forall i | 0 <= i < |a| ensures XorAll(XorAll(a, b), b)[i] == a[i] {
      XorCancels(a[i], b[i]);
    }
  }

  /** Equal joint values mean that the contributions differ alike. */
  lemma {:induction false} XorBitsExchange(a: nat, x: nat, b: nat, y: nat, k: nat)
    ensures XorBits(a, x, k) == XorBits(b, y, k) <==> XorBits(a, b, k) == XorBits(x, y, k)
  {
    if k > 0 {
      XorBitsExchange(a / 2, x / 2, b / 2, y / 2, k - 1);
      Parities(a, x, b, y);
    }
  }

  lemma Parities(a: nat, x: nat, b: nat, y: nat)
    ensures (a + x) % 2 == (b + y) % 2 <==> (a + b) % 2 == (x + y) % 2
  {
  }

  lemma XorExchange(a: bytes, x: bytes, b: bytes, y: bytes)
    requires |a| == |x| == |b| == |y|
    ensures XorAll(a, x) == XorAll(b, y) <==> XorAll(a, b) == XorAll(x, y)
  {
    forall i | 0 <= i < |a| ensures Xor(a[i], x[i]) == Xor(b[i], y[i]) <==> Xor(a[i], b[i]) == Xor(x[i], y[i]) {
      XorBitsExchange(a[i] as nat, x[i] as nat, b[i] as nat, y[i] as nat, 8);
    }
    SameBytes(XorAll(a, x), XorAll(b, y));
    SameBytes(XorAll(a, b), XorAll(x, y));
    assert forall i :: 0 <= i < |a| ==> XorAll(a, x)[i] == Xor(a[i], x[i]) && XorAll(x, y)[i] == Xor(x[i], y[i]);
  }

  lemma SameBytes(s: bytes, t: bytes)
    requires |s| == |t|
    ensures s == t <==> forall i :: 0 <= i < |s| ==> s[i] == t[i]
  {
  }

  /** The node's xorBytes: the output buffer has the length of `a`. */
  method XorBytes(a: bytes, b: bytes) returns (r: bytes)
    requires |a| <= |b|
    ensures r == XorAll(a, b)
    ensures |r| == |a| && forall i :: 0 <= i < |a| ==> ExclusiveOr(r[i], a[i], b[i])
  {
    var out := new byte[|a|];
    for i := 0 to |a|
      invariant forall k :: 0 <= k < i ==> out[k] == Xor(a[k], b[k]) && ExclusiveOr(out[k], a[k], b[k])
    {
      XorIsExclusiveOr(a[i], b[i]);
      out[i] := Xor(a[i], b[i]);
    }
    r := out[..];
  }

  /** xor32 of the protocol package and of the client: a 32-byte buffer, whatever follows. */
  method Xor32(a: bytes, b: bytes) returns (r: bytes)
    requires |a| >= 32 && |b| >= 32
    ensures r == XorAll(a[..32], b)
    ensures |r| == 32 && forall i :: 0 <= i < 32 ==> ExclusiveOr(r[i], a[i], b[i])
  {
    var out := new byte[32];
    for i := 0 to 32
      invariant forall k :: 0 <= k < i ==> out[k] == Xor(a[k], b[k]) && ExclusiveOr(out[k], a[k], b[k])
    {
      XorIsExclusiveOr(a[i], b[i]);
      out[i] := Xor(a[i], b[i]);
    }
    r := out[..];
  }

  /** The ASCII text of a constant as bytes. */
  predicate IsAscii(s: string) {
    forall c <- s :: c as int < 128
  }

  function Ascii(s: string): (r: bytes)
    requires IsAscii(s)
    ensures |r| == |s|
  {
    seq(|s|, i requires 0 <= i < |s| => assert s[i] in s; s[i] as int as byte)
  }

  /** Bytes read as text, one character each. */
  function Text(b: bytes): (s: string)
    ensures |s| == |b|
  {
    seq(|b|, i requires 0 <= i < |b| => b[i] as int as char)
  }

  lemma TextOfAscii(s: string)
    requires IsAscii(s)
    ensures Text(Ascii(s)) == s
  {
    forall i | 0 <= i < |s| ensures Text(Ascii(s))[i] == s[i] {
      assert s[i] in s;
    }
  }

  /** Every byte is read as the character of its value, and so different bytes as different text. */
  lemma TextInjective(a: bytes, b: bytes)
    requires Text(a) == Text(b)
    ensures a == b
  {
    assert |a| == |Text(a)| == |b|;
    forall i | 0 <= i < |a| ensures a[i] == b[i] {
      assert Text(a)[i] as int == a[i] as int && Text(b)[i] as int == b[i] as int;
    }
  }
}
