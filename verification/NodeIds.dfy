/**
 Node ids: base36(sha256(public key)), cut to 30 characters.

 Three implementations: the protocol package's (Go, big.Int), the client library's (a shift-or
 fold over the bytes) and the root demo page's (a division loop, padded to 50 characters).
 */
module NodeIds {
  import opened Bytes
  import opened Numerals
  import opened Strings
  import opened Hex
  import opened Cryptography

  const ID_LENGTH := 30

  /** big.Int.SetBytes: the bytes as a big-endian number. */
  function BigEndian(b: bytes): nat {
    if b == [] then 0 else BigEndian(b[..|b| - 1]) * 256 + b[|b| - 1] as nat
  }

  // ---- Go ---------------------------------------------------------------------------------

  function GoId(digest: bytes): string {
    var s := Numeral(BigEndian(digest));
    if |s| > ID_LENGTH then s[..ID_LENGTH] else s
  }

  function NodeID(c: Crypto, pub: bytes): string {
    GoId(c.sha256(pub))
  }

  /** What the id means: the whole numeral of the digest if that is short enough, and otherwise
      the numeral of the digest divided by a power of 36. */
  lemma IdMeaning(digest: bytes)
    ensures var n := BigEndian(digest);
            var len := |Numeral(n)|;
            && GoId(digest) == Numeral(if len > ID_LENGTH then Div(n, Pow36(len - ID_LENGTH)) else n)
            && |GoId(digest)| == (if len > ID_LENGTH then ID_LENGTH else len)
            && (GoId(digest)[0] == '0' <==> n == 0)
  {
    var n := BigEndian(digest);
    NoLeadingZero(n);
    if |Numeral(n)| > ID_LENGTH { NumeralPrefix(n, ID_LENGTH); }
  }

  /** How many digits truncation drops. */
  function Excess(digest: bytes): nat {
    var len := |Numeral(BigEndian(digest))|;
    if len > ID_LENGTH then len - ID_LENGTH else 0
  }

  lemma IdIsNumeral(digest: bytes)
    ensures GoId(digest) == Numeral(Div(BigEndian(digest), Pow36(Excess(digest))))
  {
    if Excess(digest) > 0 {
      NumeralPrefix(BigEndian(digest), ID_LENGTH);
    } else {
      DivOne(BigEndian(digest));
    }
  }

  lemma DivOne(n: nat)
    ensures Div(n, Pow36(0)) == n
  {
  }

  /** Two digests share an id exactly if they agree after that division, each by its own power. */
  lemma SameId(a: bytes, b: bytes)
    ensures GoId(a) == GoId(b) <==>
              Div(BigEndian(a), Pow36(Excess(a))) == Div(BigEndian(b), Pow36(Excess(b)))
  {
    IdIsNumeral(a);
    IdIsNumeral(b);
    if GoId(a) == GoId(b) {
      NumeralInjective(Div(BigEndian(a), Pow36(Excess(a))), Div(BigEndian(b), Pow36(Excess(b))));
    }
  }

  /** Big-endian: the first byte weighs most. */
  lemma {:induction false} BigEndianFirst(b: bytes)
    requires b != []
    ensures BigEndian(b) == b[0] as nat * Pow256(|b| - 1) + BigEndian(b[1..])
  {
    if |b| == 1 {
      assert b[..0] == [] && b[1..] == [];
    } else {
      var n := |b| - 1;
      BigEndianFirst(b[..n]);
      assert b[..n][1..] == b[1..][..n - 1] && b[1..][n - 1] == b[n];
      ByteShift(b[0] as nat, Pow256(n - 1));
    }
  }

  lemma ByteShift(x: nat, p: nat)
    ensures 256 * (x * p) == x * (256 * p)
  {
  }

  /** The id of a key: the base-36 form of the hash of its bytes, cut to 30 digits. */
  lemma IdOfKey(c: Crypto, pub: bytes)
    ensures var s := Numeral(BigEndian(c.sha256(pub)));
            NodeID(c, pub) <= s && |NodeID(c, pub)| == if |s| > 30 then 30 else |s|
  {
  }

  // ---- TypeScript ---------------------------------------------------------------------------

  /** Bitwise or of two unbounded numbers. */
  function Or(a: nat, b: nat): nat {
    if a == 0 && b == 0 then 0
    else 2 * Or(a / 2, b / 2) + if a % 2 == 1 || b % 2 == 1 then 1 else 0
  }

  /** n << k */
  function Shift(n: nat, k: nat): nat {
    if k == 0 then n else 2 * Shift(n, k - 1)
  }

  lemma {:induction false} OrZero(n: nat)
    ensures Or(n, 0) == n
  {
    if n > 0 { OrZero(n / 2); }
  }

  /** Into the `k` bits that a shift leaves free, or is addition. */
  lemma {:induction false} ShiftOr(n: nat, k: nat, b: nat)
    requires b < Pow2(k)
    ensures Or(Shift(n, k), b) == Shift(n, k) + b
  {
    if k == 0 {
      OrZero(n);
    } else {
      assert Shift(n, k) / 2 == Shift(n, k - 1);
      ShiftOr(n, k - 1, b / 2);
    }
  }

  lemma {:induction false} ShiftIsTimes(n: nat, k: nat)
    ensures Shift(n, k) == n * Pow2(k)
  {
    if k > 0 { ShiftIsTimes(n, k - 1); }
  }

  lemma ShiftOrByte(n: nat, b: byte)
    ensures Or(Shift(n, 8), b as nat) == n * 256 + b as nat
  {
    assert Pow2(8) == 256;
    ShiftOr(n, 8, b as nat);
    ShiftIsTimes(n, 8);
  }

  /** The client's pubkeyToNodeId computes the id that Go computes. */
  method PubkeyToNodeId(c: Crypto, pubkeyBytes: bytes) returns (id: string)
    ensures id == NodeID(c, pubkeyBytes)
  {
    var hash := c.sha256(pubkeyBytes);
    var n := 0;
    for i := 0 to |hash|
      invariant n == BigEndian(hash[..i])
    {
      ShiftOrByte(n, hash[i]);
      assert hash[..i + 1][..i] == hash[..i];
      n := Or(Shift(n, 8), hash[i] as nat);
    }
    assert hash[..|hash|] == hash;
    id := Take(Numeral(n), ID_LENGTH);
  }

  // ---- The demo page --------------------------------------------------------------------

  /** The digits its division loop collects: none for zero. */
  function Digits(n: nat): string {
    if n == 0 then "" else Numeral(n)
  }

  function DemoId(digest: bytes): string {
    Take(PadStart(Digits(BigEndian(digest)), 50), ID_LENGTH)
  }

  lemma {:induction false} HexNumberOfEncode(b: bytes)
    ensures AllHex(Encode(b)) && HexNumber(Encode(b)) == BigEndian(b)
  {
    if b != [] {
      var t := Encode(b[..|b| - 1]);
      HexNumberOfEncode(b[..|b| - 1]);
      EncodeLast(b);
      var hi, lo := b[|b| - 1] as nat / 16, b[|b| - 1] as nat % 16;
      HexNumberAppend(t, hi);
      HexNumberAppend(t + [DigitChar(hi)], lo);
      assert Encode(b) == t + [DigitChar(hi)] + [DigitChar(lo)];
    }
  }

  /** Hex text read as a number is the big-endian number of the bytes. */
  lemma HexNumberOfText(b: bytes)
    ensures AllHex(ToHex(b)) && HexNumber(ToHex(b)) == BigEndian(b)
  {
    ToHexIsEncode(b);
    HexNumberOfEncode(b);
  }

  lemma HexNumberAppend(s: string, x: nat)
    requires AllHex(s) && x < 16
    ensures AllHex(s + [DigitChar(x)]) && HexNumber(s + [DigitChar(x)]) == 16 * HexNumber(s) + x
  {
    NibbleRoundTrip(x);
    assert (s + [DigitChar(x)])[..|s|] == s;
  }

  lemma {:induction false} EncodeLast(b: bytes)
    requires b != []
    ensures var x := b[|b| - 1] as nat;
            Encode(b) == Encode(b[..|b| - 1]) + [DigitChar(x / 16), DigitChar(x % 16)]
  {
    if |b| == 1 {
      assert b[1..] == [] && b[..0] == [];
    } else {
      EncodeLast(b[1..]);
      assert b[1..][..|b| - 2] == b[..|b| - 1][1..];
    }
  }

  lemma DigitsMove(n: nat, s: string)
    requires n > 0
    ensures Digits(n) + s == Digits(n / 36) + ([DigitChar(n % 36)] + s)
  {
  }

  /** hexToBytes of the demo page. */
  method HexToBytes(hex: string) returns (r: bytes)
    ensures r == Pairs(hex)
  {
    var arr := new byte[|hex| / 2];
    for i := 0 to arr.Length
      invariant forall k :: 0 <= k < i ==> arr[k] == PairAt(hex, k)
    {
      arr[i] := ToUint8(ParseInt16(hex[2 * i..2 * i + 2]));
    }
    r := arr[..];
  }

  method DemoPubkeyToNodeId(c: Crypto, pubKeyHex: string) returns (id: string)
    ensures id == DemoId(c.sha256(Pairs(pubKeyHex)))
  {
    var pubBytes := HexToBytes(pubKeyHex);
    var hash := c.sha256(pubBytes);
    HexNumberOfText(hash);
    var n := HexNumber(ToHex(hash));
    var s := "";
    while n > 0
      invariant Digits(BigEndian(hash)) == Digits(n) + s
    {
      DigitsMove(n, s);
      s := [DigitChar(n % 36)] + s;
      n := n / 36;
    }
    assert Digits(0) + s == s;
    id := Take(PadStart(s, 50), ID_LENGTH);
  }

  lemma {:induction false} BigEndianBound(b: bytes)
    ensures BigEndian(b) < Pow256(|b|)
  {
    if b != [] { BigEndianBound(b[..|b| - 1]); }
  }

  function Pow256(k: nat): nat {
    if k == 0 then 1 else 256 * Pow256(k - 1)
  }

  lemma {:induction false} Pow256Adds(j: nat, k: nat)
    ensures Pow256(j + k) == Pow256(j) * Pow256(k)
  {
    if j > 0 { Pow256Adds(j - 1, k); }
  }

  lemma {:induction false} Pow36Adds(j: nat, k: nat)
    ensures Pow36(j + k) == Pow36(j) * Pow36(k)
  {
    if j > 0 { Pow36Adds(j - 1, k); }
  }

  lemma Pow256Of32()
    ensures Pow256(32) == 115792089237316195423570985008687907853269984665640564039457584007913129639936
  {
    Pow256Adds(1, 1);
    Pow256Adds(2, 2);
    Pow256Adds(4, 4);
    Pow256Adds(8, 8);
    Pow256Adds(16, 16);
  }

  lemma Pow36Of25()
    ensures Pow36(25) == 808281277464764060643139600456536293376
  {
    assert Pow36(1) == 36;
    Pow36Adds(1, 1);
    Pow36Adds(2, 1);
    Pow36Adds(3, 3);
    Pow36Adds(6, 6);
    Pow36Adds(12, 12);
    Pow36Adds(24, 1);
  }

  lemma Pow36Of50()
    ensures Pow36(50) == 653318623500070906096690267158057820537143710472954871543071966369497141477376
  {
    Pow36Of25();
    Pow36Adds(25, 25);
  }

  /** Every 32-byte digest has at most 50 digits. */
  lemma FiftyDigits()
    ensures Pow256(32) < Pow36(50)
  {
    Pow256Of32();
    Pow36Of50();
  }

  /** The demo page's id is the node's id exactly for digests of 50 digits. */
  lemma DemoAgrees(digest: bytes)
    requires |digest| == 32
    ensures DemoId(digest) == GoId(digest) <==> BigEndian(digest) >= Pow36(49)
  {
    var n := BigEndian(digest);
    BigEndianBound(digest);
    FiftyDigits();
    LengthAtMost(n, 50);
    LengthAtMost(n, 49);
    IdMeaning(digest);
    NoLeadingZero(n);
    if n < Pow36(49) && n > 0 {
      assert DemoId(digest)[0] == '0' != GoId(digest)[0];
    }
  }

  lemma {:induction false} BigEndianZeros(k: nat)
    ensures BigEndian(seq(k, _ => 0)) == 0
  {
    if k > 0 {
      BigEndianZeros(k - 1);
      assert seq(k, _ => 0 as byte)[..k - 1] == seq(k - 1, _ => 0 as byte);
    }
  }

  /** A digest for which they differ: of 32 zero bytes Go makes "0", the demo page 30 zeros. */
  lemma DemoDiffers() returns (digest: bytes)
    ensures |digest| == 32 && GoId(digest) == "0" && |DemoId(digest)| == 30
  {
    digest := seq(32, _ => 0);
    BigEndianZeros(32);
  }
}
