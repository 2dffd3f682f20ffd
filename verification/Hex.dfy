/**
 Hexadecimal text, as section 8 of RFC 4648 has it: Go's encoding/hex, which the node uses, and
 the client's own `toHex` and `fromHex`.
 */
module Hex {
  import opened Options
  import opened Bytes
  import opened Numerals
  import opened Strings

  // ---- Go -------------------------------------------------------------------------------

  /** hex.EncodeToString: two lower-case digits for each byte. */
  function Encode(b: bytes): (s: string)
    ensures |s| == 2 * |b|
  {
    if b == [] then ""
    else [DigitChar(b[0] as nat / 16), DigitChar(b[0] as nat % 16)] + Encode(b[1..])
  }

  predicate IsHexDigit(c: char) {
    '0' <= c <= '9' || 'a' <= c <= 'f' || 'A' <= c <= 'F'
  }

  function HexValue(c: char): (v: nat)
    requires IsHexDigit(c)
    ensures v < 16
  {
    if c <= '9' then c as int - '0' as int
    else if c <= 'F' then c as int - 'A' as int + 10
    else c as int - 'a' as int + 10
  }

  /** hex.DecodeString: both cases of digits are accepted; odd length or any other character is
      an error. */
  function Decode(s: string): Option<bytes> {
    if s == "" then Some([])
    else if |s| == 1 || !IsHexDigit(s[0]) || !IsHexDigit(s[1]) then None
    else match Decode(s[2..])
      case None => None
      case Some(rest) => Some([(16 * HexValue(s[0]) + HexValue(s[1])) as byte] + rest)
  }

  /** The digits and their values, in both cases. */
  lemma HexDigits(v: nat)
    requires v < 16
    ensures IsHexDigit("0123456789abcdef"[v]) && HexValue("0123456789abcdef"[v]) == v
    ensures IsHexDigit("0123456789ABCDEF"[v]) && HexValue("0123456789ABCDEF"[v]) == v
  {
  }

  lemma NoOtherDigits(c: char)
    requires IsHexDigit(c)
    ensures c == "0123456789abcdef"[HexValue(c)] || c == "0123456789ABCDEF"[HexValue(c)]
  {
  }

  lemma NibbleRoundTrip(d: nat)
    requires d < 16
    ensures IsHexDigit(DigitChar(d)) && HexValue(DigitChar(d)) == d
  {
  }

  lemma {:induction false} DecodeEncode(b: bytes)
    ensures Decode(Encode(b)) == Some(b)
  {
    if b != [] {
      NibbleRoundTrip(b[0] as nat / 16);
      NibbleRoundTrip(b[0] as nat % 16);
      DecodeEncode(b[1..]);
      assert Encode(b)[2..] == Encode(b[1..]);
      assert b == [b[0]] + b[1..];
    }
  }

  predicate AllHex(s: string) {
    forall c <- s :: IsHexDigit(c)
  }

  /** What Go accepts. */
  lemma {:induction false} DecodesExactly(s: string)
    ensures Decode(s).Some? <==> |s| % 2 == 0 && AllHex(s)
    ensures Decode(s).Some? ==> |Decode(s).value| == |s| / 2
    ensures Decode(s).Some? ==> forall i :: 0 <= i < |s| / 2 ==>
              IsHexDigit(s[2 * i]) && IsHexDigit(s[2 * i + 1])
              && Decode(s).value[i] as nat == 16 * HexValue(s[2 * i]) + HexValue(s[2 * i + 1])
  {
    if |s| >= 2 {
      DecodesExactly(s[2..]);
      assert s == [s[0], s[1]] + s[2..];
      if Decode(s).Some? {
        forall i | 0 <= i < |s| / 2
          ensures IsHexDigit(s[2 * i]) && IsHexDigit(s[2 * i + 1])
          ensures Decode(s).value[i] as nat == 16 * HexValue(s[2 * i]) + HexValue(s[2 * i + 1])
        {
          if i > 0 {
            assert s[2..][2 * (i - 1)] == s[2 * i] && s[2..][2 * (i - 1) + 1] == s[2 * i + 1];
          }
        }
      }
    } else if |s| == 1 {
      assert |s| % 2 == 1;
    }
  }

  // ---- TypeScript -----------------------------------------------------------------------

  /** toHex: each byte is `b.toString(16).padStart(2, '0')`. */
  function ToHex(b: bytes): string {
    if b == [] then "" else PadStart(Base16(b[0]), 2) + ToHex(b[1..])
  }

  /** A byte's minimal numeral in base 16. */
  function Base16(b: byte): string {
    if b < 16 then [DigitChar(b as nat)] else [DigitChar(b as nat / 16), DigitChar(b as nat % 16)]
  }

  /** Both sides write the same text. */
  lemma {:induction false} ToHexIsEncode(b: bytes)
    ensures ToHex(b) == Encode(b)
  {
    if b != [] {
      ToHexIsEncode(b[1..]);
      if b[0] < 16 { assert PadStart(Base16(b[0]), 2) == "0" + Base16(b[0]); }
    }
  }

  /** The longest prefix of hexadecimal digits. */
  function HexPrefix(s: string): (r: string)
    ensures AllHex(r)
  {
    if s != "" && IsHexDigit(s[0]) then [s[0]] + HexPrefix(s[1..]) else ""
  }

  /** The number that hexadecimal digits stand for. */
  function HexNumber(s: string): nat
    requires AllHex(s)
  {
    if s == "" then 0 else 16 * HexNumber(s[..|s| - 1]) + HexValue(s[|s| - 1])
  }

  /** parseInt(s, 16): leading white space, a sign and 0x are skipped, and so is whatever follows
      the digits; None is NaN. */
  function ParseInt16(s: string): Option<int> {
    var t := TrimStart(s);
    var signed := t != "" && (t[0] == '-' || t[0] == '+');
    var u := if signed then t[1..] else t;
    var v := if |u| >= 2 && u[0] == '0' && (u[1] == 'x' || u[1] == 'X') then u[2..] else u;
    var digits := HexPrefix(v);
    if digits == "" then None
    else
      var n: int := HexNumber(digits);
      Some(if t[0] == '-' then -n else n)
  }

  /** Storing a number in a Uint8Array: modulo 256, with NaN as 0. */
  function ToUint8(n: Option<int>): byte {
    match n
    case None => 0
    case Some(v) => (v % 256) as byte
  }

  /** The byte that fromHex reads at index `i`. */
  function PairAt(s: string, i: nat): byte
    requires 2 * i + 2 <= |s|
  {
    ToUint8(ParseInt16(s[2 * i..2 * i + 2]))
  }

  function Pairs(s: string): (b: bytes)
    ensures |b| == |s| / 2 && forall i :: 0 <= i < |b| ==> b[i] == PairAt(s, i)
  {
    seq(|s| / 2, i requires 0 <= i < |s| / 2 => PairAt(s, i))
  }

  /** fromHex; None is the exception it throws. */
  function FromHexOf(s: string): Option<bytes> {
    if |s| % 2 != 0 then None else Some(Pairs(s))
  }

  method FromHex(hex: string) returns (r: Option<bytes>)
    ensures r == FromHexOf(hex)
    ensures AllHex(hex) ==> r == Decode(hex)
  {
    if AllHex(hex) { AgreesOnHex(hex); }
    if |hex| % 2 != 0 { return None; }
    var out := new byte[|hex| / 2];
    for i := 0 to out.Length
      invariant forall k :: 0 <= k < i ==> out[k] == PairAt(hex, k)
    {
      out[i] := ToUint8(ParseInt16(hex[2 * i..2 * i + 2]));
    }
    assert out[..] == Pairs(hex);
    r := Some(out[..]);
  }

  lemma PairOfDigits(s: string)
    requires |s| == 2 && IsHexDigit(s[0]) && IsHexDigit(s[1])
    ensures ParseInt16(s) == Some(16 * HexValue(s[0]) + HexValue(s[1]))
  {
    assert TrimStart(s) == s;
    assert s[1..] == [s[1]] && s[1..][1..] == "";
    assert HexPrefix(s[1..]) == [s[1]] + HexPrefix(s[1..][1..]);
    assert HexPrefix(s) == [s[0]] + HexPrefix(s[1..]) == s;
    assert s[..1] == [s[0]] && s[..1][..0] == "";
    assert HexNumber(s[..1]) == HexValue(s[0]);
  }

  lemma OneDigit(d: char)
    ensures HexPrefix([d]) == (if IsHexDigit(d) then [d] else "")
    ensures IsHexDigit(d) ==> HexNumber([d]) == HexValue(d)
  {
    assert [d][1..] == "" && [d][..0] == "";
  }

  lemma DigitFirst(c: char, d: char)
    requires IsHexDigit(c) && !IsHexDigit(d)
    ensures ToUint8(ParseInt16([c, d])) as int == HexValue(c)
  {
    var s := [c, d];
    assert TrimStart(s) == s && s[1..] == [d] && s[2..] == "";
    OneDigit(c);
    OneDigit(d);
    assert HexPrefix(s) == [c] + HexPrefix(s[1..]);
    assert HexPrefix(s) == [c] && HexPrefix("") == "";
  }

  lemma SpaceFirst(c: char, d: char)
    requires IsSpace(c)
    ensures ToUint8(ParseInt16([c, d])) as int == if IsHexDigit(d) then HexValue(d) else 0
  {
    assert [c, d][1..] == [d] && [d][1..] == "";
    assert TrimStart([c, d]) == TrimStart([d]) == (if IsSpace(d) then "" else [d]);
    OneDigit(d);
    if !IsSpace(d) && (d == '-' || d == '+') { assert [d][1..] == "" && HexPrefix("") == ""; }
  }

  lemma SignFirst(c: char, d: char)
    requires c == '-' || c == '+'
    ensures ToUint8(ParseInt16([c, d])) as int ==
              if !IsHexDigit(d) then 0 else if c == '+' then HexValue(d) else (256 - HexValue(d)) % 256
  {
    assert TrimStart([c, d]) == [c, d] && [c, d][1..] == [d];
    OneDigit(d);
  }

  lemma OtherFirst(c: char, d: char)
    requires !IsHexDigit(c) && !IsSpace(c) && c != '-' && c != '+'
    ensures ToUint8(ParseInt16([c, d])) == 0
  {
    assert TrimStart([c, d]) == [c, d] && HexPrefix([c, d]) == "";
  }

  /** What the client reads in any two characters: two digits; one digit before anything else, or
      after white space or a sign; and otherwise nothing, which is stored as 0. */
  lemma PairReads(c: char, d: char)
    ensures var r := ToUint8(ParseInt16([c, d])) as int;
            r == if IsHexDigit(c) && IsHexDigit(d) then 16 * HexValue(c) + HexValue(d)
                 else if IsHexDigit(c) then HexValue(c)
                 else if IsHexDigit(d) && (IsSpace(c) || c == '+') then HexValue(d)
                 else if IsHexDigit(d) && c == '-' then (256 - HexValue(d)) % 256
                 else 0
  {
    if IsHexDigit(c) {
      if IsHexDigit(d) { PairOfDigits([c, d]); } else { DigitFirst(c, d); }
    } else if IsSpace(c) {
      SpaceFirst(c, d);
    } else if c == '-' || c == '+' {
      SignFirst(c, d);
    } else {
      OtherFirst(c, d);
    }
  }

  /** On digits both decoders agree. */
  lemma AgreesOnHex(s: string)
    requires AllHex(s)
    ensures FromHexOf(s) == Decode(s)
  {
    DecodesExactly(s);
    if |s| % 2 == 0 {
      forall i | 0 <= i < |s| / 2 ensures PairAt(s, i) == Decode(s).value[i] {
        PairAtDigits(s, i);
      }
      assert Pairs(s) == Decode(s).value;
    }
  }

  lemma PairAtDigits(s: string, i: nat)
    requires 2 * i + 2 <= |s| && IsHexDigit(s[2 * i]) && IsHexDigit(s[2 * i + 1])
    ensures PairAt(s, i) as nat == 16 * HexValue(s[2 * i]) + HexValue(s[2 * i + 1])
  {
    var pair := s[2 * i..2 * i + 2];
    assert pair[0] == s[2 * i] && pair[1] == s[2 * i + 1];
    PairOfDigits(pair);
  }

  /** The two decoders agree exactly on digits and on odd lengths: anything else of even length
      the client reads as some bytes, where Go reports an error. */
  lemma DecodersAgree(s: string)
    ensures FromHexOf(s) == Decode(s) <==> AllHex(s) || |s| % 2 == 1
  {
    DecodesExactly(s);
    if AllHex(s) { AgreesOnHex(s); }
  }

  /** For example "zz". */
  lemma LenientExample()
    ensures FromHexOf("zz") == Some([0]) && Decode("zz") == None
  {
    var s := "zz";
    assert s[2 * 0..2 * 0 + 2] == s;
    assert !IsSpace('z') && TrimStart(s) == s && HexPrefix(s) == "" && ParseInt16(s) == None;
    assert PairAt(s, 0) == 0;
    assert Pairs(s) == [0];
  }

  lemma {:induction false} FromHexToHex(b: bytes)
    ensures FromHexOf(ToHex(b)) == Some(b) && AllHex(ToHex(b)) && |ToHex(b)| == 2 * |b|
  {
    ToHexIsEncode(b);
    DecodeEncode(b);
    DecodesExactly(Encode(b));
    AgreesOnHex(Encode(b));
  }
}
