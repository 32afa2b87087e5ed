/** Standard base64 with padding (RFC 4648, section 4; the radix-64 of RFC 4880, section 6.3),
    as the armor decoder calls it: on text from which white space has been removed. */
module Radix64 {
  import opened Wrappers
  import opened Crc24

  type digit = n: nat | n < 64

  const PAD: byte := 61

  function CharOf(v: digit): byte {
    if v < 26 then v + 65
    else if v < 52 then v + 71
    else if v < 62 then v - 4
    else if v == 62 then 43
    else 47
  }

  predicate IsDigit(c: byte) {
    65 <= c <= 90 || 97 <= c <= 122 || 48 <= c <= 57 || c == 43 || c == 47
  }

  function DigitOf(c: byte): digit
    requires IsDigit(c)
  {
    if 65 <= c <= 90 then c - 65
    else if 97 <= c <= 122 then c - 71
    else if 48 <= c <= 57 then c + 4
    else if c == 43 then 62
    else 63
  }

  function Encode(b: seq<byte>): seq<byte> {
    if |b| == 0 then []
    else if |b| == 1 then [CharOf(b[0] / 4), CharOf(b[0] % 4 * 16), PAD, PAD]
    else if |b| == 2 then
      [CharOf(b[0] / 4), CharOf(b[0] % 4 * 16 + b[1] / 16), CharOf(b[1] % 16 * 4), PAD]
    else
      [CharOf(b[0] / 4), CharOf(b[0] % 4 * 16 + b[1] / 16),
       CharOf(b[1] % 16 * 4 + b[2] / 64), CharOf(b[2] % 64)] + Encode(b[3..])
  }

  /** The three bytes of four digits. */
  function Triple(d0: digit, d1: digit, d2: digit, d3: digit): (byte, byte, byte) {
    (d0 * 4 + d1 / 16, d1 % 16 * 16 + d2 / 4, d2 % 4 * 64 + d3)
  }

  /** None stands for a CorruptInputError. As in the non-strict decoder of the source, the
      unused low bits before the padding are not looked at. */
  function Decode(s: seq<byte>): (r: Option<seq<byte>>)
    decreases |s|
  {
    if |s| == 0 then Some([])
    else if |s| < 4 || !IsDigit(s[0]) || !IsDigit(s[1]) then None
    else if s[2] == PAD then
      if s[3] == PAD && |s| == 4 then Some([Triple(DigitOf(s[0]), DigitOf(s[1]), 0, 0).0])
      else None
    else if !IsDigit(s[2]) then None
    else if s[3] == PAD then
      if |s| == 4 then
        var t := Triple(DigitOf(s[0]), DigitOf(s[1]), DigitOf(s[2]), 0);
        Some([t.0, t.1])
      else None
    else if !IsDigit(s[3]) then None
    else
      match Decode(s[4..])
      case None => None
      case Some(more) =>
        var t := Triple(DigitOf(s[0]), DigitOf(s[1]), DigitOf(s[2]), DigitOf(s[3]));
        Some([t.0, t.1, t.2] + more)
  }

  lemma DigitChar(v: digit)
    ensures IsDigit(CharOf(v)) && DigitOf(CharOf(v)) == v && CharOf(v) != PAD
  {}

  predicate IsRadixChar(c: byte) {
    IsDigit(c) || c == PAD
  }

  lemma CharIsRadix(v: digit)
    ensures IsRadixChar(CharOf(v)) && IsRadixChar(PAD)
  {}

  lemma FourAreRadix(v0: digit, v1: digit, v2: digit, v3: digit)
    ensures forall c | c in [CharOf(v0), CharOf(v1), CharOf(v2), CharOf(v3)] :: IsRadixChar(c)
    ensures forall c | c in [CharOf(v0), CharOf(v1), CharOf(v2), PAD] :: IsRadixChar(c)
    ensures forall c | c in [CharOf(v0), CharOf(v1), PAD, PAD] :: IsRadixChar(c)
  {
    hide CharOf, IsRadixChar;
    CharIsRadix(v0);
    CharIsRadix(v1);
    CharIsRadix(v2);
    CharIsRadix(v3);
  }

  lemma {:induction false} EncodeChars(b: seq<byte>)
    ensures |Encode(b)| % 4 == 0 && forall c | c in Encode(b) :: IsRadixChar(c)
  {
    hide CharOf, IsRadixChar;
    if |b| == 1 {
      FourAreRadix(b[0] / 4, b[0] % 4 * 16, 0, 0);
    } else if |b| == 2 {
      FourAreRadix(b[0] / 4, b[0] % 4 * 16 + b[1] / 16, b[1] % 16 * 4, 0);
    } else if |b| > 2 {
      EncodeChars(b[3..]);
      FourAreRadix(b[0] / 4, b[0] % 4 * 16 + b[1] / 16, b[1] % 16 * 4 + b[2] / 64, b[2] % 64);
    }
  }

  lemma TripleOf(b0: byte, b1: byte, b2: byte)
    ensures Triple(b0 / 4, b0 % 4 * 16 + b1 / 16, b1 % 16 * 4 + b2 / 64, b2 % 64) == (b0, b1, b2)
  {}

  lemma DecodeQuantum(d0: digit, d1: digit, d2: digit, d3: digit, s: seq<byte>)
    ensures Decode([CharOf(d0), CharOf(d1), CharOf(d2), CharOf(d3)] + s)
            == match Decode(s)
               case None => None
               case Some(more) =>
                 var t := Triple(d0, d1, d2, d3); Some([t.0, t.1, t.2] + more)
  {
    DigitChar(d0);
    DigitChar(d1);
    DigitChar(d2);
    DigitChar(d3);
    assert ([CharOf(d0), CharOf(d1), CharOf(d2), CharOf(d3)] + s)[4..] == s;
  }

  lemma DecodePadded(d0: digit, d1: digit, d2: digit)
    ensures Decode([CharOf(d0), CharOf(d1), PAD, PAD]) == Some([Triple(d0, d1, 0, 0).0])
    ensures var t := Triple(d0, d1, d2, 0);
            Decode([CharOf(d0), CharOf(d1), CharOf(d2), PAD]) == Some([t.0, t.1])
  {
    DigitChar(d0);
    DigitChar(d1);
    DigitChar(d2);
  }

  lemma RoundTripEmpty()
    ensures Decode(Encode([])) == Some([])
  {}

  lemma RoundTripShort(b0: byte, b1: byte)
    ensures Decode(Encode([b0])) == Some([b0])
    ensures Decode(Encode([b0, b1])) == Some([b0, b1])
  {
    hide CharOf, DigitOf, Triple, Decode;
    TripleOf(b0, 0, 0);
    DecodePadded(b0 / 4, b0 % 4 * 16, 0);
    TripleOf(b0, b1, 0);
    DecodePadded(b0 / 4, b0 % 4 * 16 + b1 / 16, b1 % 16 * 4);
  }

  lemma EncodeThree(b0: byte, b1: byte, b2: byte, t: seq<byte>)
    ensures Encode([b0, b1, b2] + t)
            == [CharOf(b0 / 4), CharOf(b0 % 4 * 16 + b1 / 16), CharOf(b1 % 16 * 4 + b2 / 64), CharOf(b2 % 64)] + Encode(t)
  {
    hide CharOf;
    var b := [b0, b1, b2] + t;
    assert b[3..] == t && b[0] == b0 && b[1] == b1 && b[2] == b2;
  }

  lemma RoundTripLong(b0: byte, b1: byte, b2: byte, t: seq<byte>)
    requires Decode(Encode(t)) == Some(t)
    ensures Decode(Encode([b0, b1, b2] + t)) == Some([b0, b1, b2] + t)
  {
    hide CharOf, DigitOf, Triple, Decode, Encode;
    EncodeThree(b0, b1, b2, t);
    TripleOf(b0, b1, b2);
    DecodeQuantum(b0 / 4, b0 % 4 * 16 + b1 / 16, b1 % 16 * 4 + b2 / 64, b2 % 64, Encode(t));
  }

  /** Decoding undoes encoding, for every length. */
  lemma {:induction false} RoundTrip(b: seq<byte>)
    ensures Decode(Encode(b)) == Some(b)
  {
    hide *;
    if |b| == 0 {
      RoundTripEmpty();
      assert b == [];
    } else if |b| == 1 {
      RoundTripShort(b[0], 0);
      assert b == [b[0]];
    } else if |b| == 2 {
      RoundTripShort(b[0], b[1]);
      assert b == [b[0], b[1]];
    } else {
      RoundTrip(b[3..]);
      RoundTripLong(b[0], b[1], b[2], b[3..]);
      assert b == [b[0], b[1], b[2]] + b[3..];
    }
  }

  /** The alphabet of table 1 of RFC 4648. */
  lemma AlphabetIs(v: digit)
    ensures CharOf(v) == if v < 26 then 'A' as int + v
                         else if v < 52 then 'a' as int + (v - 26)
                         else if v < 62 then '0' as int + (v - 52)
                         else if v == 62 then '+' as int else '/' as int
    ensures DigitOf(CharOf(v)) == v && PAD == '=' as int
  {}

  lemma QuantumSum(b0: byte, b1: byte, b2: byte)
    ensures b0 / 4 * 0x40000 + (b0 % 4 * 16 + b1 / 16) * 0x1000 + (b1 % 16 * 4 + b2 / 64) * 0x40 + b2 % 64
            == b0 * 0x10000 + b1 * 0x100 + b2
  {}

  /** Four digits are the number that the three bytes are, the highest first. */
  lemma QuantumIsNumber(b0: byte, b1: byte, b2: byte)
    ensures var e := Encode([b0, b1, b2]);
      && |e| == 4 && (forall i | 0 <= i < 4 :: IsDigit(e[i]))
      && DigitOf(e[0]) * 0x40000 + DigitOf(e[1]) * 0x1000 + DigitOf(e[2]) * 0x40 + DigitOf(e[3])
         == b0 * 0x10000 + b1 * 0x100 + b2
  {
    QuantumSum(b0, b1, b2);
    EncodeThree(b0, b1, b2, []);
    var d := [CharOf(b0 / 4), CharOf(b0 % 4 * 16 + b1 / 16), CharOf(b1 % 16 * 4 + b2 / 64), CharOf(b2 % 64)];
    assert [b0, b1, b2] + [] == [b0, b1, b2] && d + [] == d;
    assert Encode([]) == [];
    hide CharOf, DigitOf, IsDigit, Encode;
    DigitChar(b0 / 4);
    DigitChar(b0 % 4 * 16 + b1 / 16);
    DigitChar(b1 % 16 * 4 + b2 / 64);
    DigitChar(b2 % 64);
  }

  /** The texts of RFC 4648, section 4: whole quanta, of digits but for up to two final pads. */
  ghost predicate WellFormed(s: seq<byte>, pads: nat) {
    && |s| % 4 == 0 && pads <= 2 && pads <= |s|
    && (forall i | 0 <= i < |s| - pads :: IsDigit(s[i]))
    && (forall i | |s| - pads <= i < |s| :: s[i] == PAD)
  }

  lemma {:induction false} DecodeAccepts(s: seq<byte>, pads: nat)
    requires WellFormed(s, pads)
    ensures Decode(s).Some? && |Decode(s).value| == |s| / 4 * 3 - pads
  {
    if |s| > 4 {
      assert IsDigit(s[0]) && IsDigit(s[1]) && IsDigit(s[2]) && IsDigit(s[3]);
      DecodeAccepts(s[4..], pads);
    } else if |s| == 4 {
      assert IsDigit(s[0]) && IsDigit(s[1]);
    }
  }

  lemma {:induction false} DecodeRejects(s: seq<byte>)
    requires Decode(s).Some?
    ensures exists pads :: WellFormed(s, pads)
  {
    if |s| == 0 {
      assert WellFormed(s, 0);
    } else if |s| == 4 {
      assert WellFormed(s, if s[2] == PAD then 2 else if s[3] == PAD then 1 else 0);
    } else {
      DecodeRejects(s[4..]);
      var pads :| WellFormed(s[4..], pads);
      assert forall i | 4 <= i < |s| :: s[i] == s[4..][i - 4];
      assert WellFormed(s, pads);
    }
  }

  /** Decode accepts exactly the well-formed texts. */
  lemma DecodeExact(s: seq<byte>)
    ensures Decode(s).Some? <==> exists pads :: WellFormed(s, pads)
  {
    if pads :| WellFormed(s, pads) {
      DecodeAccepts(s, pads);
    }
    if Decode(s).Some? {
      DecodeRejects(s);
    }
  }
}
