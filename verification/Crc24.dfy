/** The OpenPGP checksum of section 6.1 of RFC 4880 (crc24 in xpki/armor/armor.go).
    Unsigned 32-bit words are natural numbers; shifts wrap explicitly. */
module Crc24 {
  import opened Gf2

  type byte = n: nat | n < 256

  const INIT: nat := 0xb704ce
  const POLY: nat := 0x1864cfb
  const BIT24: nat := 0x1000000
  const WORD: nat := 0x1_0000_0000

  /** Bitwise exclusive or. */
  function Xor(a: nat, b: nat): nat
    decreases a + b
  {
    if a == 0 && b == 0 then 0
    else 2 * Xor(a / 2, b / 2) + (if a % 2 == b % 2 then 0 else 1)
  }

  /** One turn of the inner loop: shift left, and take the polynomial off if bit 24 came up. */
  function Step(crc: nat): nat {
    var s := crc * 2 % WORD;
    if s / BIT24 % 2 == 1 then Xor(s, POLY) else s
  }

  function Steps(crc: nat, n: nat): nat {
    if n == 0 then crc else Step(Steps(crc, n - 1))
  }

  /** One turn of the outer loop. */
  function Feed(crc: nat, b: byte): nat {
    Steps(Xor(crc, b as nat * 0x10000), 8)
  }

  function Crc(crc: nat, d: seq<byte>): nat {
    if d == [] then crc else Feed(Crc(crc, d[..|d| - 1]), d[|d| - 1])
  }

  /** The checksum of a body as Decode computes it, mask included. */
  function Checksum(d: seq<byte>): nat {
    Crc(INIT, d) % BIT24
  }

  method Crc24(start: nat, d: seq<byte>) returns (crc: nat)
    ensures crc == Crc(start, d)
  {
    crc := start;
    for k := 0 to |d|
      invariant crc == Crc(start, d[..k])
    {
      assert d[..k + 1][..k] == d[..k];
      crc := Xor(crc, d[k] as nat * 0x10000);
      ghost var fed := crc;
      for i := 0 to 8
        invariant crc == Steps(fed, i)
      {
        crc := crc * 2 % WORD;
        if crc / BIT24 % 2 == 1 {
          crc := Xor(crc, POLY);
        }
      }
    }
    assert d[..|d|] == d;
  }

  lemma {:induction false} CrcAppend(crc: nat, a: seq<byte>, b: seq<byte>)
    ensures Crc(crc, a + b) == Crc(Crc(crc, a), b)
  {
    if b == [] {
      assert a + b == a;
    } else {
      CrcAppend(crc, a, b[..|b| - 1]);
      assert (a + b)[..|a + b| - 1] == a + b[..|b| - 1];
    }
  }

  // ----- Words as polynomials -----

  /** The binary digits of c that are 1. */
  function PolyOf(c: nat): Poly {
    if c == 0 then {}
    else (if c % 2 == 1 then {0} else {}) + Shift(PolyOf(c / 2), 1)
  }

  function Pow2(n: nat): nat {
    if n == 0 then 1 else 2 * Pow2(n - 1)
  }

  lemma PolyMember(c: nat, e: nat)
    ensures e in PolyOf(c) <==> if e == 0 then c % 2 == 1 else e - 1 in PolyOf(c / 2)
  {
    ShiftMember(PolyOf(c / 2), 1, e);
  }

  lemma {:induction false} PolyXor(a: nat, b: nat)
    ensures PolyOf(Xor(a, b)) == Add(PolyOf(a), PolyOf(b))
    decreases a + b
  {
    if a == 0 && b == 0 {
    } else {
      PolyXor(a / 2, b / 2);
      var x := Xor(a, b);
      assert x / 2 == Xor(a / 2, b / 2);
      forall e: nat ensures e in PolyOf(x) <==> e in Add(PolyOf(a), PolyOf(b)) {
        PolyMember(a, e);
        PolyMember(b, e);
        PolyMember(x, e);
      }
    }
  }

  lemma PolyDouble(c: nat)
    ensures PolyOf(2 * c) == Shift(PolyOf(c), 1)
  {
    assert 2 * c / 2 == c;
    if c == 0 { assert Shift({}, 1) == {}; }
  }

  lemma ScaleTwice(c: nat, n: nat)
    requires n > 0
    ensures c * Pow2(n) == 2 * (c * Pow2(n - 1)) && c * Pow2(0) == c
  {}

  lemma ShiftNone(p: Poly)
    ensures Shift(p, 0) == p
  {}

  lemma {:induction false} PolyScale(c: nat, n: nat)
    ensures PolyOf(c * Pow2(n)) == Shift(PolyOf(c), n)
  {
    hide PolyOf, Shift;
    if n == 0 {
      ScaleTwice(c, 1);
      ShiftNone(PolyOf(c));
    } else {
      PolyScale(c, n - 1);
      PolyDouble(c * Pow2(n - 1));
      ScaleTwice(c, n);
      ShiftShift(PolyOf(c), n - 1, 1);
    }
  }

  lemma {:induction false} PolyBelow(c: nat, n: nat)
    ensures c < Pow2(n) <==> Below(PolyOf(c), n)
    decreases n
  {
    if n == 0 {
      if c != 0 {
        var e := PolyNonzero(c);
      }
    } else {
      PolyBelow(c / 2, n - 1);
      assert c < Pow2(n) <==> c / 2 < Pow2(n - 1);
      if Below(PolyOf(c / 2), n - 1) {
        forall e | e in PolyOf(c) ensures e < n { PolyMember(c, e); }
      }
      if Below(PolyOf(c), n) {
        forall e | e in PolyOf(c / 2) ensures e < n - 1 { PolyMember(c, e + 1); }
      }
    }
  }

  lemma PolyNonzero(c: nat) returns (e: nat)
    requires c != 0
    ensures e in PolyOf(c)
  {
    if c % 2 == 1 {
      e := 0;
    } else {
      e := PolyNonzero(c / 2);
      e := e + 1;
    }
    PolyMember(c, e);
  }

  lemma PolyHalves(a: nat, b: nat)
    requires PolyOf(a) == PolyOf(b)
    ensures a % 2 == b % 2 && PolyOf(a / 2) == PolyOf(b / 2)
  {
    PolyMember(a, 0);
    PolyMember(b, 0);
    var p, q := PolyOf(a / 2), PolyOf(b / 2);
    forall e: nat ensures e in p <==> e in q {
      PolyMember(a, e + 1);
      PolyMember(b, e + 1);
    }
  }

  lemma {:induction false} PolyInjective(a: nat, b: nat)
    requires PolyOf(a) == PolyOf(b)
    ensures a == b
    decreases a
  {
    if a == 0 {
      if b != 0 { var e := PolyNonzero(b); }
    } else {
      PolyHalves(a, b);
      PolyInjective(a / 2, b / 2);
    }
  }

  lemma Powers()
    ensures Pow2(8) == 0x100 && Pow2(16) == 0x10000 && Pow2(24) == BIT24 && Pow2(25) == 2 * BIT24
  {
    assert Pow2(4) == 0x10 && Pow2(8) == 0x100 && Pow2(12) == 0x1000;
    assert Pow2(16) == 0x10000 && Pow2(20) == 0x100000;
  }

  lemma LeadingHalves(a: nat, e: nat, w: nat)
    requires w == Pow2(e) && a < w && e > 0
    ensures w / 2 == Pow2(e - 1) && a / 2 < w / 2
    ensures (a + w) / 2 == a / 2 + w / 2 && (a + w) % 2 == a % 2
  {}

  lemma {:induction false} PolyLeadingBit(a: nat, e: nat, w: nat)
    requires w == Pow2(e) && a < w
    ensures PolyOf(a + w) == PolyOf(a) + {e}
  {
    if e > 0 {
      LeadingHalves(a, e, w);
      PolyLeadingBit(a / 2, e - 1, w / 2);
    }
    hide PolyOf;
    forall i: nat ensures i in PolyOf(a + w) <==> i in PolyOf(a) + {e} {
      PolyMember(a + w, i);
      PolyMember(a, i);
      PolyZero();
    }
  }

  lemma PolyZero()
    ensures PolyOf(0) == {} && PolyOf(1 / 2) == {}
  {}

  /** The generator, of degree 24, that CRC24_POLY of RFC 4880 stands for. */
  ghost function Generator(): (g: Poly)
    ensures Degree(g, 24) && 0 in g
  {
    {24, 23, 18, 17, 14, 11, 10, 7, 6, 5, 4, 3, 1, 0}
  }

  lemma PowersTable()
    ensures Pow2(0) == 1 && Pow2(1) == 2 && Pow2(3) == 0x8 && Pow2(4) == 0x10 && Pow2(5) == 0x20
    ensures Pow2(6) == 0x40 && Pow2(7) == 0x80 && Pow2(10) == 0x400 && Pow2(11) == 0x800
    ensures Pow2(14) == 0x4000 && Pow2(17) == 0x20000 && Pow2(18) == 0x40000
    ensures Pow2(23) == 0x800000 && Pow2(24) == 0x1000000
  {}

  lemma AddBit(c: nat, p: Poly, e: nat, w: nat)
    requires w == Pow2(e) && c < w && PolyOf(c) == p
    ensures PolyOf(c + w) == p + {e}
  {
    PolyLeadingBit(c, e, w);
  }

  lemma Digits5(c: nat)
    requires c == 0x3b
    ensures PolyOf(c) == {5, 4, 3, 1, 0}
  {
    PowersTable();
    AddBit(c - 0x3b, {}, 0, 0x1);
    AddBit(c - 0x3a, {0}, 1, 0x2);
    AddBit(c - 0x38, {1, 0}, 3, 0x8);
    AddBit(c - 0x30, {3, 1, 0}, 4, 0x10);
    AddBit(c - 0x20, {4, 3, 1, 0}, 5, 0x20);
  }

  lemma Digits11(c: nat)
    requires c == 0xcfb
    ensures PolyOf(c) == {11, 10, 7, 6, 5, 4, 3, 1, 0}
  {
    PowersTable();
    Digits5(c - 0xcc0);
    AddBit(c - 0xcc0, {5, 4, 3, 1, 0}, 6, 0x40);
    AddBit(c - 0xc80, {6, 5, 4, 3, 1, 0}, 7, 0x80);
    AddBit(c - 0xc00, {7, 6, 5, 4, 3, 1, 0}, 10, 0x400);
    AddBit(c - 0x800, {10, 7, 6, 5, 4, 3, 1, 0}, 11, 0x800);
  }

  lemma Digits18(c: nat)
    requires c == 0x64cfb
    ensures PolyOf(c) == {18, 17, 14, 11, 10, 7, 6, 5, 4, 3, 1, 0}
  {
    PowersTable();
    Digits11(c - 0x64000);
    AddBit(c - 0x64000, {11, 10, 7, 6, 5, 4, 3, 1, 0}, 14, 0x4000);
    AddBit(c - 0x60000, {14, 11, 10, 7, 6, 5, 4, 3, 1, 0}, 17, 0x20000);
    AddBit(c - 0x40000, {17, 14, 11, 10, 7, 6, 5, 4, 3, 1, 0}, 18, 0x40000);
  }

  lemma GeneratorDigits(c: nat)
    requires c == POLY
    ensures PolyOf(c) == Generator()
  {
    PowersTable();
    Digits18(c - 0x1800000);
    AddBit(c - 0x1800000, {18, 17, 14, 11, 10, 7, 6, 5, 4, 3, 1, 0}, 23, 0x800000);
    AddBit(c - 0x1000000, {23, 18, 17, 14, 11, 10, 7, 6, 5, 4, 3, 1, 0}, 24, 0x1000000);
  }

  lemma XorGenerator(s: nat)
    ensures PolyOf(Xor(s, POLY)) == Add(PolyOf(s), Generator())
  {
    var c: nat := POLY;
    GeneratorDigits(c);
    PolyXor(s, c);
  }

  // ----- The register as a polynomial below x^24 -----

  /** Multiplication by x, reduced by the generator. */
  ghost function TimesX(p: Poly): Poly {
    var s := Shift(p, 1);
    if 24 in s then Add(s, Generator()) else s
  }

  ghost function TimesXn(p: Poly, n: nat): Poly {
    if n == 0 then p else TimesX(TimesXn(p, n - 1))
  }

  lemma TimesXBelow(p: Poly)
    requires Below(p, 24)
    ensures Below(TimesX(p), 24)
  {
    forall e | e in TimesX(p) ensures e < 24 { ShiftMember(p, 1, e); }
  }

  lemma {:induction false} TimesXnBelow(p: Poly, n: nat)
    requires Below(p, 24)
    ensures Below(TimesXn(p, n), 24)
  {
    if n > 0 {
      TimesXnBelow(p, n - 1);
      TimesXBelow(TimesXn(p, n - 1));
    }
  }

  lemma SmallIsBelow(c: nat)
    ensures c < BIT24 <==> Below(PolyOf(c), 24)
  {
    Powers();
    PolyBelow(c, 24);
  }

  lemma StepPoly(c: nat)
    requires c < BIT24
    ensures PolyOf(Step(c)) == TimesX(PolyOf(c))
    ensures Step(c) < BIT24
  {
    var s := c * 2 % WORD;
    assert s == 2 * c;
    PolyDouble(c);
    Powers();
    PolyBelow(s, 24);
    PolyBelow(s, 25);
    assert 24 in PolyOf(s) <==> s / BIT24 % 2 == 1;
    XorGenerator(s);
    SmallIsBelow(c);
    TimesXBelow(PolyOf(c));
    SmallIsBelow(Step(c));
  }

  lemma {:induction false} StepsPoly(c: nat, n: nat)
    requires c < BIT24
    ensures PolyOf(Steps(c, n)) == TimesXn(PolyOf(c), n)
    ensures Steps(c, n) < BIT24
  {
    if n > 0 {
      StepsPoly(c, n - 1);
      StepPoly(Steps(c, n - 1));
    }
  }

  lemma FeedPoly(c: nat, b: byte)
    requires c < BIT24
    ensures PolyOf(Feed(c, b)) == TimesXn(Add(PolyOf(c), Shift(PolyOf(b), 16)), 8)
    ensures Feed(c, b) < BIT24
  {
    Powers();
    PolyXor(c, b as nat * 0x10000);
    PolyScale(b, 16);
    SmallIsBelow(c);
    SmallIsBelow(b as nat * 0x10000);
    SmallIsBelow(Xor(c, b as nat * 0x10000));
    StepsPoly(Xor(c, b as nat * 0x10000), 8);
  }

  /** The register never leaves 24 bits, so the final mask is the identity. */
  lemma {:induction false} CrcSmall(crc: nat, d: seq<byte>)
    requires crc < BIT24
    ensures Crc(crc, d) < BIT24
  {
    if d == [] {
    } else {
      CrcSmall(crc, d[..|d| - 1]);
      FeedPoly(Crc(crc, d[..|d| - 1]), d[|d| - 1]);
    }
  }

  // ----- The checksum is the remainder of a polynomial division -----

  /** A message as a polynomial, first byte first and highest bit first. */
  function Message(d: seq<byte>): Poly {
    if d == [] then {}
    else Add(Shift(Message(d[..|d| - 1]), 8), PolyOf(d[|d| - 1]))
  }

  /** What is divided: the message times x^24, with the initial register added on top. */
  function Dividend(crc: nat, d: seq<byte>): Poly {
    Add(Shift(PolyOf(crc), 8 * |d|), Shift(Message(d), 24))
  }

  lemma TimesXCongruent(p: Poly)
    ensures Congruent(TimesX(p), Shift(p, 1), Generator())
  {
    var s := Shift(p, 1);
    CongruentReflexive(s, Generator());
    CongruentReduce(s, Generator());
  }

  lemma {:induction false} TimesXnCongruent(p: Poly, n: nat)
    ensures Congruent(TimesXn(p, n), Shift(p, n), Generator())
  {
    var g := Generator();
    if n == 0 {
      assert Shift(p, 0) == p;
      CongruentReflexive(p, g);
    } else {
      var s := TimesXn(p, n - 1);
      TimesXnCongruent(p, n - 1);
      CongruentShift(s, Shift(p, n - 1), g, 1);
      ShiftShift(p, n - 1, 1);
      TimesXCongruent(s);
      CongruentTransitive(TimesX(s), Shift(s, 1), Shift(p, n), g);
    }
  }

  lemma FeedCongruent(c: nat, b: byte)
    requires c < BIT24
    ensures Congruent(PolyOf(Feed(c, b)), Add(Shift(PolyOf(c), 8), Shift(PolyOf(b), 24)),
                      Generator())
  {
    FeedPoly(c, b);
    TimesXnCongruent(Add(PolyOf(c), Shift(PolyOf(b), 16)), 8);
    ShiftAdd(PolyOf(c), Shift(PolyOf(b), 16), 8);
    ShiftShift(PolyOf(b), 16, 8);
  }

  lemma ShiftedSum(p: Poly, m: Poly, w: Poly, n: nat)
    ensures Add(Shift(p, n + 8), Shift(Add(Shift(m, 8), w), 24))
            == Add(Shift(Add(Shift(p, n), Shift(m, 24)), 8), Shift(w, 24))
  {
    hide Add, Shift;
    ShiftAdd(Shift(p, n), Shift(m, 24), 8);
    ShiftShift(p, n, 8);
    ShiftShift(m, 24, 8);
    ShiftAdd(Shift(m, 8), w, 24);
    ShiftShift(m, 8, 24);
    AddAssociative(Shift(p, n + 8), Shift(m, 32), Shift(w, 24));
  }

  lemma DividendExtend(crc: nat, front: seq<byte>, b: byte)
    ensures Dividend(crc, front + [b])
            == Add(Shift(Dividend(crc, front), 8), Shift(PolyOf(b), 24))
  {
    hide PolyOf, Add, Shift;
    var d, n := front + [b], 8 * |front|;
    assert d[..|d| - 1] == front && d[|d| - 1] == b;
    ShiftedSum(PolyOf(crc), Message(front), PolyOf(b), n);
    assert 8 * |d| == n + 8;
  }

  lemma {:induction false} CrcCongruent(crc: nat, d: seq<byte>)
    requires crc < BIT24
    ensures Congruent(PolyOf(Crc(crc, d)), Dividend(crc, d), Generator())
  {
    var g := Generator();
    if d == [] {
      assert Dividend(crc, d) == PolyOf(crc);
      CongruentReflexive(PolyOf(crc), g);
    } else {
      var front, b := d[..|d| - 1], d[|d| - 1];
      var c, w := PolyOf(Crc(crc, front)), Shift(PolyOf(b), 24);
      CrcSmall(crc, front);
      CrcCongruent(crc, front);
      FeedCongruent(Crc(crc, front), b);
      CongruentShift(c, Dividend(crc, front), g, 8);
      CongruentAdd(Shift(c, 8), Shift(Dividend(crc, front), 8), w, g);
      CongruentTransitive(PolyOf(Crc(crc, d)), Add(Shift(c, 8), w),
                          Add(Shift(Dividend(crc, front), 8), w), g);
      DividendExtend(crc, front, b);
      assert front + [b] == d;
    }
  }

  /** Of all 24-bit values, the register after d is exactly the remainder of the division. */
  lemma CrcIsRemainder(crc: nat, d: seq<byte>, r: nat)
    requires crc < BIT24 && r < BIT24
    ensures r == Crc(crc, d)
            <==> Remainder(PolyOf(r), Dividend(crc, d), Generator(), 24)
  {
    var c := Crc(crc, d);
    CrcSmall(crc, d);
    CrcCongruent(crc, d);
    SmallIsBelow(c);
    SmallIsBelow(r);
    if Remainder(PolyOf(r), Dividend(crc, d), Generator(), 24) {
      RemainderUnique(PolyOf(r), PolyOf(c), Dividend(crc, d), Generator(), 24);
      PolyInjective(r, c);
    }
  }

  /** The start value of the register, 0xB704CE in section 6.1 of RFC 4880, digit by digit. */
  ghost function InitTerms(): Poly {
    {23, 21, 20, 18, 17, 16, 10, 7, 6, 3, 2, 1}
  }

  lemma MorePowers()
    ensures Pow2(2) == 4 && Pow2(16) == 0x10000 && Pow2(20) == 0x100000 && Pow2(21) == 0x200000
  {
    Powers();
  }

  lemma InitDigits10(c: nat)
    requires c == 0x4ce
    ensures PolyOf(c) == {10, 7, 6, 3, 2, 1}
  {
    PowersTable();
    MorePowers();
    AddBit(c - 0x4ce, {}, 1, 0x2);
    AddBit(c - 0x4cc, {1}, 2, 0x4);
    AddBit(c - 0x4c8, {2, 1}, 3, 0x8);
    AddBit(c - 0x4c0, {3, 2, 1}, 6, 0x40);
    AddBit(c - 0x480, {6, 3, 2, 1}, 7, 0x80);
    AddBit(c - 0x400, {7, 6, 3, 2, 1}, 10, 0x400);
  }

  lemma InitDigits18(c: nat)
    requires c == 0x704ce
    ensures PolyOf(c) == {18, 17, 16, 10, 7, 6, 3, 2, 1}
  {
    PowersTable();
    MorePowers();
    InitDigits10(c - 0x70000);
    AddBit(c - 0x70000, {10, 7, 6, 3, 2, 1}, 16, 0x10000);
    AddBit(c - 0x60000, {16, 10, 7, 6, 3, 2, 1}, 17, 0x20000);
    AddBit(c - 0x40000, {17, 16, 10, 7, 6, 3, 2, 1}, 18, 0x40000);
  }

  lemma InitDigits(c: nat)
    requires c == INIT
    ensures PolyOf(c) == InitTerms()
  {
    PowersTable();
    MorePowers();
    InitDigits18(c - 0xb00000);
    AddBit(c - 0xb00000, {18, 17, 16, 10, 7, 6, 3, 2, 1}, 20, 0x100000);
    AddBit(c - 0xa00000, {20, 18, 17, 16, 10, 7, 6, 3, 2, 1}, 21, 0x200000);
    AddBit(c - 0x800000, {21, 20, 18, 17, 16, 10, 7, 6, 3, 2, 1}, 23, 0x800000);
  }

  /** The checksum of a body: of all 24-bit values, exactly the remainder by the generator of the
      message times x^24 with the start value on top. */
  lemma ChecksumIsRemainder(d: seq<byte>, r: nat)
    requires r < 0x1000000
    ensures r == Checksum(d)
            <==> Remainder(PolyOf(r), Add(Shift(InitTerms(), 8 * |d|), Shift(Message(d), 24)), Generator(), 24)
  {
    hide Crc, PolyOf, Add, Shift, Message, Remainder;
    var start: nat := INIT;
    InitDigits(start);
    ChecksumIsCrc(d, start);
    CrcIsRemainder(start, d, r);
  }

  lemma JoinHalves(x: nat, k: nat, y: nat)
    requires k > 0 && y < Pow2(k)
    ensures var n := x * Pow2(k) + y;
      n % 2 == y % 2 && n / 2 == x * Pow2(k - 1) + y / 2 && y / 2 < Pow2(k - 1)
  {
    var m := x * Pow2(k - 1);
    ScaleTwice(x, k);
    assert x * Pow2(k) + y == 2 * m + y;
  }

  lemma JoinMember(x: Poly, k: nat, y: Poly, yh: Poly, n: Poly, nh: Poly, bit: bool, e: nat)
    requires k > 0 && nh == Add(Shift(x, k - 1), yh)
    requires e in n <==> if e == 0 then bit else e - 1 in nh
    requires e in y <==> if e == 0 then bit else e - 1 in yh
    ensures e in n <==> e in Add(Shift(x, k), y)
  {
    ShiftMember(x, k, e);
    if e > 0 { ShiftMember(x, k - 1, e - 1); }
  }

  /** Digits on top of k others. */
  lemma {:induction false} PolyJoin(x: nat, k: nat, y: nat)
    requires y < Pow2(k)
    ensures PolyOf(x * Pow2(k) + y) == Add(Shift(PolyOf(x), k), PolyOf(y))
  {
    if k == 0 {
      ScaleTwice(x, 1);
      ShiftNone(PolyOf(x));
      PolyZero();
      assert Add(PolyOf(x), {}) == PolyOf(x);
    } else {
      JoinHalves(x, k, y);
      PolyJoin(x, k - 1, y / 2);
      hide PolyOf, Pow2, Shift, Add;
      var n := x * Pow2(k) + y;
      forall e: nat ensures e in PolyOf(n) <==> e in Add(Shift(PolyOf(x), k), PolyOf(y)) {
        PolyMember(n, e);
        PolyMember(y, e);
        JoinMember(PolyOf(x), k, PolyOf(y), PolyOf(y / 2), PolyOf(n), PolyOf(n / 2), y % 2 == 1, e);
      }
    }
  }

  /** Three bytes as a number and as a message are the same polynomial. */
  lemma MessageOfThree(a: byte, b: byte, c: byte)
    ensures PolyOf(a * 0x10000 + b * 0x100 + c) == Message([a, b, c])
  {
    hide PolyOf, Add, Shift;
    Powers();
    MessageNext([], a);
    MessageNext([a], b);
    MessageNext([a, b], c);
    assert [] + [a] == [a] && [a] + [b] == [a, b] && [a, b] + [c] == [a, b, c];
    NoMessage(a);
    PolyJoin(a, 8, b);
    PolyJoin(a * 0x100 + b, 8, c);
    assert (a * 0x100 + b) * 0x100 + c == a * 0x10000 + b * 0x100 + c;
  }

  lemma MessageNext(d: seq<byte>, b: byte)
    ensures Message(d + [b]) == Add(Shift(Message(d), 8), PolyOf(b))
  {}

  lemma NoMessage(a: byte)
    ensures Add(Shift(Message([]), 8), PolyOf(a)) == PolyOf(a)
  {}

  // ----- Error detection -----

  lemma TimesXInjective(p: Poly, q: Poly)
    requires TimesX(p) == TimesX(q)
    ensures p == q
  {
    ShiftMember(p, 1, 0);
    ShiftMember(q, 1, 0);
    var g := Generator();
    assert 24 in Shift(p, 1) <==> 0 in TimesX(p);
    assert Shift(p, 1) == if 0 in TimesX(p) then Add(TimesX(p), g) else TimesX(p);
    assert Shift(q, 1) == if 0 in TimesX(q) then Add(TimesX(q), g) else TimesX(q);
    forall e: nat ensures e in p <==> e in q {
      ShiftMember(p, 1, e + 1);
      ShiftMember(q, 1, e + 1);
    }
  }

  lemma {:induction false} TimesXnInjective(p: Poly, q: Poly, n: nat)
    requires TimesXn(p, n) == TimesXn(q, n)
    ensures p == q
  {
    if n > 0 {
      TimesXInjective(TimesXn(p, n - 1), TimesXn(q, n - 1));
      TimesXnInjective(p, q, n - 1);
    }
  }

  lemma AddCancels(p: Poly, q: Poly, s: Poly)
    requires Add(s, p) == Add(s, q)
    ensures p == q
  {
    assert p == Add(s, Add(s, p));
    assert q == Add(s, Add(s, q));
  }

  /** Two runs over the same bytes end together only if they started together. */
  lemma {:induction false} CrcInjective(a: nat, b: nat, d: seq<byte>)
    requires a < BIT24 && b < BIT24 && Crc(a, d) == Crc(b, d)
    ensures a == b
  {
    if d == [] {
    } else {
      var front, w := d[..|d| - 1], d[|d| - 1];
      var x, y, s := Crc(a, front), Crc(b, front), Shift(PolyOf(w), 16);
      CrcSmall(a, front);
      CrcSmall(b, front);
      FeedPoly(x, w);
      FeedPoly(y, w);
      TimesXnInjective(Add(PolyOf(x), s), Add(PolyOf(y), s), 8);
      assert Add(s, PolyOf(x)) == Add(PolyOf(x), s) && Add(s, PolyOf(y)) == Add(PolyOf(y), s);
      AddCancels(PolyOf(x), PolyOf(y), s);
      PolyInjective(x, y);
      CrcInjective(a, b, front);
    }
  }

  lemma TimesXLinear(p: Poly, q: Poly)
    ensures TimesX(Add(p, q)) == Add(TimesX(p), TimesX(q))
  {
    ShiftAdd(p, q, 1);
  }

  lemma {:induction false} TimesXnLinear(p: Poly, q: Poly, n: nat)
    ensures TimesXn(Add(p, q), n) == Add(TimesXn(p, n), TimesXn(q, n))
  {
    if n > 0 {
      TimesXnLinear(p, q, n - 1);
      TimesXLinear(TimesXn(p, n - 1), TimesXn(q, n - 1));
    }
  }

  lemma {:induction false} TimesXnCompose(p: Poly, m: nat, n: nat)
    ensures TimesXn(TimesXn(p, m), n) == TimesXn(p, m + n)
  {
    if n > 0 {
      TimesXnCompose(p, m, n - 1);
    }
  }

  lemma PlainEarlier(p: Poly, n: nat)
    requires n > 0 && Below(Shift(p, n), 24)
    ensures Below(Shift(p, n - 1), 24)
  {
    forall e {:trigger e in Shift(p, n - 1)} | e in Shift(p, n - 1) ensures e < 24 {
      ShiftMember(p, n - 1, e);
      ShiftMember(p, n, e + 1);
    }
  }

  /** While the degree stays below 24 multiplication by x^n is a plain shift. */
  lemma {:induction false} TimesXnPlain(p: Poly, n: nat)
    requires Below(Shift(p, n), 24)
    ensures TimesXn(p, n) == Shift(p, n)
  {
    if n == 0 {
      assert Shift(p, 0) == p;
    } else {
      PlainEarlier(p, n);
      TimesXnPlain(p, n - 1);
      ShiftShift(p, n - 1, 1);
    }
  }

  lemma AbsorbByte(p: Poly, m: Poly, w: Poly, k: nat)
    requires k <= 16 && Below(Shift(w, 16), 24)
    ensures TimesXn(Add(TimesXn(Add(p, Shift(m, 24 - k)), k), Shift(w, 16)), 8)
            == TimesXn(Add(p, Shift(Add(Shift(m, 8), w), 16 - k)), k + 8)
  {
    var s, q := Shift(w, 16 - k), Add(p, Shift(m, 24 - k));
    ShiftShift(w, 16 - k, k);
    TimesXnPlain(s, k);
    TimesXnLinear(q, s, k);
    ShiftAdd(Shift(m, 8), w, 16 - k);
    ShiftShift(m, 8, 16 - k);
    assert Add(q, s) == Add(p, Shift(Add(Shift(m, 8), w), 16 - k));
    TimesXnCompose(Add(q, s), k, 8);
  }

  /** Up to three bytes fit in the register before any of them is reduced. */
  lemma {:induction false} CrcOfShort(crc: nat, x: seq<byte>)
    requires crc < BIT24 && |x| <= 3
    ensures PolyOf(Crc(crc, x))
            == TimesXn(Add(PolyOf(crc), Shift(Message(x), 24 - 8 * |x|)), 8 * |x|)
  {
    if x == [] {
      assert Shift(Message(x), 24) == {};
      assert Add(PolyOf(crc), {}) == PolyOf(crc);
    } else {
      var front, b, k := x[..|x| - 1], x[|x| - 1], 8 * (|x| - 1);
      CrcSmall(crc, front);
      CrcOfShort(crc, front);
      FeedPoly(Crc(crc, front), b);
      BytePlain(b);
      AbsorbByte(PolyOf(crc), Message(front), PolyOf(b), k);
    }
  }

  lemma BytePlain(b: byte)
    ensures Below(PolyOf(b), 8) && Below(Shift(PolyOf(b), 16), 24)
  {
    Powers();
    PolyBelow(b, 8);
    forall e | e in Shift(PolyOf(b), 16) ensures e < 24 {
      ShiftMember(PolyOf(b), 16, e);
    }
  }

  lemma {:induction false} MessageInjective(x: seq<byte>, y: seq<byte>)
    requires |x| == |y| && Message(x) == Message(y)
    ensures x == y
  {
    if x == [] {
    } else {
      var n := |x| - 1;
      var mx, my := Message(x[..n]), Message(y[..n]);
      BytePlain(x[n]);
      BytePlain(y[n]);
      forall e: nat ensures e in PolyOf(x[n]) <==> e in PolyOf(y[n]) {
        ShiftMember(mx, 8, e);
        ShiftMember(my, 8, e);
      }
      PolyInjective(x[n], y[n]);
      forall e: nat ensures e in mx <==> e in my {
        ShiftMember(mx, 8, e + 8);
        ShiftMember(my, 8, e + 8);
      }
      MessageInjective(x[..n], y[..n]);
      assert x == x[..n] + [x[n]];
    }
  }

  lemma ShiftInjective(p: Poly, q: Poly, k: nat)
    requires Shift(p, k) == Shift(q, k)
    ensures p == q
  {
    forall e: nat ensures e in p <==> e in q {
      ShiftMember(p, k, e + k);
      ShiftMember(q, k, e + k);
    }
  }

  lemma ShortInjective(s: Poly, p: Poly, q: Poly, k: nat, n: nat)
    requires TimesXn(Add(s, Shift(p, k)), n) == TimesXn(Add(s, Shift(q, k)), n)
    ensures p == q
  {
    TimesXnInjective(Add(s, Shift(p, k)), Add(s, Shift(q, k)), n);
    AddCancels(Shift(p, k), Shift(q, k), s);
    ShiftInjective(p, q, k);
  }

  lemma CrcShortInjective(s: nat, x: seq<byte>, y: seq<byte>)
    requires s < BIT24 && |x| == |y| <= 3 && Crc(s, x) == Crc(s, y)
    ensures x == y
  {
    hide Crc, PolyOf, Message, TimesXn, Add, Shift;
    CrcOfShort(s, x);
    CrcOfShort(s, y);
    ShortInjective(PolyOf(s), Message(x), Message(y), 24 - 8 * |x|, 8 * |x|);
    MessageInjective(x, y);
  }

  lemma BurstFrom(crc: nat, a: seq<byte>, x: seq<byte>, y: seq<byte>, t: seq<byte>)
    requires crc < BIT24 && |x| == |y| <= 3
    requires Crc(crc, a + x + t) == Crc(crc, a + y + t)
    ensures x == y
  {
    var s := Crc(crc, a);
    CrcSmall(crc, a);
    CrcSmall(s, x);
    CrcSmall(s, y);
    CrcAppend(crc, a, x);
    CrcAppend(crc, a, y);
    CrcAppend(crc, a + x, t);
    CrcAppend(crc, a + y, t);
    CrcInjective(Crc(s, x), Crc(s, y), t);
    CrcShortInjective(s, x, y);
  }

  /** The mask in Decode takes nothing away. */
  lemma ChecksumIsCrc(d: seq<byte>, start: nat)
    requires start == INIT
    ensures Checksum(d) == Crc(start, d) < BIT24
  {
    CrcSmall(start, d);
    var c := Crc(start, d);
    assert c % BIT24 == c;
  }

  /** Bodies of one length that differ only inside three consecutive bytes have different
      checksums. */
  lemma BurstDetected(a: seq<byte>, x: seq<byte>, y: seq<byte>, t: seq<byte>)
    requires |x| == |y| <= 3
    requires Checksum(a + x + t) == Checksum(a + y + t)
    ensures x == y
  {
    var start: nat := INIT;
    ChecksumIsCrc(a + x + t, start);
    ChecksumIsCrc(a + y + t, start);
    BurstFrom(start, a, x, y, t);
  }
}
