/** Polynomials over GF(2), the arithmetic in which a cyclic redundancy check is stated.
    A polynomial is the set of the exponents whose coefficient is 1. */
module Gf2 {

  type Poly = set<nat>

  /** Coefficient-wise sum: 1 + 1 = 0, so common terms cancel. */
  function Add(p: Poly, q: Poly): Poly {
    (p - q) + (q - p)
  }

  /** Multiplication by x^k. */
  function Shift(p: Poly, k: nat): Poly {
    set e | e in p :: e + k
  }

  /** The ways to write exponent e as i + j with i a term of q and j a term of g. */
  function Terms(q: Poly, g: Poly, e: nat): set<nat> {
    set i | i in q && i <= e && e - i in g
  }

  /** The coefficient of x^e in q * g: 1 when an odd number of pairs of terms meet there. */
  predicate ProductTerm(q: Poly, g: Poly, e: nat) {
    |Terms(q, g, e)| % 2 == 1
  }

  /** p == q * g */
  ghost predicate IsProduct(p: Poly, q: Poly, g: Poly) {
    forall e: nat :: e in p <==> ProductTerm(q, g, e)
  }

  ghost predicate Below(p: Poly, n: nat) {
    forall e | e in p :: e < n
  }

  /** p and r differ by a multiple of g. */
  ghost predicate Congruent(p: Poly, r: Poly, g: Poly) {
    exists q: Poly :: IsProduct(Add(p, r), q, g)
  }

  /** p has degree n: its leading term is x^n. */
  ghost predicate Degree(p: Poly, n: nat) {
    n in p && Below(p, n + 1)
  }

  /** r is a remainder of p divided by g, for g of degree n. */
  ghost predicate Remainder(r: Poly, p: Poly, g: Poly, n: nat) {
    Below(r, n) && Congruent(r, p, g)
  }

  lemma ParityOfSum(a: set<nat>, b: set<nat>)
    ensures |Add(a, b)| % 2 == (|a| + |b|) % 2
  {
    assert |a| == |a - b| + |a * b|;
    assert |b| == |b - a| + |a * b|;
    assert |Add(a, b)| == |a - b| + |b - a|;
  }

  lemma AddAssociative(a: Poly, b: Poly, c: Poly)
    ensures Add(Add(a, b), c) == Add(a, Add(b, c))
  {}

  lemma TermOfSum(q1: Poly, q2: Poly, g: Poly, e: nat)
    ensures ProductTerm(Add(q1, q2), g, e) <==> (ProductTerm(q1, g, e) != ProductTerm(q2, g, e))
  {
    assert Terms(Add(q1, q2), g, e) == Add(Terms(q1, g, e), Terms(q2, g, e));
    ParityOfSum(Terms(q1, g, e), Terms(q2, g, e));
  }

  lemma ProductAdd(p1: Poly, q1: Poly, p2: Poly, q2: Poly, g: Poly)
    requires IsProduct(p1, q1, g) && IsProduct(p2, q2, g)
    ensures IsProduct(Add(p1, p2), Add(q1, q2), g)
  {
    forall e: nat ensures e in Add(p1, p2) <==> ProductTerm(Add(q1, q2), g, e) {
      TermOfSum(q1, q2, g, e);
    }
  }

  lemma ShiftMember(p: Poly, k: nat, e: nat)
    ensures e in Shift(p, k) <==> e >= k && e - k in p
  {
    if e >= k && e - k in p {
      assert e == (e - k) + k;
    }
  }

  lemma {:induction false} ShiftSize(p: Poly, k: nat)
    ensures |Shift(p, k)| == |p|
  {
    if p != {} {
      var e :| e in p;
      ShiftSize(p - {e}, k);
      forall f: nat ensures f in Shift(p, k) <==> f in Shift(p - {e}, k) + {e + k} {
        ShiftMember(p, k, f);
        ShiftMember(p - {e}, k, f);
      }
      assert Shift(p, k) == Shift(p - {e}, k) + {e + k};
      ShiftMember(p - {e}, k, e + k);
    }
  }

  lemma ShiftAdd(p: Poly, q: Poly, k: nat)
    ensures Shift(Add(p, q), k) == Add(Shift(p, k), Shift(q, k))
  {
    forall e: nat
      ensures e in Shift(Add(p, q), k) <==> e in Add(Shift(p, k), Shift(q, k))
    {
      ShiftMember(Add(p, q), k, e);
      ShiftMember(p, k, e);
      ShiftMember(q, k, e);
    }
  }

  lemma ShiftShift(p: Poly, k: nat, m: nat)
    ensures Shift(Shift(p, k), m) == Shift(p, k + m)
  {
    forall e: nat ensures e in Shift(Shift(p, k), m) <==> e in Shift(p, k + m) {
      ShiftMember(p, k + m, e);
      ShiftMember(Shift(p, k), m, e);
      if e >= m { ShiftMember(p, k, e - m); }
    }
  }

  lemma TermOfShift(q: Poly, g: Poly, k: nat, e: nat)
    ensures ProductTerm(Shift(q, k), g, e) <==> e >= k && ProductTerm(q, g, e - k)
  {
    if e < k {
      forall i: nat ensures i !in Terms(Shift(q, k), g, e) {
        ShiftMember(q, k, i);
      }
      assert Terms(Shift(q, k), g, e) == {};
    } else {
      var a, b := Terms(Shift(q, k), g, e), Terms(q, g, e - k);
      forall i: nat ensures i in a <==> i in Shift(b, k) {
        ShiftMember(q, k, i);
        ShiftMember(b, k, i);
      }
      assert a == Shift(b, k);
      ShiftSize(b, k);
    }
  }

  lemma ProductShift(p: Poly, q: Poly, g: Poly, k: nat)
    requires IsProduct(p, q, g)
    ensures IsProduct(Shift(p, k), Shift(q, k), g)
  {
    forall e: nat ensures e in Shift(p, k) <==> ProductTerm(Shift(q, k), g, e) {
      ShiftMember(p, k, e);
      TermOfShift(q, g, k, e);
    }
  }

  lemma ProductOne(g: Poly)
    ensures IsProduct(g, {0}, g) && IsProduct({}, {}, g)
  {
    forall e: nat ensures e in g <==> ProductTerm({0}, g, e) {
      assert Terms({0}, g, e) == if e in g then {0} else {};
    }
    forall e: nat ensures !ProductTerm({}, g, e) {
      assert Terms({}, g, e) == {};
    }
  }

  lemma MaxExists(q: Poly) returns (m: nat)
    requires q != {}
    ensures Degree(q, m)
  {
    m :| m in q;
    if q == {m} {
    } else {
      var r := MaxExists(q - {m});
      forall e | e in q ensures e < (if r > m then r else m) + 1 {
        assert e == m || e in q - {m};
      }
      if r > m { m := r; }
    }
  }

  /** A nonzero multiple of a polynomial of degree n has a term of degree at least n. */
  lemma MultipleIsLarge(p: Poly, q: Poly, g: Poly, n: nat)
    requires Degree(g, n) && IsProduct(p, q, g) && Below(p, n)
    ensures p == {}
  {
    if q == {} {
      forall e: nat ensures e !in p {
        assert Terms(q, g, e) == {};
      }
    } else {
      var m := MaxExists(q);
      assert Terms(q, g, m + n) == {m} by {
        assert m + n - m == n;
      }
      assert ProductTerm(q, g, m + n);
    }
  }

  lemma CongruentReflexive(p: Poly, g: Poly)
    ensures Congruent(p, p, g)
  {
    ProductOne(g);
    assert Add(p, p) == {};
  }

  lemma CongruentReduce(p: Poly, g: Poly)
    ensures Congruent(Add(p, g), p, g)
  {
    ProductOne(g);
    assert Add(Add(p, g), p) == g;
  }

  lemma CongruentTransitive(p: Poly, q: Poly, r: Poly, g: Poly)
    requires Congruent(p, q, g) && Congruent(q, r, g)
    ensures Congruent(p, r, g)
  {
    var a: Poly :| IsProduct(Add(p, q), a, g);
    var b: Poly :| IsProduct(Add(q, r), b, g);
    ProductAdd(Add(p, q), a, Add(q, r), b, g);
    assert Add(p, r) == Add(Add(p, q), Add(q, r));
  }

  lemma CongruentSymmetric(p: Poly, q: Poly, g: Poly)
    requires Congruent(p, q, g)
    ensures Congruent(q, p, g)
  {
    assert Add(q, p) == Add(p, q);
  }

  lemma CongruentShift(p: Poly, q: Poly, g: Poly, k: nat)
    requires Congruent(p, q, g)
    ensures Congruent(Shift(p, k), Shift(q, k), g)
  {
    var a: Poly :| IsProduct(Add(p, q), a, g);
    ProductShift(Add(p, q), a, g, k);
    ShiftAdd(p, q, k);
  }

  lemma CongruentAdd(p: Poly, q: Poly, s: Poly, g: Poly)
    requires Congruent(p, q, g)
    ensures Congruent(Add(p, s), Add(q, s), g)
  {
    assert Add(Add(p, s), Add(q, s)) == Add(p, q);
  }

  /** Division by g leaves one remainder only. */
  lemma RemainderUnique(r1: Poly, r2: Poly, p: Poly, g: Poly, n: nat)
    requires Degree(g, n)
    requires Remainder(r1, p, g, n) && Remainder(r2, p, g, n)
    ensures r1 == r2
  {
    CongruentSymmetric(r2, p, g);
    CongruentTransitive(r1, p, r2, g);
    var q: Poly :| IsProduct(Add(r1, r2), q, g);
    MultipleIsLarge(Add(r1, r2), q, g, n);
    assert forall e | e in r1 :: e in r2 || e in Add(r1, r2);
    assert forall e | e in r2 :: e in r1 || e in Add(r1, r2);
  }
}
