/**
 Polynomials with coefficients 0 and 1, and remainders modulo one of them.  A polynomial is the set of the exponents that
 occur in it.
 */
module Polynomials {
  type Polynomial = set<nat>

  /** The sum, which is also the difference. */
  function Plus(p: Polynomial, q: Polynomial): Polynomial {
    (p - q) + (q - p)
  }

  /** The product with the k-th power of x. */
  function Shift(p: Polynomial, k: nat): Polynomial {
    set e | e in p :: e + k
  }

  /** The product with the polynomial whose coefficients are given, the constant one first. */
  function Times(q: seq<bool>, g: Polynomial): Polynomial
    decreases |q|
  {
    if q == [] then {}
    else
      var n := |q| - 1;
      Plus(Times(q[..n], g), if q[n] then Shift(g, n) else {})
  }

  /** The difference is a multiple of g. */
  ghost predicate Congruent(p: Polynomial, r: Polynomial, g: Polynomial) {
    exists q: seq<bool> :: Times(q, g) == Plus(p, r)
  }

  predicate Below(p: Polynomial, d: nat) {
    forall e :: e in p ==> e < d
  }

  /** r is the remainder of p modulo g, which has degree d. */
  ghost predicate IsRemainder(p: Polynomial, r: Polynomial, g: Polynomial, d: nat) {
    Below(r, d) && Congruent(p, r, g)
  }

  // ---------------------------------------------------------------- sums and shifts

  lemma PlusAssociative(p: Polynomial, q: Polynomial, r: Polynomial)
    ensures Plus(Plus(p, q), r) == Plus(p, Plus(q, r))
  {
  }

  lemma PlusCommutative(p: Polynomial, q: Polynomial)
    ensures Plus(p, q) == Plus(q, p)
  {
  }

  lemma PlusSelf(p: Polynomial)
    ensures Plus(p, p) == {} && Plus(p, {}) == p && Plus({}, p) == p
  {
  }

  lemma PlusCancel(p: Polynomial, q: Polynomial, r: Polynomial)
    ensures Plus(Plus(p, q), Plus(q, r)) == Plus(p, r)
  {
  }

  /** Sums may be regrouped. */
  lemma PlusFour(p: Polynomial, q: Polynomial, r: Polynomial, s: Polynomial)
    ensures Plus(Plus(p, q), Plus(r, s)) == Plus(Plus(p, r), Plus(q, s))
  {
    hide Plus;
    PlusAssociative(p, q, Plus(r, s));
    PlusAssociative(q, r, s);
    PlusCommutative(q, r);
    PlusAssociative(r, q, s);
    PlusAssociative(p, r, Plus(q, s));
  }

  lemma InShift(p: Polynomial, k: nat, e: nat)
    ensures e in Shift(p, k) <==> e >= k && e - k in p
  {
    if e >= k && e - k in p {
      assert e == (e - k) + k;
    }
  }

  lemma ShiftPlus(p: Polynomial, q: Polynomial, k: nat)
    ensures Shift(Plus(p, q), k) == Plus(Shift(p, k), Shift(q, k))
  {
    hide Shift;
    forall e: nat ensures e in Shift(Plus(p, q), k) <==> e in Plus(Shift(p, k), Shift(q, k)) {
      InShift(Plus(p, q), k, e);
      InShift(p, k, e);
      InShift(q, k, e);
    }
  }

  lemma ShiftTwice(p: Polynomial, j: nat, k: nat)
    ensures Shift(Shift(p, j), k) == Shift(p, j + k)
  {
    hide Shift;
    forall e: nat ensures e in Shift(Shift(p, j), k) <==> e in Shift(p, j + k) {
      InShift(Shift(p, j), k, e);
      InShift(p, j + k, e);
      if e >= k {
        InShift(p, j, e - k);
      }
    }
  }

  lemma ShiftNone(p: Polynomial)
    ensures Shift(p, 0) == p && Shift({}, 0) == {}
  {
    hide Shift;
    forall e: nat ensures e in Shift(p, 0) <==> e in p {
      InShift(p, 0, e);
    }
    forall e: nat ensures e !in Shift({}, 0) {
      InShift({}, 0, e);
    }
  }

  lemma ShiftEmpty(k: nat)
    ensures Shift({}, k) == {}
  {
  }

  // ---------------------------------------------------------------- multiples

  function Coefficient(q: seq<bool>, i: nat): bool {
    i < |q| && q[i]
  }

  /** The sum of two factors, with n coefficients. */
  function SumOf(a: seq<bool>, b: seq<bool>, n: nat): (r: seq<bool>)
    ensures |r| == n
  {
    seq(n, i requires 0 <= i < n => Coefficient(a, i) != Coefficient(b, i))
  }

  /** The first n terms of a product. */
  function Upto(q: seq<bool>, g: Polynomial, n: nat): Polynomial
    decreases n
  {
    if n == 0 then {} else Plus(Upto(q, g, n - 1), if Coefficient(q, n - 1) then Shift(g, n - 1) else {})
  }

  lemma {:induction false} TimesIsUpto(q: seq<bool>, g: Polynomial, n: nat)
    requires n >= |q|
    ensures Upto(q, g, n) == Times(q, g)
    decreases n
  {
    hide Plus, Shift;
    if n > |q| {
      TimesIsUpto(q, g, n - 1);
      PlusSelf(Upto(q, g, n - 1));
    } else if n > 0 {
      SameUpto(q, q[..n - 1], g, n - 1);
      TimesIsUpto(q[..n - 1], g, n - 1);
    }
  }

  lemma {:induction false} SameUpto(a: seq<bool>, b: seq<bool>, g: Polynomial, n: nat)
    requires forall i: nat :: i < n ==> Coefficient(a, i) == Coefficient(b, i)
    ensures Upto(a, g, n) == Upto(b, g, n)
    decreases n
  {
    hide Plus, Shift, Coefficient;
    if n > 0 {
      SameUpto(a, b, g, n - 1);
    }
  }

  lemma {:induction false} UptoPlus(a: seq<bool>, b: seq<bool>, g: Polynomial, m: nat, n: nat)
    requires n <= m
    ensures Upto(SumOf(a, b, m), g, n) == Plus(Upto(a, g, n), Upto(b, g, n))
    decreases n
  {
    hide Plus, Shift;
    if n == 0 {
      PlusSelf({});
    } else {
      UptoPlus(a, b, g, m, n - 1);
      var x := if Coefficient(a, n - 1) then Shift(g, n - 1) else {};
      var y := if Coefficient(b, n - 1) then Shift(g, n - 1) else {};
      PlusFour(Upto(a, g, n - 1), x, Upto(b, g, n - 1), y);
      PlusSelf(Shift(g, n - 1));
      PlusSelf({});
    }
  }

  /** The sum of two multiples is a multiple. */
  lemma MultiplesAdd(a: seq<bool>, b: seq<bool>, g: Polynomial)
    ensures exists q: seq<bool> :: Times(q, g) == Plus(Times(a, g), Times(b, g))
  {
    hide Plus, Times, SumOf;
    var n := |a| + |b|;
    TimesIsUpto(a, g, n);
    TimesIsUpto(b, g, n);
    UptoPlus(a, b, g, n, n);
    TimesIsUpto(SumOf(a, b, n), g, n);
    assert Times(SumOf(a, b, n), g) == Plus(Times(a, g), Times(b, g));
  }

  /** A multiple times x is a multiple. */
  lemma {:induction false} MultipleShifts(q: seq<bool>, g: Polynomial)
    ensures Times([false] + q, g) == Shift(Times(q, g), 1)
    decreases |q|
  {
    hide Plus, Shift;
    if q == [] {
      ShiftEmpty(1);
      PlusSelf({});
      assert ([false] + q)[..0] == [];
    } else {
      var n := |q| - 1;
      MultipleShifts(q[..n], g);
      assert ([false] + q)[..n + 1] == [false] + q[..n];
      ShiftPlus(Times(q[..n], g), if q[n] then Shift(g, n) else {}, 1);
      ShiftTwice(g, n, 1);
      ShiftEmpty(1);
    }
  }

  // ---------------------------------------------------------------- congruence

  lemma CongruentSelf(p: Polynomial, g: Polynomial)
    ensures Congruent(p, p, g)
  {
    PlusSelf(p);
    assert Times([], g) == Plus(p, p);
  }

  lemma CongruentTrans(p: Polynomial, q: Polynomial, r: Polynomial, g: Polynomial)
    requires Congruent(p, q, g) && Congruent(q, r, g)
    ensures Congruent(p, r, g)
  {
    hide Plus, Times;
    var a :| Times(a, g) == Plus(p, q);
    var b :| Times(b, g) == Plus(q, r);
    MultiplesAdd(a, b, g);
    PlusCancel(p, q, r);
  }

  lemma CongruentFlip(p: Polynomial, q: Polynomial, g: Polynomial)
    requires Congruent(p, q, g)
    ensures Congruent(q, p, g)
  {
    hide Plus, Times;
    PlusCommutative(p, q);
  }

  lemma CongruentPlus(p: Polynomial, q: Polynomial, r: Polynomial, g: Polynomial)
    requires Congruent(p, q, g)
    ensures Congruent(Plus(p, r), Plus(q, r), g)
  {
    hide Plus, Times;
    PlusFour(p, r, q, r);
    PlusSelf(r);
    PlusSelf(Plus(p, q));
  }

  lemma CongruentShift1(p: Polynomial, q: Polynomial, g: Polynomial)
    requires Congruent(p, q, g)
    ensures Congruent(Shift(p, 1), Shift(q, 1), g)
  {
    hide Plus, Times, Shift;
    var a :| Times(a, g) == Plus(p, q);
    MultipleShifts(a, g);
    ShiftPlus(p, q, 1);
    assert Times([false] + a, g) == Plus(Shift(p, 1), Shift(q, 1));
  }

  lemma {:induction false} CongruentShift(p: Polynomial, q: Polynomial, g: Polynomial, k: nat)
    requires Congruent(p, q, g)
    ensures Congruent(Shift(p, k), Shift(q, k), g)
    decreases k
  {
    hide Shift, Congruent;
    if k == 0 {
      ShiftNone(p);
      ShiftNone(q);
    } else {
      CongruentShift(p, q, g, k - 1);
      CongruentShift1(Shift(p, k - 1), Shift(q, k - 1), g);
      ShiftTwice(p, k - 1, 1);
      ShiftTwice(q, k - 1, 1);
    }
  }

  // ---------------------------------------------------------------- there is one remainder

  lemma {:induction false} TimesBelow(q: seq<bool>, g: Polynomial, d: nat)
    requires Below(g, d + 1)
    ensures Below(Times(q, g), |q| + d)
    decreases |q|
  {
    hide Shift;
    if q != [] {
      var n := |q| - 1;
      TimesBelow(q[..n], g, d);
      forall e | e in Times(q, g) ensures e < |q| + d {
        InShift(g, n, e);
      }
    }
  }

  /** A multiple of a polynomial of degree d that has no exponent from d on is zero. */
  lemma {:induction false} SmallMultipleIsZero(q: seq<bool>, g: Polynomial, d: nat)
    requires Below(g, d + 1) && d in g && Below(Times(q, g), d)
    ensures Times(q, g) == {}
    decreases |q|
  {
    hide Shift;
    if q != [] {
      var n := |q| - 1;
      TimesBelow(q[..n], g, d);
      InShift(g, n, n + d);
      assert q[n] ==> n + d in Times(q, g);
      assert Times(q, g) == Times(q[..n], g);
      SmallMultipleIsZero(q[..n], g, d);
    }
  }

  lemma RemainderIsUnique(p: Polynomial, r: Polynomial, r': Polynomial, g: Polynomial, d: nat)
    requires Below(g, d + 1) && d in g && IsRemainder(p, r, g, d) && IsRemainder(p, r', g, d)
    ensures r == r'
  {
    hide Congruent, Times;
    CongruentFlip(p, r, g);
    CongruentTrans(r, p, r', g);
    SameSmall(r, r', g, d);
  }

  lemma SameSmall(r: Polynomial, r': Polynomial, g: Polynomial, d: nat)
    requires Below(g, d + 1) && d in g && Below(r, d) && Below(r', d) && Congruent(r, r', g)
    ensures r == r'
  {
    hide Times;
    var q :| Times(q, g) == Plus(r, r');
    SmallMultipleIsZero(q, g, d);
    assert r - r' == {} && r' - r == {};
  }

  // ---------------------------------------------------------------- bits as a polynomial

  /** The polynomial of a string of bits, the highest power first. */
  function Poly(bits: seq<bool>): Polynomial {
    set i: nat | i < |bits| && bits[i] :: |bits| - 1 - i
  }

  lemma InPoly(bits: seq<bool>, e: nat)
    ensures e in Poly(bits) <==> e < |bits| && bits[|bits| - 1 - e]
  {
    if e < |bits| && bits[|bits| - 1 - e] {
      var i := |bits| - 1 - e;
      assert e == |bits| - 1 - i;
    }
  }

  lemma PolyConcat(a: seq<bool>, b: seq<bool>)
    ensures Poly(a + b) == Plus(Shift(Poly(a), |b|), Poly(b))
  {
    hide Poly, Shift;
    forall e: nat ensures e in Poly(a + b) <==> e in Plus(Shift(Poly(a), |b|), Poly(b)) {
      InPoly(a + b, e);
      InPoly(b, e);
      InShift(Poly(a), |b|, e);
      if e >= |b| {
        InPoly(a, e - |b|);
      }
    }
  }
}
