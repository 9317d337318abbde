/** Facts about remainders that the solver does not find on its own. */
module Arith {

  lemma MultipleIsFar(m: int, d: int)
    requires m > 0
    ensures d >= 1 ==> m * d >= m
    ensures d <= -1 ==> m * d <= -m
  {
    if d >= 1 {
      assert m * d - m == m * (d - 1);
    } else if d <= -1 {
      assert m * d + m == m * (d + 1);
    }
  }

  lemma DivModUnique(m: int, q: int, r: int)
    requires m > 0 && 0 <= r < m
    ensures (m * q + r) / m == q && (m * q + r) % m == r
  {
    var x := m * q + r;
    var d := x / m - q;
    assert m * d == r - x % m;
    MultipleIsFar(m, d);
  }

  lemma AddMultiple(m: int, x: int, k: int)
    requires m > 0
    ensures (x + m * k) % m == x % m
    ensures (x + m * k) / m == x / m + k
  {
    var q, r := x / m, x % m;
    assert x + m * k == m * (q + k) + r;
    DivModUnique(m, q + k, r);
  }

  /** Reducing a summand first does not change the remainder. */
  lemma ModAdd(m: int, x: int, y: int)
    requires m > 0
    ensures (x % m + y) % m == (x + y) % m
  {
    assert x + y == (x % m + y) + m * (x / m);
    AddMultiple(m, x % m + y, x / m);
  }

  /** Two numbers less than m apart have equal remainders only if they are equal. */
  lemma ModInjective(m: int, x: int, y: int)
    requires m > 0 && -m < x - y < m
    ensures x % m == y % m ==> x == y
  {
    var d := x / m - y / m;
    assert x - y == m * d + (x % m - y % m);
    MultipleIsFar(m, d);
  }

  lemma Distribute(m: int, p: int, q: int)
    ensures m * (p - q) == m * p - m * q
  {
  }

  /** Numbers with equal remainders are a multiple apart. */
  lemma SameRemainder(m: int, x: int, y: int)
    requires m > 0 && x % m == y % m
    ensures x == y + m * (x / m - y / m)
  {
    Distribute(m, x / m, y / m);
  }

  /** The position of x on a ring of m places: the remainder, reached by whole rounds. */
  function Ring(x: int, m: nat): (r: nat)
    requires m > 0
    ensures r < m
    decreases if x < 0 then m - x else x
  {
    if x < 0 then Ring(x + m, m) else if x >= m then Ring(x - m, m) else x
  }

  lemma {:induction false} RingIsMod(x: int, m: nat)
    requires m > 0
    ensures Ring(x, m) == x % m
    decreases if x < 0 then m - x else x
  {
    if x < 0 {
      RingIsMod(x + m, m);
      AddMultiple(m, x, 1);
    } else if x >= m {
      RingIsMod(x - m, m);
      AddMultiple(m, x, -1);
    } else {
      DivModUnique(m, 0, x);
    }
  }

  lemma RingAdd(x: int, y: int, m: nat)
    requires m > 0
    ensures Ring(Ring(x, m) + y, m) == Ring(x + y, m)
  {
    RingIsMod(x, m);
    RingIsMod(x % m + y, m);
    RingIsMod(x + y, m);
    ModAdd(m, x, y);
  }

  lemma RingInjective(x: int, y: int, m: nat)
    requires m > 0 && x - y < m && y - x < m
    ensures Ring(x, m) == Ring(y, m) ==> x == y
  {
    RingIsMod(x, m);
    RingIsMod(y, m);
    ModInjective(m, x, y);
  }

  lemma RingRound(x: int, m: nat)
    requires m > 0
    ensures Ring(x + m, m) == Ring(x, m)
  {
    RingIsMod(x, m);
    RingIsMod(x + m, m);
    AddMultiple(m, x, 1);
  }

  function PowerOfTwo(k: nat): (r: nat)
    ensures r > 0
  {
    if k == 0 then 1 else 2 * PowerOfTwo(k - 1)
  }

  lemma PowerZero()
    ensures PowerOfTwo(0) == 1
  {
  }

  lemma PowerStep(k: nat)
    requires k > 0
    ensures PowerOfTwo(k) == 2 * PowerOfTwo(k - 1) && PowerOfTwo(k - 1) > 0
  {
  }

  lemma {:induction false} DivideTwice(x: nat, n: nat)
    requires n > 0
    ensures x / 2 / PowerOfTwo(n - 1) == x / PowerOfTwo(n)
  {
    PowerStep(n);
    var m := PowerOfTwo(n - 1);
    var q, r := x / 2 / m, x / 2 % m;
    assert x == 2 * (m * q + r) + x % 2;
    assert 2 * (m * q) == (2 * m) * q;
    DivModUnique(2 * m, q, 2 * r + x % 2);
  }

  lemma DoubledRemainder(x: nat, m: nat, d: nat)
    requires m > 0 && d < 2
    ensures (2 * x + d) % (2 * m) == 2 * (x % m) + d
  {
    var q, r := x / m, x % m;
    assert 2 * (m * q) == (2 * m) * q;
    DivModUnique(2 * m, q, 2 * r + d);
  }
}
