/**
 Wrap-around comparison of the queue's unsigned indices
 (lib/concurrentqueue/concurrentqueue.h, `circular_less_than`).
 */
module Circular {
  import Arith

  /** `circular_less_than` on unsigned words of 2 * half values: the wrapped difference exceeds half. */
  predicate CircularLess(half: int, a: int, b: int)
    requires half > 0
  {
    (a - b) % (2 * half) > half
  }

  /**
   For indices less than one whole period apart, comparing the truncated words agrees with comparing
   the indices exactly when the difference lies in (-half, half].
   */
  lemma AgreesExactlyBelowHalf(half: int, a: int, b: int)
    requires half > 0
    requires -2 * half < a - b < 2 * half
    ensures CircularLess(half, a % (2 * half), b % (2 * half)) == (a < b) <==> -half < a - b <= half
  {
    var m := 2 * half;
    TruncationKeepsDifference(m, a, b);
    if a < b {
      Arith.DivModUnique(m, -1, a - b + m);
      assert m * -1 + (a - b + m) == a - b;
    } else {
      Arith.DivModUnique(m, 0, a - b);
    }
  }

  lemma TruncationKeepsDifference(m: int, a: int, b: int)
    requires m > 0
    ensures (a % m - b % m) % m == (a - b) % m
  {
    var k := b / m - a / m;
    assert a % m - b % m == (a - b) + m * k;
    Arith.AddMultiple(m, a - b, k);
  }
}
