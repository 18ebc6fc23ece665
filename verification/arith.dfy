/**
 Facts about Euclidean division and multiplication by a positive factor,
 stated once so that the navigation and dot proofs stay linear.
 */
module Arith {

  /** Euclidean division is unique: a decomposition `a == q * b + r` with
      `0 <= r < b` is the one `/` and `%` compute. */
  lemma DivisionUnique(a: int, q: int, b: int, r: int)
    requires b > 0 && 0 <= r < b && a == q * b + r
    ensures a % b == r && a / b == q
  {
    var q', r' := a / b, a % b;
    var k := q - q';
    assert k * b == q * b - q' * b;
    assert k * b == r' - r;
    MulSign(k, b);
  }

  lemma MulSign(k: int, b: int)
    requires b > 0
    ensures k >= 1 ==> k * b >= b
    ensures k <= -1 ==> k * b <= -b
  {
    if k >= 1 {
      assert k * b == (k - 1) * b + b;
      assert (k - 1) * b >= 0;
    } else if k <= -1 {
      assert k * b == -((-k - 1) * b) - b;
      assert (-k - 1) * b >= 0;
    }
  }

  /** Multiplying by a positive factor preserves strict order. */
  lemma MulLess(x: int, y: int, K: int)
    requires K >= 1 && x * K < y * K
    ensures x < y
  {
    if x >= y {
      MulSign(x - y + 1, K);
    }
  }

  /** A multiple of `b` is `q * b` for the quotient `q`. */
  lemma Decompose(a: int, b: int) returns (q: int)
    requires b > 0 && a % b == 0
    ensures a == q * b
  {
    q := a / b;
  }

  /** The residue of a successor. */
  lemma ModSucc(a: int, M: int)
    requires M >= 1
    ensures (a + 1) % M == if a % M == M - 1 then 0 else a % M + 1
  {
    var q, x := a / M, a % M;
    assert a == q * M + x;
    if x == M - 1 {
      DivisionUnique(a + 1, q + 1, M, 0);
    } else {
      DivisionUnique(a + 1, q, M, x + 1);
    }
  }

  /** Moving by a whole number of periods keeps the residue. */
  lemma ModShift(a: int, n: int, k: int)
    requires n >= 1
    ensures (a + k * n) % n == a % n
  {
    DivisionUnique(a + k * n, a / n + k, n, a % n);
  }
}
