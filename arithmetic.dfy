/** Facts about Euclidean division used by the cycling proofs. */
module Arithmetic {

  lemma MulPos(x: int, k: int)
    requires k > 0 && x >= 1
    ensures x * k >= k
  {
    var y := x - 1;
    assert x * k == y * k + k;
    assert y * k >= 0;
  }

  /** Quotient and remainder are the only pair with a == q * k + r and 0 <= r < k. */
  lemma DivModUnique(a: int, k: int, q: int, r: int)
    requires k > 0 && 0 <= r < k && a == q * k + r
    ensures a / k == q && a % k == r
  {
    var q0, r0 := a / k, a % k;
    assert a == q0 * k + r0;
    var d := q - q0;
    assert d * k == r0 - r by { assert q * k - q0 * k == (q - q0) * k; }
    if d >= 1 {
      MulPos(d, k);
    } else if d <= -1 {
      MulPos(-d, k);
    }
  }

  /** Counting one further: the remainder goes up by one, or wraps to zero. */
  lemma ModStep(t: nat, k: nat)
    requires t >= 1 && k >= 1
    ensures (t - 1) % k + 1 < k ==> t % k == (t - 1) % k + 1
    ensures (t - 1) % k + 1 == k ==> t % k == 0
  {
    var q, r := (t - 1) / k, (t - 1) % k;
    if r + 1 < k {
      DivModUnique(t, k, q, r + 1);
    } else {
      assert t == (q + 1) * k by { assert (q + 1) * k == q * k + k; }
      DivModUnique(t, k, q + 1, 0);
    }
  }

  lemma MulMono(a: int, b: int, k: int)
    requires 0 <= a <= b && k >= 0
    ensures a * k <= b * k
  {
    assert b * k - a * k == (b - a) * k;
    if b > a && k > 0 {
      MulPos(b - a, k);
    }
  }

  /** An index below p * k splits into a block below p and an offset below k. */
  lemma DivBelow(j: nat, p: nat, k: nat)
    requires k > 0 && j < p * k
    ensures j / k < p && j == (j / k) * k + j % k
  {
    if j / k >= p {
      MulMono(p, j / k, k);
    }
  }

  /** Moving a cursor below k on by one, wrapping to zero at k, is adding one
      modulo k. */
  lemma CursorWraps(c: nat, k: nat)
    requires c < k
    ensures (if c + 1 >= k then 0 else c + 1) == (c + 1) % k
  {
    if c + 1 < k {
      DivModUnique(c + 1, k, 0, c + 1);
    } else {
      DivModUnique(c + 1, k, 1, 0);
    }
  }

  /** A product with one factor lowered by one: (m - 1) * k + k == k * m. */
  lemma MulPred(m: int, k: int)
    ensures (m - 1) * k + k == k * m
  {
  }
}
