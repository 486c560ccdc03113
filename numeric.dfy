/**
  * Arithmetic helpers: the numpy absolute value of the classifiers and the
  * uniqueness of Euclidean division the clock arithmetic relies on.
  */
module Numeric {

  /** `np.abs` on one value. */
  function Abs(x: real): (r: real)
    ensures r >= 0.0 && (r == x || r == -x)
  {
    if x < 0.0 then -x else x
  }

  /** Euclidean division is unique. */
  lemma DivMod(a: nat, n: nat, q: nat, r: nat)
    requires n > 0 && r < n && a == q * n + r
    ensures a / n == q && a % n == r
  {
    var q', r' := a / n, a % n;
    assert a == q' * n + r';
    if q' > q {
      MulAtLeast(q' - q, n);
      Distribute(q', q, n);
    } else if q' < q {
      MulAtLeast(q - q', n);
      Distribute(q, q', n);
    }
  }

  lemma Distribute(x: nat, y: nat, n: nat)
    requires x >= y
    ensures (x - y) * n == x * n - y * n
  {
  }

  lemma {:induction false} MulAtLeast(k: nat, n: nat)
    requires k >= 1
    ensures k * n >= n
  {
    if k > 1 {
      MulAtLeast(k - 1, n);
      assert k * n == (k - 1) * n + n;
    }
  }
}
