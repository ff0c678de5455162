/**
 * JavaScript's remainder operator. Unlike Dafny's Euclidean `%`, the sign of
 * JavaScript's `a % b` follows the dividend (truncating division).
 */
module JsArith {

  /** Uniqueness of Euclidean division: any decomposition a == q * n + r with 0 <= r < n is the one `/` and `%` give. */
  lemma DivModUnique(a: int, n: int, q: int, r: int)
    requires n > 0 && 0 <= r < n && a == q * n + r
    ensures a / n == q && a % n == r
  {
    var q', r' := a / n, a % n;
    assert a == q' * n + r';
    assert (q - q') * n == r' - r;
    if q > q' {
      MulAtLeast(q - q', n);
    } else if q < q' {
      MulAtLeast(q' - q, n);
    }
  }

  lemma MulAtLeast(k: int, n: int)
    requires k >= 1 && n > 0
    ensures k * n >= n
  {
  }

  /** `a % n` as JavaScript evaluates it, for a positive divisor. */
  function JsRem(a: int, n: int): (r: int)
    requires n > 0
    ensures a >= 0 ==> 0 <= r < n
    ensures a < 0 ==> -n < r <= 0
    ensures (a - r) % n == 0
  {
    if a >= 0 then
      DivModUnique(a - a % n, n, a / n, 0);
      a % n
    else
      DivModUnique(a + (-a) % n, n, -((-a) / n), 0);
      -((-a) % n)
  }

  /** Near the range [0, n) the remainder is a shift by at most one multiple of n. */
  lemma JsRemNearRange(a: int, n: int)
    requires n > 0
    ensures 0 <= a < n ==> JsRem(a, n) == a
    ensures n <= a < 2 * n ==> JsRem(a, n) == a - n
    ensures -n < a < 0 ==> JsRem(a, n) == a
  {
    if 0 <= a < n {
      DivModUnique(a, n, 0, a);
    } else if n <= a < 2 * n {
      DivModUnique(a, n, 1, a - n);
    } else if -n < a < 0 {
      DivModUnique(-a, n, 0, -a);
    }
  }
}
