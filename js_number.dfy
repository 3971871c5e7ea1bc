/**
 * Integer arithmetic as JavaScript performs it on whole numbers.
 * Dafny's `/` and `%` are Euclidean; for a positive divisor Euclidean
 * division is `Math.floor(a / b)`. JavaScript's `%` and date-fns'
 * truncating differences round toward zero instead, so they are spelled
 * out here.
 */
module JsNumber {

  /** `Math.trunc(a / b)` for a positive divisor: rounds toward zero. */
  function TruncDiv(a: int, b: int): (q: int)
    requires b > 0
    ensures a >= 0 ==> 0 <= q * b <= a < q * b + b
    ensures a < 0 ==> q * b - b < a <= q * b <= 0
  {
    if a >= 0 then
      DivBounds(a, b);
      a / b
    else
      DivBounds(-a, b);
      MulNegate((-a) / b, b);
      -((-a) / b)
  }

  /** Euclidean division of a non-negative number by a positive one, in the linear terms callers need. */
  lemma DivBounds(a: int, b: int)
    requires a >= 0 && b > 0
    ensures 0 <= (a / b) * b <= a < (a / b) * b + b
  {
    MulNonNegative(a / b, b);
  }

  lemma MulNonNegative(x: int, d: int)
    requires x >= 0 && d >= 0
    ensures x * d >= 0
  {
  }

  lemma MulNegate(x: int, d: int)
    ensures (-x) * d == -(x * d)
  {
  }

  /** JavaScript's `a % b` for a positive divisor: the sign follows `a`. */
  function JsRem(a: int, b: int): (r: int)
    requires b > 0
    ensures a == TruncDiv(a, b) * b + r
    ensures a >= 0 ==> 0 <= r < b
    ensures a < 0 ==> -b < r <= 0
  {
    a - b * TruncDiv(a, b)
  }

  /** On non-negative operands JavaScript's `%` is Dafny's `%`. */
  lemma JsRemOfNonNegative(a: int, b: int)
    requires a >= 0 && b > 0
    ensures JsRem(a, b) == a % b
  {
  }

  /** `Math.max(a, b)`. */
  function Max(a: int, b: int): (m: int)
    ensures m >= a && m >= b
    ensures m == a || m == b
  {
    if a >= b then a else b
  }

  /** Division and remainder are determined by any decomposition `a == k * d + m` with `0 <= m < d`. */
  lemma DivModUnique(a: int, d: int, k: int, m: int)
    requires d > 0 && 0 <= m < d && a == k * d + m
    ensures a / d == k && a % d == m
  {
    var q, r := a / d, a % d;
    assert (k - q) * d == r - m by {
      assert k * d + m == q * d + r;
      MulDistributes(k, q, d);
    }
    if k - q >= 1 {
      MulAtLeast(k - q, d);
    } else if q - k >= 1 {
      MulAtLeast(q - k, d);
      MulDistributes(q, k, d);
    }
  }

  lemma MulDistributes(x: int, y: int, d: int)
    ensures (x - y) * d == x * d - y * d
  {
  }

  lemma MulAtLeast(x: int, d: int)
    requires x >= 1 && d > 0
    ensures x * d >= d
  {
  }

  lemma MulAddAssociates(q: int, c: int, r: int, b: int)
    ensures (q * c + r) * b == q * (b * c) + r * b
  {
  }

  lemma MulAtMostPredecessor(r: int, c: int, b: int)
    requires 0 <= r < c && b > 0
    ensures r * b + b <= b * c
  {
    assert (c - r) * b >= b by {
      MulAtLeast(c - r, b);
    }
    MulDistributes(c, r, b);
  }

  /** Taking the b-units of a remainder modulo b * c is taking the b-units modulo c. */
  lemma ModDivNested(a: int, b: int, c: int)
    requires a >= 0 && b > 0 && c > 0
    ensures b * c > 0
    ensures (a % (b * c)) / b == (a / b) % c
    ensures a / (b * c) == (a / b) / c
  {
    var q, r := a / b, a % b;
    var q2, r2 := q / c, q % c;
    assert q == q2 * c + r2;
    assert a == q * b + r;
    assert a == q2 * (b * c) + (r2 * b + r) by {
      MulAddAssociates(q2, c, r2, b);
    }
    assert 0 <= r2 * b + r < b * c by {
      MulNonNegative(r2, b);
      MulAtMostPredecessor(r2, c, b);
    }
    DivModUnique(a, b * c, q2, r2 * b + r);
    DivModUnique(r2 * b + r, b, r2, r);
  }
}
