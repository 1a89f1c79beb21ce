/** Small facts about multiplication, division and squares, each proved in
    isolation so that the lemmas about the arrangement stay cheap. */
module Arith {

  lemma MulAtLeastOne(c: nat, k: int)
    requires k >= 1
    ensures c * k >= c
  {
  }

  lemma MulLeft(k: nat, a: int, b: int)
    requires a <= b
    ensures k * a <= k * b
  {
  }

  lemma MulLeftStrict(k: nat, a: int, b: int)
    requires k > 0 && a < b
    ensures k * a < k * b
  {
  }

  /** Division by a positive number is determined by quotient and remainder. */
  lemma DivModUnique(n: nat, c: nat, q: nat, r: nat)
    requires c > 0 && r < c && n == q * c + r
    ensures n / c == q && n % c == r
  {
    var q', r' := n / c, n % c;
    assert n == q' * c + r';
    assert q * c - q' * c == c * (q - q');
    if q > q' {
      MulAtLeastOne(c, q - q');
    } else if q < q' {
      MulAtLeastOne(c, q' - q);
    }
  }

  lemma SquareLe(a: nat, b: nat)
    requires a <= b
    ensures a * a <= b * b
  {
    MulLeft(a, a, b);
    MulLeft(b, a, b);
  }

  lemma SquareGrows(a: nat)
    requires a >= 2
    ensures a * a >= 2 * a
  {
    MulLeft(a, 2, a);
  }

  /** Multiplying a bound |d| <= h by a non-negative factor keeps it. */
  lemma ScaledBound(d: real, h: real, s: real)
    requires -h <= d <= h && s >= 0.0
    ensures -(h * s) <= d * s <= h * s
  {
    assert (h - d) * s >= 0.0;
    assert (d + h) * s >= 0.0;
  }

  lemma RealMulLe(x: real, y: real, c: real)
    requires c > 0.0 && x <= y
    ensures x * c <= y * c
  {
  }

  /** A non-zero factor can be cancelled. */
  lemma Cancel(a: real, b: real, s: real)
    requires s != 0.0 && a * s == b * s
    ensures a == b
  {
    assert (a - b) * s == 0.0;
  }

  /** k copies of d added up: multiplication by a count, without products. */
  function Times(k: nat, d: real): real {
    if k == 0 then 0.0 else Times(k - 1, d) + d
  }

  lemma {:induction false} TimesIsMul(k: nat, d: real)
    ensures Times(k, d) == (k as real) * d
  {
    if k > 0 {
      TimesIsMul(k - 1, d);
      assert (k as real) * d == ((k - 1) as real) * d + d;
    }
  }
}
