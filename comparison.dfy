/** Which verdict the comparison of the two group counts reaches: the branch
    structure of performComparison, without its message text. */
module Comparison {
  import opened Arith

  datatype Verdict =
    | NeedBoth   // one of the groups is empty: nothing to compare
    | Equal      // the count ratio is within one percent of 1
    | ALarger    // group A has the larger count
    | BLarger    // group B has the larger count

  function RealAbs(r: real): real {
    if r < 0.0 then -r else r
  }

  /** The ratio test, restated over the integers: for positive counts,
      |a/b - 1| < 0.01 holds exactly when 100*|a - b| < b, and a/b > 1
      exactly when a > b. */
  lemma RatioTest(a: nat, b: nat)
    requires a > 0 && b > 0
    ensures RealAbs(a as real / b as real - 1.0) < 0.01 <==>
      100 * (if a < b then b - a else a - b) < b
    ensures a as real / b as real > 1.0 <==> a > b
  {
    var ar, br := a as real, b as real;
    DivMul(ar, br);
    Band(ar / br, br, ar);
  }

  lemma DivMul(ar: real, br: real)
    requires br > 0.0
    ensures (ar / br) * br == ar
  {
  }

  /** For r*b == a with b > 0: r is within one percent of 1 exactly when
      a is within one percent of b, measured against b. */
  lemma Band(r: real, br: real, ar: real)
    requires br > 0.0 && r * br == ar
    ensures RealAbs(r - 1.0) < 0.01 <==> 100.0 * RealAbs(ar - br) < br
    ensures r > 1.0 <==> ar > br
  {
    var u := RealAbs(r - 1.0);
    var v := RealAbs(ar - br);
    UnitScale(r, br, ar);
    assert u * br == v;
    if u < 0.01 {
      RealMulLe(u, 0.01, br);
      assert v <= 0.01 * br;
      if v == 0.01 * br {
        Cancel(u, 0.01, br);
      }
    } else {
      RealMulLe(0.01, u, br);
    }
  }

  /** Scaling the distance of r from 1 by b gives the distance of a from b. */
  lemma UnitScale(r: real, br: real, ar: real)
    requires br > 0.0 && r * br == ar
    ensures RealAbs(r - 1.0) * br == RealAbs(ar - br)
    ensures r > 1.0 <==> ar > br
  {
    assert (r - 1.0) * br == ar - br;
    if r > 1.0 {
      RealMulLe(1.0, r, br);
      if ar == br {
        Cancel(r, 1.0, br);
      }
    } else {
      RealMulLe(r, 1.0, br);
      assert (1.0 - r) * br == br - ar;
    }
  }

  /** performComparison: nothing to compare when either count is 0;
      "equal" when the ratio A/B is within one percent of 1; otherwise the
      group with the larger count is named. */
  function Compare(countA: nat, countB: nat): (v: Verdict)
    ensures v == NeedBoth <==> countA == 0 || countB == 0
    ensures v == Equal <==> (countA > 0 && countB > 0 &&
      100 * (if countA < countB then countB - countA else countA - countB) < countB)
    ensures v == ALarger <==> countB > 0 && countA > countB && 100 * (countA - countB) >= countB
    ensures v == BLarger <==> countA > 0 && countA < countB && 100 * (countB - countA) >= countB
  {
    if countA == 0 || countB == 0 then NeedBoth
    else
      RatioTest(countA, countB);
      var ratio := countA as real / countB as real;
      if RealAbs(ratio - 1.0) < 0.01 then Equal
      else if ratio > 1.0 then ALarger
      else BLarger
  }

  /** Up to 100 units per group the one-percent band holds only equal counts. */
  lemma EqualMeansSameCountUpTo100(countA: nat, countB: nat)
    requires 1 <= countA <= 100 && 1 <= countB <= 100
    ensures Compare(countA, countB) == Equal <==> countA == countB
  {
  }

  /** The band is measured relative to B, so the verdict is not symmetric:
      100 against 101 is "equal", yet 101 against 100 names A as larger. */
  lemma EqualityNotSymmetric()
    ensures Compare(100, 101) == Equal
    ensures Compare(101, 100) == ALarger
  {
  }

  /** What survives swapping the groups: a "B is larger" verdict becomes an
      "A is larger" verdict, and "equal" with A >= B stays "equal". */
  lemma SwapVerdict(countA: nat, countB: nat)
    ensures Compare(countA, countB) == BLarger ==> Compare(countB, countA) == ALarger
    ensures Compare(countA, countB) == Equal && countA >= countB ==> Compare(countB, countA) == Equal
  {
  }
}
