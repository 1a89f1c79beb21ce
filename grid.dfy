/** The grid arrangement engine of the scale explorer: how many rows and
    columns a group of `count` identical units is laid out in, and where on
    the floor plane the unit with a given index sits relative to the group's
    base point. */
module Grid {
  import opened Arith

  /** A point (or offset) in the 3-D scene. */
  datatype Point = Point(x: real, y: real, z: real)

  /** The result of the arrangement calculation: a rows x cols lattice with
      the given centre-to-centre spacing. */
  datatype Arrangement = Arrangement(rows: nat, cols: nat, spacing: real)

  /** Centre-to-centre distance between neighbouring units. */
  const Spacing: real := 1.5

  function Abs(n: int): nat {
    if n < 0 then -n else n
  }

  // ---------------------------------------------------------------------
  // Integer square roots, standing in for Math.sqrt and Math.ceil.
  // ---------------------------------------------------------------------

  /** The largest s with s*s <= n; for an integer rows the test
      `rows <= Math.sqrt(n)` holds exactly when `rows <= FloorSqrt(n)`. */
  function FloorSqrt(n: nat): (s: nat)
    ensures s * s <= n < (s + 1) * (s + 1)
  {
    if n == 0 then 0
    else
      var t := FloorSqrt(n - 1);
      if (t + 1) * (t + 1) <= n then t + 1 else t
  }

  /** Every s with s*s <= n lies at or below FloorSqrt(n). */
  lemma BelowFloorSqrt(s: nat, n: nat)
    requires s * s <= n
    ensures s <= FloorSqrt(n)
  {
    var f := FloorSqrt(n);
    if f + 1 <= s {
      SquareLe(f + 1, s);
    }
  }

  /** FloorSqrt is determined by its bracketing property. */
  lemma FloorSqrtUnique(s: nat, n: nat)
    requires s * s <= n < (s + 1) * (s + 1)
    ensures s == FloorSqrt(n)
  {
    BelowFloorSqrt(s, n);
    var f := FloorSqrt(n);
    if s + 1 <= f {
      SquareLe(s + 1, f);
    }
  }

  /** From 2 on, the square root lies strictly below the number. */
  lemma FloorSqrtBelow(n: nat)
    requires n >= 2
    ensures FloorSqrt(n) < n
  {
    var f := FloorSqrt(n);
    if f >= n {
      SquareGrows(f);
    }
  }

  /** Math.ceil(Math.sqrt(n)): the least s with n <= s*s. */
  function CeilSqrt(n: nat): (s: nat)
    ensures n <= s * s
    ensures n == 0 ==> s == 0
    ensures n > 0 ==> (s - 1) * (s - 1) < n
  {
    var f := FloorSqrt(n);
    if f * f == n then f else f + 1
  }

  // ---------------------------------------------------------------------
  // The arrangement: specification and the scanning loop.
  // ---------------------------------------------------------------------

  /** The largest divisor of n among 1..r (1 when none of 2..r divides n). */
  function SquarestDivisor(n: nat, r: nat): (d: nat)
    ensures 1 <= d && (d <= r || d == 1)
    ensures n % d == 0
    ensures forall e :: d < e <= r ==> n % e != 0
    decreases r
  {
    if r <= 1 then 1
    else if n % r == 0 then r
    else SquarestDivisor(n, r - 1)
  }

  predicate IsPrime(n: nat) {
    n >= 2 && forall d :: 2 <= d < n ==> n % d != 0
  }

  /** A divisor r with r*r <= n pairs with a cofactor n/r no smaller than r. */
  lemma FactorPairOrdered(n: nat, r: nat)
    requires 1 <= r && r * r <= n && n % r == 0
    ensures r * (n / r) == n && r <= n / r
  {
    var c := n / r;
    assert r * c == n;
    if c < r {
      MulLeftStrict(r, c, r);
    }
  }

  /** The divisor chosen below the square root makes an ordered factor pair. */
  lemma SquarestPair(n: nat)
    requires n >= 1
    ensures var r := SquarestDivisor(n, FloorSqrt(n));
      r * r <= n && r * (n / r) == n && r <= n / r
  {
    var f := FloorSqrt(n);
    var r := SquarestDivisor(n, f);
    if r <= f {
      SquareLe(r, f);
    }
    FactorPairOrdered(n, r);
  }

  /** The arrangement that calculateGridArrangement returns for `count`:
      1x1 for a single unit; otherwise the exact factor pair whose smaller
      factor is the largest divisor of count not above its square root; and
      the ceil(sqrt(count)) square when that divisor is 1. */
  function GridArrangement(count: nat): (a: Arrangement)
    ensures a.spacing == Spacing
    ensures a.rows <= a.cols
    ensures count <= a.rows * a.cols
    ensures count >= 1 ==> a.rows >= 1 && a.cols >= 1
  {
    if count == 1 then Arrangement(1, 1, Spacing)
    else
      var r := SquarestDivisor(count, FloorSqrt(count));
      if r == 1 then
        var s := CeilSqrt(count);
        Arrangement(s, s, Spacing)
      else
        SquarestPair(count);
        Arrangement(r, count / r, Spacing)
  }

  /** Between two divisors b < r of n with r*r <= n, the larger one leaves
      the strictly smaller difference between cofactor and divisor. */
  lemma DiffDecreases(n: nat, b: nat, r: nat)
    requires 1 <= b < r && r * r <= n
    requires n % b == 0 && n % r == 0
    ensures n / r - r < n / b - b
  {
    var cb, cr := n / b, n / r;
    assert b * cb == n && r * cr == n;
    if cr > cb {
      MulLeftStrict(cr, b, r);
      MulLeft(b, cb, cr);
    }
  }

  /** For n >= 2, a divisor r >= 2 of n leaves a difference below that of
      the 1 x n pair. */
  lemma DiffBelowTrivial(n: nat, r: nat)
    requires 2 <= r && r * r <= n && n % r == 0
    ensures n / r - r < n - 1
  {
    FactorPairOrdered(n, r);
    var c := n / r;
    MulLeft(c, 2, r);
  }

  /** One iteration of the scan: with bestRows the squarest divisor found
      below rows, a divisor rows beats it exactly when rows >= 2, and the
      squarest divisor up to rows is the one the iteration keeps. */
  lemma ScanStep(count: nat, rows: nat, bestRows: nat)
    requires count >= 2 && 1 <= rows && rows * rows <= count
    requires bestRows == SquarestDivisor(count, rows - 1)
    ensures rows < count
    ensures bestRows * (count / bestRows) == count && bestRows <= count / bestRows
    ensures count % rows == 0 ==>
      (rows <= count / rows && (count / rows - rows < count / bestRows - bestRows <==> rows >= 2))
    ensures SquarestDivisor(count, rows) ==
      if count % rows == 0 && rows >= 2 then rows else bestRows
  {
    MulLeft(rows, 1, rows);
    if rows == count {
      SquareGrows(rows);
    }
    if bestRows <= rows - 1 {
      SquareLe(bestRows, rows - 1);
      SquareLe(rows - 1, rows);
    }
    FactorPairOrdered(count, bestRows);
    if count % rows == 0 {
      FactorPairOrdered(count, rows);
      if rows >= 2 {
        DiffDecreases(count, bestRows, rows);
      }
    }
  }

  /** calculateGridArrangement: scans rows = 1, 2, ... while rows*rows <= count,
      keeping the exact factor pair with the smallest cols - rows, and falls
      back to a square when no divisor beat the 1 x count pair. */
  method CalculateGridArrangement(count: nat) returns (a: Arrangement)
    ensures a == GridArrangement(count)
  {
    if count == 1 {
      return Arrangement(1, 1, Spacing);
    }
    var bestRows: nat, bestCols: nat := 1, count;
    var bestDiff := Abs(bestCols - bestRows);
    var rows: nat := 1;
    while rows * rows <= count
      invariant 1 <= rows && (rows - 1) * (rows - 1) <= count
      invariant bestRows == SquarestDivisor(count, rows - 1)
      invariant bestCols == count / bestRows
      invariant bestDiff == Abs(bestCols - bestRows)
      decreases count - rows
    {
      ScanStep(count, rows, bestRows);
      if count % rows == 0 {
        var cols := count / rows;
        var diff := Abs(cols - rows);
        if diff < bestDiff {
          bestRows, bestCols, bestDiff := rows, cols, diff;
        }
      }
      rows := rows + 1;
    }
    FloorSqrtUnique(rows - 1, count);
    if bestRows >= 2 {
      SquarestPair(count);
      DiffBelowTrivial(count, bestRows);
    }
    if bestDiff == Abs(count - 1) {
      var s := CeilSqrt(count);
      bestRows, bestCols := s, s;
    }
    return Arrangement(bestRows, bestCols, Spacing);
  }

  // ---------------------------------------------------------------------
  // Characterisation of the arrangement.
  // ---------------------------------------------------------------------

  /** When count has a divisor d with 2 <= d and d*d <= count, the grid is
      an exact factor pair rows x cols == count, and rows is the largest such
      divisor: it divides count, its square fits, and d <= rows. */
  lemma ExactFactorPair(count: nat, d: nat)
    requires 2 <= d && d * d <= count && count % d == 0
    ensures var a := GridArrangement(count);
      a.rows * a.cols == count && count % a.rows == 0 &&
      a.rows * a.rows <= count && d <= a.rows
  {
    BelowFloorSqrt(d, count);
    SquareGrows(d);
    SquarestPair(count);
  }

  /** For a prime count the grid is the ceil(sqrt(count)) square, which is
      never exactly filled. */
  lemma PrimeFallback(count: nat)
    requires IsPrime(count)
    ensures var a := GridArrangement(count);
      a.rows == a.cols == CeilSqrt(count) && count < a.rows * a.cols
  {
    FloorSqrtBelow(count);
    var s := CeilSqrt(count);
    if s <= 1 {
      SquareLe(s, 1);
    } else if s * s == count {
      SquareGrows(s);
      DivModUnique(count, s, s, 0);
    }
  }

  /** A composite count has a divisor no larger than its square root. */
  lemma SmallDivisor(n: nat, d: nat) returns (e: nat)
    requires 2 <= d < n && n % d == 0
    ensures 2 <= e && e * e <= n && n % e == 0
  {
    var c := n / d;
    assert d * c == n;
    if c <= 1 {
      MulLeft(d, c, 1);
    }
    if d <= c {
      e := d;
      MulLeft(d, d, c);
    } else {
      e := c;
      MulLeft(c, c, d);
      DivModUnique(n, c, d, 0);
    }
  }

  /** For count >= 1 the grid is filled exactly (rows*cols == count) if and
      only if count is not prime. */
  lemma ExactIffNotPrime(count: nat)
    requires count >= 1
    ensures var a := GridArrangement(count);
      a.rows * a.cols == count <==> !IsPrime(count)
  {
    if IsPrime(count) {
      PrimeFallback(count);
    } else if count >= 2 {
      var d :| 2 <= d < count && count % d == 0;
      var e := SmallDivisor(count, d);
      ExactFactorPair(count, e);
    }
  }

  /** The arrangements for 1, 12, 10 (exact divisors only: 2x5, not a 3x4
      that merely covers 10), 9, and the prime counts 7, 3 and 2, which fall
      back to squares. */
  lemma ArrangementExamples()
    ensures GridArrangement(1) == Arrangement(1, 1, 1.5)
    ensures GridArrangement(12) == Arrangement(3, 4, 1.5)
    ensures GridArrangement(10) == Arrangement(2, 5, 1.5)
    ensures GridArrangement(9) == Arrangement(3, 3, 1.5)
    ensures GridArrangement(7) == Arrangement(3, 3, 1.5)
    ensures GridArrangement(3) == Arrangement(2, 2, 1.5)
    ensures GridArrangement(2) == Arrangement(2, 2, 1.5)
  {
    FloorSqrtUnique(3, 12);
    FloorSqrtUnique(3, 10);
    FloorSqrtUnique(3, 9);
    FloorSqrtUnique(2, 7);
  }

  // ---------------------------------------------------------------------
  // Positions on the lattice.
  // ---------------------------------------------------------------------

  /** Distance of column col from the lattice's centre line, in spacings. */
  function ColDist(col: int, cols: nat): real {
    (col as real) - ((cols as real) - 1.0) / 2.0
  }

  /** Distance of row row from the lattice's centre line, in spacings. */
  function RowDist(row: int, rows: nat): real {
    (row as real) - ((rows as real) - 1.0) / 2.0
  }

  /** getGridPosition: the offset of unit `index` from the group's base,
      row-major (row = index / cols, col = index % cols) with the lattice
      centred on the base, on the floor plane. */
  function GridPosition(index: nat, a: Arrangement): (p: Point)
    requires a.cols > 0
    ensures p.y == 0.0
  {
    var row, col := index / a.cols, index % a.cols;
    Point(ColDist(col, a.cols) * a.spacing, 0.0, RowDist(row, a.rows) * a.spacing)
  }

  /** The same offset measured in spacings. This is not a separate notion:
      it is GridPosition before the multiplication by the spacing, kept apart
      so that the sums below can be proved without real products. */
  function UnitPosition(index: nat, rows: nat, cols: nat): Point
    requires cols > 0
  {
    Point(ColDist(index % cols, cols), 0.0, RowDist(index / cols, rows))
  }

  /** Scales the floor-plane coordinates x and z by s; the height is kept. */
  function ScalePoint(p: Point, s: real): Point {
    Point(p.x * s, p.y, p.z * s)
  }

  /** An offset is its unit offset scaled by the spacing. */
  lemma GridPositionScaled(index: nat, a: Arrangement)
    requires a.cols > 0
    ensures GridPosition(index, a) == ScalePoint(UnitPosition(index, a.rows, a.cols), a.spacing)
  {
  }

  /** The offsets of units 0 .. n-1 in placement order. */
  function Offsets(n: nat, a: Arrangement): (ps: seq<Point>)
    requires n == 0 || a.cols > 0
    ensures |ps| == n
  {
    seq(n, i requires 0 <= i < n => GridPosition(i, a))
  }

  /** Scaling by a non-zero factor loses nothing. */
  lemma ScaleInjective(p: Point, q: Point, s: real)
    requires s != 0.0 && ScalePoint(p, s) == ScalePoint(q, s)
    ensures p == q
  {
    Cancel(p.x, q.x, s);
    Cancel(p.z, q.z, s);
  }

  /** Quotient and remainder determine the index. */
  lemma SameCell(i: nat, j: nat, cols: nat)
    requires cols > 0 && i / cols == j / cols && i % cols == j % cols
    ensures i == j
  {
    assert i == cols * (i / cols) + i % cols;
    assert j == cols * (j / cols) + j % cols;
  }

  /** Every offset lies on the floor plane, and the index is recovered from
      the cell: two different indices never share a cell, so placed units
      never coincide. */
  lemma DistinctIndicesDistinctCells(i: nat, j: nat, a: Arrangement)
    requires a.cols > 0 && a.spacing != 0.0
    ensures GridPosition(i, a).y == 0.0
    ensures GridPosition(i, a) == GridPosition(j, a) ==> i == j
  {
    if GridPosition(i, a) == GridPosition(j, a) {
      GridPositionScaled(i, a);
      GridPositionScaled(j, a);
      ScaleInjective(UnitPosition(i, a.rows, a.cols), UnitPosition(j, a.rows, a.cols), a.spacing);
      SameCell(i, j, a.cols);
    }
  }

  /** An index inside the rows x cols lattice lies in a row below rows. */
  lemma RowInRange(index: nat, a: Arrangement)
    requires a.cols > 0 && index < a.rows * a.cols
    ensures index / a.cols < a.rows
  {
    var row := index / a.cols;
    if row >= a.rows {
      MulLeft(a.cols, a.rows, row);
    }
  }

  /** Every column lies within (cols-1)/2 spacings of the centre line. */
  lemma ColumnInRange(index: nat, cols: nat)
    requires cols > 0
    ensures var h := ((cols as real) - 1.0) / 2.0;
      -h <= ColDist(index % cols, cols) <= h
  {
  }

  /** Inside the lattice every row lies within (rows-1)/2 spacings of the
      centre line. */
  lemma RowDistInRange(index: nat, a: Arrangement)
    requires a.cols > 0 && index < a.rows * a.cols
    ensures var v := ((a.rows as real) - 1.0) / 2.0;
      -v <= RowDist(index / a.cols, a.rows) <= v
  {
    RowInRange(index, a);
  }

  /** Every x offset is within (cols-1)/2 spacings of the base. */
  lemma ColumnBound(index: nat, a: Arrangement)
    requires a.cols > 0 && a.spacing >= 0.0
    ensures var h := ((a.cols as real) - 1.0) / 2.0 * a.spacing;
      -h <= GridPosition(index, a).x <= h
  {
    ColumnInRange(index, a.cols);
    ScaledBound(ColDist(index % a.cols, a.cols), ((a.cols as real) - 1.0) / 2.0, a.spacing);
  }

  /** Inside the lattice every z offset is within (rows-1)/2 spacings of the base. */
  lemma RowBound(index: nat, a: Arrangement)
    requires a.cols > 0 && a.spacing >= 0.0 && index < a.rows * a.cols
    ensures var v := ((a.rows as real) - 1.0) / 2.0 * a.spacing;
      -v <= GridPosition(index, a).z <= v
  {
    RowDistInRange(index, a);
    ScaledBound(RowDist(index / a.cols, a.rows), ((a.rows as real) - 1.0) / 2.0, a.spacing);
  }

  /** Inside the rows x cols lattice every offset is bounded symmetrically
      about the base: |x| <= (cols-1)/2 * spacing and |z| <= (rows-1)/2 * spacing. */
  lemma OffsetBounds(index: nat, a: Arrangement)
    requires a.cols > 0 && a.spacing >= 0.0 && index < a.rows * a.cols
    ensures var p, h := GridPosition(index, a), ((a.cols as real) - 1.0) / 2.0 * a.spacing;
      -h <= p.x <= h
    ensures var p, v := GridPosition(index, a), ((a.rows as real) - 1.0) / 2.0 * a.spacing;
      -v <= p.z <= v
  {
    ColumnBound(index, a);
    RowBound(index, a);
  }

  /** Every index below count gets a row below rows and a column below cols:
      the arrangement covers the whole group. */
  lemma Coverage(count: nat, index: nat)
    requires index < count
    ensures var a := GridArrangement(count);
      a.cols > 0 && index / a.cols < a.rows && index % a.cols < a.cols
  {
    RowInRange(index, GridArrangement(count));
  }

  // ---------------------------------------------------------------------
  // Centring: sums of offsets.
  // ---------------------------------------------------------------------

  function SumX(ps: seq<Point>): real {
    if ps == [] then 0.0 else SumX(ps[..|ps| - 1]) + ps[|ps| - 1].x
  }

  function SumZ(ps: seq<Point>): real {
    if ps == [] then 0.0 else SumZ(ps[..|ps| - 1]) + ps[|ps| - 1].z
  }

  /** Row and column of unit i, counted off row by row. These are not new
      notions: CellIsDivMod shows they are the i / cols and i % cols of
      GridPosition. The sums below are stated with them only so that their
      inductive proofs stay free of division. */
  function CellRow(i: nat, cols: nat): nat
    requires cols > 0
  {
    if i < cols then 0 else CellRow(i - cols, cols) + 1
  }

  function CellCol(i: nat, cols: nat): nat
    requires cols > 0
  {
    if i < cols then i else CellCol(i - cols, cols)
  }

  lemma {:induction false} CellIsDivMod(i: nat, cols: nat)
    requires cols > 0
    ensures CellRow(i, cols) == i / cols && CellCol(i, cols) == i % cols
  {
    if i < cols {
      DivModUnique(i, cols, 0, i);
    } else {
      CellIsDivMod(i - cols, cols);
      DivModUnique(i, cols, (i - cols) / cols + 1, (i - cols) % cols);
    }
  }

  /** Sum of the column distances of units 0 .. n-1. */
  function ColDistSum(n: nat, cols: nat): real
    requires cols > 0
  {
    if n == 0 then 0.0 else ColDistSum(n - 1, cols) + ColDist(CellCol(n - 1, cols), cols)
  }

  /** Sum of the row distances of units 0 .. n-1. */
  function RowDistSum(n: nat, rows: nat, cols: nat): real
    requires cols > 0
  {
    if n == 0 then 0.0 else RowDistSum(n - 1, rows, cols) + RowDist(CellRow(n - 1, cols), rows)
  }

  /** The unit offsets of units 0 .. n-1 in placement order. */
  function UnitOffsets(n: nat, rows: nat, cols: nat): (ps: seq<Point>)
    requires cols > 0
    ensures |ps| == n
  {
    seq(n, i requires 0 <= i < n => UnitPosition(i, rows, cols))
  }

  function ScaleAll(ps: seq<Point>, s: real): (qs: seq<Point>)
    ensures |qs| == |ps|
  {
    seq(|ps|, i requires 0 <= i < |ps| => ScalePoint(ps[i], s))
  }

  /** The offsets are the unit offsets scaled by the spacing. */
  lemma OffsetsScaled(n: nat, a: Arrangement)
    requires a.cols > 0
    ensures Offsets(n, a) == ScaleAll(UnitOffsets(n, a.rows, a.cols), a.spacing)
  {
    forall i | 0 <= i < n
      ensures Offsets(n, a)[i] == ScaleAll(UnitOffsets(n, a.rows, a.cols), a.spacing)[i]
    {
      GridPositionScaled(i, a);
    }
  }

  /** The unit offsets of units 0 .. n-1 sum to the column distances along x
      and to the row distances along z. */
  lemma {:induction false} UnitSums(n: nat, rows: nat, cols: nat)
    requires cols > 0
    ensures SumX(UnitOffsets(n, rows, cols)) == ColDistSum(n, cols)
    ensures SumZ(UnitOffsets(n, rows, cols)) == RowDistSum(n, rows, cols)
  {
    if n > 0 {
      UnitSums(n - 1, rows, cols);
      CellIsDivMod(n - 1, cols);
      assert UnitOffsets(n, rows, cols)[..n - 1] == UnitOffsets(n - 1, rows, cols);
    }
  }

  /** Scaling every point by s scales the sum of the x coordinates by s. */
  lemma {:induction false} ScaledSumX(ps: seq<Point>, s: real)
    ensures SumX(ScaleAll(ps, s)) == SumX(ps) * s
  {
    if ps == [] {
      assert SumX(ps) * s == 0.0;
    } else {
      var m := |ps| - 1;
      ScaledSumX(ps[..m], s);
      assert ScaleAll(ps, s)[..m] == ScaleAll(ps[..m], s);
      calc {
        SumX(ps) * s;
      ==
        (SumX(ps[..m]) + ps[m].x) * s;
      ==
        SumX(ps[..m]) * s + ps[m].x * s;
      }
    }
  }

  /** Scaling every point by s scales the sum of the z coordinates by s. */
  lemma {:induction false} ScaledSumZ(ps: seq<Point>, s: real)
    ensures SumZ(ScaleAll(ps, s)) == SumZ(ps) * s
  {
    if ps == [] {
      assert SumZ(ps) * s == 0.0;
    } else {
      var m := |ps| - 1;
      ScaledSumZ(ps[..m], s);
      assert ScaleAll(ps, s)[..m] == ScaleAll(ps[..m], s);
      calc {
        SumZ(ps) * s;
      ==
        (SumZ(ps[..m]) + ps[m].z) * s;
      ==
        SumZ(ps[..m]) * s + ps[m].z * s;
      }
    }
  }

  /** Sum of the column distances over the first c columns of a row. */
  function RowPartial(c: nat, cols: nat): real {
    (c as real) * ((c as real) - (cols as real)) / 2.0
  }

  lemma RowPartialStep(c: nat, c': nat, cols: nat)
    requires c' == c + 1
    ensures RowPartial(c', cols) == RowPartial(c, cols) + ColDist(c, cols)
  {
    var cr, k := c as real, cols as real;
    assert (cr + 1.0) * (cr + 1.0 - k) == cr * (cr - k) + 2.0 * cr + 1.0 - k;
  }

  /** Index m of the row that starts at index start = r*cols lies in row r,
      column m - start. */
  lemma CellOf(m: nat, start: nat, r: nat, cols: nat)
    requires cols > 0 && start == r * cols && start <= m < start + cols
    ensures CellCol(m, cols) == m - start && CellRow(m, cols) == r
  {
    CellIsDivMod(m, cols);
    DivModUnique(m, cols, r, m - start);
  }

  /** The units of the row starting at start, up to index m, add
      RowPartial(m - start) to the column sum. */
  lemma {:induction false} ColumnsInRow(m: nat, start: nat, r: nat, cols: nat)
    requires 0 < cols && start == r * cols && start <= m <= start + cols
    ensures ColDistSum(m, cols) == ColDistSum(start, cols) + RowPartial(m - start, cols)
  {
    if m == start {
      assert RowPartial(m - start, cols) == 0.0;
    } else {
      ColumnsInRow(m - 1, start, r, cols);
      CellOf(m - 1, start, r, cols);
      RowPartialStep(m - 1 - start, m - start, cols);
    }
  }

  /** Complete rows contribute nothing to the column sum. */
  lemma {:induction false} FullColumnsCancel(rows: nat, cols: nat)
    requires cols > 0
    ensures ColDistSum(rows * cols, cols) == 0.0
  {
    if rows > 0 {
      var start := (rows - 1) * cols;
      FullColumnsCancel(rows - 1, cols);
      assert rows * cols == start + cols;
      ColumnsInRow(rows * cols, start, rows - 1, cols);
      assert RowPartial(rows * cols - start, cols) == 0.0;
    }
  }

  /** The units of the row starting at start = r*cols, up to index m, each
      add the distance of row r from the centre line to the row sum. */
  lemma {:induction false} RowsInRow(m: nat, start: nat, r: nat, rows: nat, cols: nat)
    requires 0 < cols && start == r * cols && start <= m <= start + cols
    ensures RowDistSum(m, rows, cols) == RowDistSum(start, rows, cols) + Times(m - start, RowDist(r, rows))
  {
    if m > start {
      RowsInRow(m - 1, start, r, rows, cols);
      CellOf(m - 1, start, r, cols);
    }
  }

  /** Closed form of the row sum over r complete rows. */
  function RowBlock(r: nat, rows: nat, cols: nat): real {
    (cols as real) * (r as real) * ((r as real) - (rows as real)) / 2.0
  }

  lemma RowBlockStep(r: nat, r': nat, rows: nat, cols: nat)
    requires r' == r + 1
    ensures RowBlock(r', rows, cols) == RowBlock(r, rows, cols) + (cols as real) * RowDist(r, rows)
  {
    var c, x, m := cols as real, r as real, rows as real;
    assert (x + 1.0) * (x + 1.0 - m) == x * (x - m) + 2.0 * x + 1.0 - m;
    assert c * ((x + 1.0) * (x + 1.0 - m)) == c * (x * (x - m)) + c * (2.0 * x + 1.0 - m);
  }

  lemma {:induction false} FullRows(r: nat, rows: nat, cols: nat)
    requires cols > 0
    ensures RowDistSum(r * cols, rows, cols) == RowBlock(r, rows, cols)
  {
    if r > 0 {
      var start := (r - 1) * cols;
      FullRows(r - 1, rows, cols);
      assert r * cols == start + cols;
      RowsInRow(r * cols, start, r - 1, rows, cols);
      TimesIsMul(cols, RowDist(r - 1, rows));
      RowBlockStep(r - 1, r, rows, cols);
    }
  }

  /** Complete rows, all rows of the lattice, contribute nothing to the row sum. */
  lemma FullRowsCancel(rows: nat, cols: nat)
    requires cols > 0
    ensures RowDistSum(rows * cols, rows, cols) == 0.0
  {
    FullRows(rows, rows, cols);
  }

  /** The x offsets sum to the unit offsets' x sum scaled by the spacing. */
  lemma OffsetSumX(n: nat, a: Arrangement)
    requires a.cols > 0
    ensures SumX(Offsets(n, a)) == SumX(UnitOffsets(n, a.rows, a.cols)) * a.spacing
  {
    var us := UnitOffsets(n, a.rows, a.cols);
    OffsetsScaled(n, a);
    ScaledSumX(us, a.spacing);
    assert SumX(Offsets(n, a)) == SumX(ScaleAll(us, a.spacing));
  }

  /** The z offsets sum to the unit offsets' z sum scaled by the spacing. */
  lemma OffsetSumZ(n: nat, a: Arrangement)
    requires a.cols > 0
    ensures SumZ(Offsets(n, a)) == SumZ(UnitOffsets(n, a.rows, a.cols)) * a.spacing
  {
    var us := UnitOffsets(n, a.rows, a.cols);
    OffsetsScaled(n, a);
    ScaledSumZ(us, a.spacing);
    assert SumZ(Offsets(n, a)) == SumZ(ScaleAll(us, a.spacing));
  }

  /** A completely filled lattice is centred on its base: the x offsets and
      the z offsets of all rows*cols cells each sum to zero. */
  lemma FullGridCentred(a: Arrangement)
    requires a.cols > 0
    ensures SumX(Offsets(a.rows * a.cols, a)) == 0.0
    ensures SumZ(Offsets(a.rows * a.cols, a)) == 0.0
  {
    var n := a.rows * a.cols;
    var us := UnitOffsets(n, a.rows, a.cols);
    OffsetSumX(n, a);
    OffsetSumZ(n, a);
    UnitSums(n, a.rows, a.cols);
    FullColumnsCancel(a.rows, a.cols);
    FullRowsCancel(a.rows, a.cols);
    assert SumX(us) * a.spacing == 0.0;
    assert SumZ(us) * a.spacing == 0.0;
  }

  /** The unit offsets of a lattice filled up to its first c units of row
      r: the complete rows contribute nothing along x and the partial row
      contributes RowPartial(c); along z the complete rows contribute
      RowBlock(r) and each unit of the partial row adds the distance of row r. */
  lemma PartialUnitSums(r: nat, c: nat, rows: nat, cols: nat)
    requires cols > 0 && c <= cols
    ensures SumX(UnitOffsets(r * cols + c, rows, cols)) == RowPartial(c, cols)
    ensures SumZ(UnitOffsets(r * cols + c, rows, cols)) ==
      RowBlock(r, rows, cols) + Arith.Times(c, RowDist(r, rows))
  {
    var n, start := r * cols + c, r * cols;
    UnitSums(n, rows, cols);
    ColumnsInRow(n, start, r, cols);
    FullColumnsCancel(r, cols);
    RowsInRow(n, start, r, rows, cols);
    FullRows(r, rows, cols);
  }

  /** A fallback grid that is not full is not mean-centred: seven units on
      the 3 x 3 lattice have x offsets summing to -1.5 and z offsets summing
      to -3. */
  lemma FallbackNotCentred()
    ensures SumX(Offsets(7, GridArrangement(7))) == -1.5
    ensures SumZ(Offsets(7, GridArrangement(7))) == -3.0
  {
    ArrangementExamples();
    OffsetSumX(7, GridArrangement(7));
    OffsetSumZ(7, GridArrangement(7));
    PartialUnitSums(2, 1, 3, 3);
  }
}
