/** The two-group state machine of the scale explorer: the current shape and
    quantity selection, and the records of group A and group B, each holding
    its units (meshes, seen here only through their positions), its shape
    and its quantity. Placing, clearing and switching groups update these
    records in place. */
module AppModel {
  import opened Grid
  import Arith
  import Comparison

  datatype Option<T> = None | Some(value: T)

  /** A shape identifier as chosen by the shape buttons ("sphere", "cube", ...). */
  type Shape = string

  datatype GroupName = A | B

  /** A group record: the positions of its meshes, its shape (None when the
      group is empty) and its quantity. */
  datatype Group = Group(objects: seq<Point>, shape: Option<Shape>, quantity: nat)

  const EmptyGroup: Group := Group([], None, 0)

  /** The fixed base position of each group. */
  function Base(g: GroupName): (p: Point)
    ensures p.y == 0.0 && p.z == 0.0
    ensures p.x == if g == A then -5.0 else 5.0
  {
    if g == A then Point(-5.0, 0.0, 0.0) else Point(5.0, 0.0, 0.0)
  }

  function Other(g: GroupName): GroupName {
    if g == A then B else A
  }

  function Add(p: Point, q: Point): Point {
    Point(p.x + q.x, p.y + q.y, p.z + q.z)
  }

  /** Each offset moved to the given base. */
  function Translate(ps: seq<Point>, base: Point): (qs: seq<Point>)
    ensures |qs| == |ps|
  {
    seq(|ps|, i requires 0 <= i < |ps| => Add(base, ps[i]))
  }

  /** Positions of units 0 .. n-1 on the arrangement a, around base. */
  function Lattice(n: nat, a: Arrangement, base: Point): (ps: seq<Point>)
    requires n == 0 || a.cols > 0
    ensures |ps| == n
    ensures forall i :: 0 <= i < n ==> ps[i] == Add(base, GridPosition(i, a))
  {
    Translate(Offsets(n, a), base)
  }

  /** Where placeGroup puts q units of a group with the given base. */
  function Layout(q: nat, base: Point): (ps: seq<Point>)
    ensures |ps| == q
    ensures forall i :: 0 <= i < q ==> ps[i] == Add(base, GridPosition(i, GridArrangement(q)))
  {
    Lattice(q, GridArrangement(q), base)
  }

  /** A group whose meshes sit exactly where placing it would put them. */
  ghost predicate OnLattice(grp: Group, base: Point) {
    grp.objects == Layout(grp.quantity, base)
  }

  /** repositionGroup's effect on a group record: an empty group is left as
      it is, otherwise mesh i moves to base plus the offset of index i on the
      arrangement for the record's quantity. */
  function Relaid(grp: Group, base: Point): (r: Group)
    requires |grp.objects| == 0 || grp.quantity >= 1
    ensures grp.objects == [] ==> r == grp
    ensures r.shape == grp.shape && r.quantity == grp.quantity
    ensures |r.objects| == |grp.objects|
    ensures forall i :: 0 <= i < |grp.objects| ==>
      r.objects[i] == Add(base, GridPosition(i, GridArrangement(grp.quantity)))
  {
    grp.(objects := Lattice(|grp.objects|, GridArrangement(grp.quantity), base))
  }

  /** switchGroups' effect on the pair (A, B): the records are exchanged and
      each is re-laid at its new base. */
  function Switched(ga: Group, gb: Group): (r: (Group, Group))
    requires |ga.objects| == 0 || ga.quantity >= 1
    requires |gb.objects| == 0 || gb.quantity >= 1
    ensures r.0.shape == gb.shape && r.0.quantity == gb.quantity && |r.0.objects| == |gb.objects|
    ensures r.1.shape == ga.shape && r.1.quantity == ga.quantity && |r.1.objects| == |ga.objects|
  {
    (Relaid(gb, Base(A)), Relaid(ga, Base(B)))
  }

  // ---------------------------------------------------------------------
  // Properties of the layout and of switching.
  // ---------------------------------------------------------------------

  /** Unit i of a placed group sits at base + getGridPosition(i): on the
      base's floor plane, inside the symmetric bounds of the lattice. */
  lemma LayoutUnit(q: nat, base: Point, i: nat)
    requires i < q
    ensures var a, p := GridArrangement(q), Layout(q, base)[i];
      p == Add(base, GridPosition(i, a)) && p.y == base.y &&
      -((a.cols as real) - 1.0) / 2.0 * Spacing <= p.x - base.x <= ((a.cols as real) - 1.0) / 2.0 * Spacing &&
      -((a.rows as real) - 1.0) / 2.0 * Spacing <= p.z - base.z <= ((a.rows as real) - 1.0) / 2.0 * Spacing
  {
    OffsetBounds(i, GridArrangement(q));
  }

  /** No two units of a placed group coincide. */
  lemma LayoutDistinct(q: nat, base: Point, i: nat, j: nat)
    requires i < q && j < q && i != j
    ensures Layout(q, base)[i] != Layout(q, base)[j]
  {
    var a := GridArrangement(q);
    DistinctIndicesDistinctCells(i, j, a);
  }

  /** Moving n points to a base adds n copies of the base to each
      coordinate sum. */
  lemma {:induction false} TranslateSums(ps: seq<Point>, base: Point)
    ensures SumX(Translate(ps, base)) == Arith.Times(|ps|, base.x) + SumX(ps)
    ensures SumZ(Translate(ps, base)) == Arith.Times(|ps|, base.z) + SumZ(ps)
  {
    if ps != [] {
      var n := |ps| - 1;
      TranslateSums(ps[..n], base);
      assert Translate(ps, base)[..n] == Translate(ps[..n], base);
    }
  }

  /** n points whose coordinate sums vanish, moved to a base, have the base
      as their mean. */
  lemma CentredTranslate(ps: seq<Point>, n: nat, base: Point)
    requires |ps| == n && SumX(ps) == 0.0 && SumZ(ps) == 0.0
    ensures SumX(Translate(ps, base)) == (n as real) * base.x
    ensures SumZ(Translate(ps, base)) == (n as real) * base.z
  {
    TranslateSums(ps, base);
    Arith.TimesIsMul(n, base.x);
    Arith.TimesIsMul(n, base.z);
  }

  /** The offsets of a completely filled lattice sum to zero. */
  lemma FullLatticeOffsets(q: nat, a: Arrangement)
    requires a.cols > 0 && a.rows * a.cols == q
    ensures SumX(Offsets(q, a)) == 0.0 && SumZ(Offsets(q, a)) == 0.0
  {
    FullGridCentred(a);
  }

  /** A completely filled lattice of units is centred on its base: the mean
      x and mean z of its units are the base's. */
  lemma LatticeCentred(q: nat, a: Arrangement, base: Point)
    requires a.cols > 0 && a.rows * a.cols == q
    ensures SumX(Lattice(q, a, base)) == (q as real) * base.x
    ensures SumZ(Lattice(q, a, base)) == (q as real) * base.z
  {
    FullLatticeOffsets(q, a);
    CentredTranslate(Offsets(q, a), q, base);
  }

  /** Every quantity that is not prime fills its lattice, so a group placed
      with it is centred on its base. */
  lemma LayoutCentred(q: nat, base: Point)
    requires q >= 1 && !IsPrime(q)
    ensures SumX(Layout(q, base)) == (q as real) * base.x
    ensures SumZ(Layout(q, base)) == (q as real) * base.z
  {
    ExactIffNotPrime(q);
    LatticeCentred(q, GridArrangement(q), base);
  }

  /** A group on its lattice has one mesh per unit of its quantity. */
  lemma OnLatticeCount(grp: Group, base: Point)
    requires OnLattice(grp, base)
    ensures |grp.objects| == grp.quantity
  {
  }

  /** Switching two groups that sit on their lattices leaves each on the
      lattice at its new base, and switching again restores both records,
      positions included. */
  lemma SwitchTwiceRestores(ga: Group, gb: Group)
    requires OnLattice(ga, Base(A)) && OnLattice(gb, Base(B))
    ensures var (a1, b1) := Switched(ga, gb);
      OnLattice(a1, Base(A)) && OnLattice(b1, Base(B)) &&
      a1.quantity == gb.quantity && a1.shape == gb.shape &&
      b1.quantity == ga.quantity && b1.shape == ga.shape &&
      Switched(a1, b1) == (ga, gb)
  {
    OnLatticeCount(ga, Base(A));
    OnLatticeCount(gb, Base(B));
  }

  // ---------------------------------------------------------------------
  // The application state.
  // ---------------------------------------------------------------------

  class AppState {
    var selectedShape: Shape
    var selectedQuantity: nat
    var groupA: Group
    var groupB: Group

    /** Every group's meshes sit on the lattice for its quantity at its base. */
    ghost predicate Valid()
      reads this
    {
      OnLattice(groupA, Base(A)) && OnLattice(groupB, Base(B))
    }

    function Get(g: GroupName): Group
      reads this
    {
      if g == A then groupA else groupB
    }

    /** The initial state: a sphere selection of 5 and two empty groups. */
    constructor ()
      ensures Valid()
      ensures selectedShape == "sphere" && selectedQuantity == 5
      ensures groupA == EmptyGroup && groupB == EmptyGroup
    {
      selectedShape := "sphere";
      selectedQuantity := 5;
      groupA := EmptyGroup;
      groupB := EmptyGroup;
    }

    /** clearGroup: dispose of the group's meshes and reset its record. */
    method ClearGroup(g: GroupName)
      requires Valid()
      modifies this
      ensures Valid()
      ensures Get(g) == EmptyGroup
      ensures Get(Other(g)) == old(Get(Other(g)))
      ensures selectedShape == old(selectedShape) && selectedQuantity == old(selectedQuantity)
    {
      if g == A {
        groupA := EmptyGroup;
      } else {
        groupB := EmptyGroup;
      }
    }

    /** clearAllObjects: clear both groups. */
    method ClearAllObjects()
      requires Valid()
      modifies this
      ensures Valid()
      ensures groupA == EmptyGroup && groupB == EmptyGroup
      ensures selectedShape == old(selectedShape) && selectedQuantity == old(selectedQuantity)
    {
      ClearGroup(A);
      ClearGroup(B);
    }

    /** placeGroup: clear the group, create selectedQuantity meshes, mesh i
        at the group's base plus the grid offset of index i, and record the
        current shape and quantity. */
    method PlaceGroup(g: GroupName)
      requires Valid()
      modifies this
      ensures Valid()
      ensures Get(g) == Group(Layout(old(selectedQuantity), Base(g)), Some(old(selectedShape)), old(selectedQuantity))
      ensures Get(Other(g)) == old(Get(Other(g)))
      ensures selectedShape == old(selectedShape) && selectedQuantity == old(selectedQuantity)
    {
      var position := Base(g);
      ClearGroup(g);
      var objects: seq<Point> := [];
      var arrangement := CalculateGridArrangement(selectedQuantity);
      var i := 0;
      while i < selectedQuantity
        invariant i <= selectedQuantity
        invariant |objects| == i
        invariant forall k {:trigger objects[k]} :: 0 <= k < i ==> objects[k] == Add(position, GridPosition(k, arrangement))
      {
        var gridPosition := GridPosition(i, arrangement);
        objects := objects + [Add(position, gridPosition)];
        i := i + 1;
      }
      assert objects == Layout(selectedQuantity, position);
      if g == A {
        groupA := Group(objects, Some(selectedShape), selectedQuantity);
      } else {
        groupB := Group(objects, Some(selectedShape), selectedQuantity);
      }
    }

    /** repositionGroup: move every mesh of a non-empty group to its base
        plus the grid offset of its index, on the arrangement for the
        group's quantity. */
    method RepositionGroup(g: GroupName)
      requires |Get(g).objects| == 0 || Get(g).quantity >= 1
      modifies this
      ensures Get(g) == Relaid(old(Get(g)), Base(g))
      ensures Get(Other(g)) == old(Get(Other(g)))
      ensures selectedShape == old(selectedShape) && selectedQuantity == old(selectedQuantity)
    {
      var position := Base(g);
      var group := Get(g);
      if |group.objects| == 0 {
        return;
      }
      var arrangement := CalculateGridArrangement(group.quantity);
      var index := 0;
      while index < |group.objects|
        invariant index <= |group.objects|
        invariant Get(g).shape == group.shape && Get(g).quantity == group.quantity
        invariant |Get(g).objects| == |group.objects|
        invariant forall k :: 0 <= k < index ==> Get(g).objects[k] == Add(position, GridPosition(k, arrangement))
        invariant Get(Other(g)) == old(Get(Other(g)))
        invariant selectedShape == old(selectedShape) && selectedQuantity == old(selectedQuantity)
      {
        var gridPosition := GridPosition(index, arrangement);
        if g == A {
          groupA := groupA.(objects := groupA.objects[index := Add(position, gridPosition)]);
        } else {
          groupB := groupB.(objects := groupB.objects[index := Add(position, gridPosition)]);
        }
        index := index + 1;
      }
      assert Get(g).objects == Lattice(|group.objects|, arrangement, position);
    }

    /** switchGroups: exchange the records of A and B, then re-lay each one
        at its own base. */
    method SwitchGroups()
      requires Valid()
      modifies this
      ensures Valid()
      ensures (groupA, groupB) == Switched(old(groupA), old(groupB))
      ensures groupA == Group(Layout(old(groupB).quantity, Base(A)), old(groupB).shape, old(groupB).quantity)
      ensures groupB == Group(Layout(old(groupA).quantity, Base(B)), old(groupA).shape, old(groupA).quantity)
      ensures selectedShape == old(selectedShape) && selectedQuantity == old(selectedQuantity)
    {
      SwitchTwiceRestores(groupA, groupB);
      var tempObjects := groupA.objects;
      var tempShape := groupA.shape;
      var tempQuantity := groupA.quantity;

      groupA := Group(groupB.objects, groupB.shape, groupB.quantity);
      groupB := Group(tempObjects, tempShape, tempQuantity);

      RepositionGroup(A);
      RepositionGroup(B);
    }

    /** performComparison: the verdict for the two group quantities; it
        stops early, with nothing to compare, when either group is empty. */
    method PerformComparison() returns (v: Comparison.Verdict)
      ensures v == Comparison.Compare(groupA.quantity, groupB.quantity)
      ensures v == Comparison.NeedBoth <==> groupA.quantity == 0 || groupB.quantity == 0
    {
      var groupACount := groupA.quantity;
      var groupBCount := groupB.quantity;
      v := Comparison.Compare(groupACount, groupBCount);
    }
  }
}
