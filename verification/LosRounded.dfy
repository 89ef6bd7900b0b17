/** A mesh that `Build` accepts and whose quantised wall reaches into a cell that does not list it. */
module LosRounded {
  import opened Basics
  import opened Los
  import opened LosCells
  import opened LosWalk
  import opened LosQuery
  import opened LosBuild
  import opened LosBuilt
  import opened LosBuiltQuery

  /** Two level triangles. The X extent makes the quantisation step 1, so the corners at 2.6 are stored at 3. */
  const ROUNDED: Mesh := Mesh(
    [Vec3(2.6, 0.0, 0.0), Vec3(2.6, 0.0, 2.0), Vec3(0.0, 0.0, 0.0),
     Vec3(65534.0, 0.0, 0.0), Vec3(65534.0, 0.0, 2.0), Vec3(65533.0, 0.0, 0.0)],
    [Tri(0, 1, 2), Tri(3, 4, 5)])

  const ROUNDED_CELL: real := 2.75

  /** From above to below, between the border of the cells at 2.75 and the stored corners. */
  const ABOVE: Vec := Vec3(2.9, 1.0, 1.0)
  const DOWN: Vec := Vec3(0.0, -2.0, 0.0)

  lemma Corners()
    ensures MeshOk(ROUNDED)
    ensures MeshCorner(ROUNDED, 0, 0) == Vec3(2.6, 0.0, 0.0) && MeshCorner(ROUNDED, 0, 1) == Vec3(2.6, 0.0, 2.0)
    ensures MeshCorner(ROUNDED, 0, 2) == Vec3(0.0, 0.0, 0.0)
    ensures MeshCorner(ROUNDED, 1, 0) == Vec3(65534.0, 0.0, 0.0) && MeshCorner(ROUNDED, 1, 1) == Vec3(65534.0, 0.0, 2.0)
    ensures MeshCorner(ROUNDED, 1, 2) == Vec3(65533.0, 0.0, 0.0)
  {
  }

  lemma BothKept(keep: seq<bool>)
    requires MeshOk(ROUNDED) && Selected(ROUNDED, 0.0, keep)
    ensures keep == [true, true] && Number(keep, 0) == 0 && Number(keep, 1) == 1 && Number(keep, 2) == 2
  {
    var m := ROUNDED;
    Corners();
    assert DoubleAreaSquared(Vec3(2.6, 0.0, 0.0), Vec3(2.6, 0.0, 2.0), Vec3(0.0, 0.0, 0.0)) == 27.04;
    assert DoubleAreaSquared(Vec3(65534.0, 0.0, 0.0), Vec3(65534.0, 0.0, 2.0), Vec3(65533.0, 0.0, 0.0)) == 4.0;
    assert Keeps(m, 0.0, 0) && Keeps(m, 0.0, 1);
    assert Number(keep, 1) == Number(keep, 0) + 1;
  }

  lemma BoxOf(lo: Vec, hi: Vec)
    requires MeshOk(ROUNDED) && IsBox(ROUNDED, [true, true], lo, hi)
    ensures lo == Vec3(0.0, 0.0, 0.0) && hi == Vec3(65534.0, 0.0, 2.0)
  {
    Corners();
    hide MeshCorner;
    var m, keep := ROUNDED, [true, true];
    assert KeptCornerAt(m, keep, 2, 0, 2) && KeptCornerAt(m, keep, 2, 1, 0) && KeptCornerAt(m, keep, 2, 1, 1);
    assert KeptCornerAt(m, keep, 2, 0, 0);
  }

  lemma FrameOf()
    ensures var f := Frame(Vec3(0.0, 0.0, 0.0), Vec3(65534.0, 0.0, 2.0), ROUNDED_CELL);
            f.gridX == 23831 && f.gridZ == 1 && f.scale == Vec3(1.0, 0.0, 2.0 / 65534.0)
  {
    assert Ceil(65534.0 / 2.75) == 23831 && Ceil(2.0 / 2.75) == 1;
  }

  lemma Rectangles(lo: Vec)
    requires MeshOk(ROUNDED) && lo == Vec3(0.0, 0.0, 0.0)
    ensures CellRange(ROUNDED, lo, ROUNDED_CELL, 23831, 1, 0, 0) == Placed(0, 0, 0, 0, 0)
    ensures CellRange(ROUNDED, lo, ROUNDED_CELL, 23831, 1, 1, 0) == Placed(0, 23830, 23830, 0, 0)
  {
    Corners();
    hide MeshCorner;
    assert Column(0.0, ROUNDED_CELL, 23831, 2.6) == 0 && Column(0.0, ROUNDED_CELL, 23831, 0.0) == 0;
    assert Column(0.0, ROUNDED_CELL, 23831, 65533.0) == 23830 && Column(0.0, ROUNDED_CELL, 23831, 65534.0) == 23830;
    assert Column(0.0, ROUNDED_CELL, 1, 0.0) == 0 && Column(0.0, ROUNDED_CELL, 1, 2.0) == 0;
  }

  lemma FrameOfBuilt(o: Occluders<real>, plan: Plan)
    requires Built(ROUNDED, 0.0, ROUNDED_CELL, o, plan)
    ensures plan.keep == [true, true] && Number(plan.keep, 0) == 0 && Number(plan.keep, 1) == 1
    ensures o.boundsMin == Vec3(0.0, 0.0, 0.0) && o.boundsMax == Vec3(65534.0, 0.0, 2.0)
    ensures o.cellSize == ROUNDED_CELL && o.gridX == 23831 && o.gridZ == 1 && o.scale == Vec3(1.0, 0.0, 2.0 / 65534.0)
  {
    hide IsBox, NumbersUsed, TablesMatch, Number, Frame, Keeps;
    BothKept(plan.keep);
    BoxOf(o.boundsMin, o.boundsMax);
    FrameOf();
    FrameGrid(o.boundsMin, o.boundsMax, ROUNDED_CELL);
  }

  lemma StoredAt(o: Occluders<real>, plan: Plan)
    requires Built(ROUNDED, 0.0, ROUNDED_CELL, o, plan)
    ensures o.Indexable() && 0 < o.TriangleCount()
    ensures Corner(o, 0, 0) == Vec3(3.0, 0.0, 0.0) && Corner(o, 0, 1) == Vec3(3.0, 0.0, 2.0)
    ensures Corner(o, 0, 2) == Vec3(0.0, 0.0, 0.0)
  {
    hide Assembled, Occluders.Indexable, MeshCorner, Selected, IsBox, NumbersUsed, TablesMatch, Number, Corner,
         Quantise, Dequantise;
    var m := ROUNDED;
    FrameOfBuilt(o, plan);
    Corners();
    BuiltIsSafe(m, ROUNDED_CELL, o, plan);
    Parts(m, ROUNDED_CELL, o, plan);
    RoundTrips();
    StoredCorner(m, o, plan, 0, 0);
    StoredCorner(m, o, plan, 0, 1);
    StoredCorner(m, o, plan, 0, 2);
  }

  lemma RoundTrips()
    ensures Dequantise(0.0, 1.0, Quantise(0.0, 65534.0, 2.6)) == 3.0
    ensures Dequantise(0.0, 1.0, Quantise(0.0, 65534.0, 0.0)) == 0.0
    ensures Dequantise(0.0, 0.0, Quantise(0.0, 0.0, 0.0)) == 0.0
    ensures Dequantise(0.0, 2.0 / 65534.0, Quantise(0.0, 2.0, 0.0)) == 0.0
    ensures Dequantise(0.0, 2.0 / 65534.0, Quantise(0.0, 2.0, 2.0)) == 2.0
  {
    assert 2.6 / 65534.0 * 65534.0 == 2.6;
    assert 2.0 / 2.0 * 65534.0 == 65534.0 && 0.0 / 2.0 * 65534.0 == 0.0 && 0.0 / 65534.0 * 65534.0 == 0.0;
    assert Round(2.6) == 3 && Round(0.0) == 0 && Round(65534.0) == 65534;
  }

  lemma StoredWallBlocks()
    ensures Blocks(Vec3(3.0, 0.0, 0.0), Vec3(3.0, 0.0, 2.0), Vec3(0.0, 0.0, 0.0), ABOVE, DOWN)
  {
    var e1, e2, w := Vec3(0.0, 0.0, 2.0), Vec3(-3.0, 0.0, 0.0), Vec3(-0.1, 1.0, 1.0);
    assert Sub(Vec3(3.0, 0.0, 2.0), Vec3(3.0, 0.0, 0.0)) == e1 && Sub(Vec3(0.0, 0.0, 0.0), Vec3(3.0, 0.0, 0.0)) == e2;
    assert Sub(ABOVE, Vec3(3.0, 0.0, 0.0)) == w;
    var p, q := Vec3(0.0, 0.0, -6.0), Vec3(2.0, 0.2, 0.0);
    assert Cross(DOWN, e2) == p && Cross(w, e1) == q;
    assert Dot(e1, p) == -12.0 && Dot(w, p) == -6.0 && Dot(DOWN, q) == -0.4 && Dot(e2, q) == -6.0;
    DecideOfSolution(-12.0, -6.0, -0.4, -6.0, 0.5, 1.0 / 30.0, 0.5);
    hide Decide, Dot, Cross, Sub;
  }

  /** The segment stays in one cell, the second in its row. */
  lemma OneCell(o: Occluders<real>)
    requires o.boundsMin == Vec3(0.0, 0.0, 0.0) && o.boundsMax == Vec3(65534.0, 0.0, 2.0)
    requires o.cellSize == ROUNDED_CELL && o.gridX == 23831 && o.gridZ == 1
    ensures ClipRay(o, ABOVE, DOWN).Some? && ClipRay(o, ABOVE, DOWN).value.Walkable()
    ensures ClipRay(o, ABOVE, DOWN).value.Trace() == [(1, 0)]
    ensures NoSkippedCorner(o, ABOVE, DOWN)
  {
    var x, z := XAxis(o, ABOVE, DOWN), ZAxis(o, ABOVE, DOWN);
    assert x.Cell(0.0) == 1 && z.Cell(0.0) == 0;
  }

  /**
   * The condition of `BuiltQueryEqualsScan` is needed: whatever `Build` makes of this mesh has a stored wall
   * that blocks the segment, in a cell that does not list it.
   */
  lemma RoundedWallIsMissed(o: Occluders<real>, plan: Plan)
    requires Built(ROUNDED, 0.0, ROUNDED_CELL, o, plan)
    ensures o.Indexable() && o.cellSize > 0.0 && !Consistent(o) && NoSkippedCorner(o, ABOVE, DOWN)
    ensures ScanBlocked(o, ABOVE, DOWN) && !WalkBlocked(o, ABOVE, DOWN)
  {
    hide Occluders.Indexable, Assembled, Selected, NoSkippedCorner, Consistent, ClipRay, Ray.Trace, Lists, TriBlocked,
         WalkBlocked;
    StoredBlocks(o, plan);
    FrameOfBuilt(o, plan);
    BuiltQueryExact(ROUNDED, ROUNDED_CELL, o, plan, ABOVE, DOWN);
    hide Reported;
    OneCell(o);
    forall i, c: Cell
      ensures !Reported(ROUNDED, o, plan, ABOVE, DOWN, i, c)
    {
      NothingListed(o, plan, i, c);
    }
    QueryEqualsScan(o, ABOVE, DOWN);
  }

  lemma StoredBlocks(o: Occluders<real>, plan: Plan)
    requires Built(ROUNDED, 0.0, ROUNDED_CELL, o, plan)
    ensures o.Indexable() && 0 < o.TriangleCount() && TriBlocked(o, 0, ABOVE, DOWN)
  {
    StoredAt(o, plan);
    StoredWallBlocks();
    hide Occluders.Indexable, Corner, Blocks, Built;
  }

  lemma NothingListed(o: Occluders<real>, plan: Plan, i: int, c: Cell)
    requires MeshOk(ROUNDED) && o.Indexable() && plan.keep == [true, true]
    requires o.boundsMin == Vec3(0.0, 0.0, 0.0) && o.boundsMax == Vec3(65534.0, 0.0, 2.0)
    requires o.cellSize == ROUNDED_CELL && o.gridX == 23831 && o.gridZ == 1
    ensures !Reported(ROUNDED, o, plan, ABOVE, DOWN, i, c)
  {
    hide Occluders.Indexable, MeshCorner, ClipRay, Ray.Trace, TriBlocked, Number, CellRange;
    OneCell(o);
    Rectangles(o.boundsMin);
  }

  lemma TwoReferences(f: Occluders<real>)
    requires MeshOk(ROUNDED) && f == Frame(Vec3(0.0, 0.0, 0.0), Vec3(65534.0, 0.0, 2.0), ROUNDED_CELL)
    ensures f.gridX * f.gridZ <= MAX_CELLS && !RefsOverflow(ROUNDED, f, [true, true])
  {
    FrameOf();
    Rectangles(f.boundsMin);
    hide CellRange;
    var ps := Placements(ROUNDED, [true, true], f.boundsMin, f.cellSize, f.gridX, f.gridZ);
    assert TotalRefs(ps, 2) == TotalRefs(ps, 1) + ps[1].Refs() && TotalRefs(ps, 1) == TotalRefs(ps, 0) + ps[0].Refs();
  }

  /** And `Build` does accept the mesh. */
  method BuildRounded() returns (o: Occluders<real>)
    ensures o.Indexable() && o.cellSize == ROUNDED_CELL && !Consistent(o)
    ensures ScanBlocked(o, ABOVE, DOWN) && !WalkBlocked(o, ABOVE, DOWN)
  {
    Corners();
    var r;
    ghost var plan;
    r, plan := Build(Some(ROUNDED), ROUNDED_CELL, 0.0);
    hide Keeps, IndicesOk, FailsAs, Occluders.Indexable, Assembled, Selected, ScanBlocked, WalkBlocked, Consistent;
    if r.Err? {
      Accepted(plan.keep, r.error);
      assert false;
    }
    SomeIsKept();
    o := r.value;
    RoundedWallIsMissed(o, plan);
    FrameOfBuilt(o, plan);
  }

  lemma Accepted(keep: seq<bool>, error: BuildError)
    requires MeshOk(ROUNDED) && Selected(ROUNDED, 0.0, keep)
    ensures !FailsAs(ROUNDED, ROUNDED_CELL, keep, error)
  {
    BothKept(keep);
    hide IsBox, Frame, RefsOverflow;
    forall lo: Vec, hi: Vec | IsBox(ROUNDED, keep, lo, hi)
      ensures var f := Frame(lo, hi, ROUNDED_CELL);
              f.gridX * f.gridZ <= MAX_CELLS && f.cellSize > 0.0 && !RefsOverflow(ROUNDED, f, keep)
    {
      BoxOf(lo, hi);
      TwoReferences(Frame(lo, hi, ROUNDED_CELL));
    }
  }

  lemma SomeIsKept()
    ensures !KeepsNone(ROUNDED, 0.0)
  {
    Corners();
    if KeepsNone(ROUNDED, 0.0) {
      BothKept([false, false]);
    }
  }
}
