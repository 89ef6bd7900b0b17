/** The query on what `Build` makes of any mesh, and on meshes that quantisation leaves in place. */
module LosBuiltQuery {
  import opened Basics
  import opened Los
  import opened LosAxis
  import opened LosWalk
  import opened LosQuery
  import opened LosBuild
  import opened LosBuilt

  // ---- Any mesh -------------------------------------------------------------------------------

  /** Every cell that the stored box of a kept triangle covers lies in the rectangle of its original. */
  ghost predicate StoredInOriginal(m: Mesh, o: Occluders<real>, plan: Plan)
    requires MeshOk(m) && |plan.keep| == |m.triangles| && o.Indexable() && o.cellSize > 0.0
  {
    forall i, c: Cell ::
      0 <= i < |plan.keep| && plan.keep[i] && IndicesOk(m, i) && Number(plan.keep, i) < o.TriangleCount()
      && InGrid(o, c) && BoxCovers(o, Number(plan.keep, i), c)
      ==> RectangleHolds(m, o, i, c)
  }

  lemma NumberOf(m: Mesh, cell: real, o: Occluders<real>, plan: Plan, t: int) returns (i: int)
    requires Assembled(m, cell, o, plan) && 0 <= t < o.TriangleCount()
    ensures 0 <= i < |plan.keep| && plan.keep[i] && Number(plan.keep, i) == t && IndicesOk(m, i)
  {
    hide Assembled;
    Parts(m, cell, o, plan);
    hide IsBox, NumbersUsed, CellsMatch, VertsMatch;
    i := NumberOnto(plan.keep, |plan.keep|, t);
  }

  /** A cell lists a kept triangle exactly when the rectangle of its original holds the cell. */
  lemma ListsIffRectangle(m: Mesh, cell: real, o: Occluders<real>, plan: Plan, i: int, c: Cell)
    requires Assembled(m, cell, o, plan) && 0 <= i < |plan.keep| && plan.keep[i] && InGrid(o, c)
    ensures o.Indexable() && o.cellSize > 0.0 && IndicesOk(m, i) && 0 <= Number(plan.keep, i) < o.TriangleCount()
    ensures Lists(o, c, Number(plan.keep, i)) <==> RectangleHolds(m, o, i, c)
  {
    hide Assembled, Occluders.Indexable, RectangleHolds, Lists, Near, InBox, Number, CellRange;
    Parts(m, cell, o, plan);
    BuiltNearMesh(m, cell, o, plan, i, 0);
    BuiltListsExactly(m, cell, o, plan, c, Number(plan.keep, i));
    forall j | 0 <= j < |plan.keep| && plan.keep[j] && Number(plan.keep, j) == Number(plan.keep, i)
      ensures j == i
    {
      if j < i {
        NumberGrows(plan.keep, j, i);
      } else if i < j {
        NumberGrows(plan.keep, i, j);
      }
    }
  }

  /** What `Build` makes is grid-consistent exactly when quantisation moves no triangle into a cell that misses it. */
  lemma ConsistentIff(m: Mesh, cell: real, o: Occluders<real>, plan: Plan)
    requires Assembled(m, cell, o, plan)
    ensures MeshOk(m) && |plan.keep| == |m.triangles| && o.Indexable() && o.cellSize > 0.0
    ensures Consistent(o) <==> StoredInOriginal(m, o, plan)
  {
    hide Assembled, Occluders.Indexable, RectangleHolds, Lists, BoxCovers, Number, Near, Corner;
    Parts(m, cell, o, plan);
    BuiltIsSafe(m, cell, o, plan);
    forall t, k | 0 <= t < o.TriangleCount() && 0 <= k < 3
      ensures InBounds(o, Corner(o, t, k))
    {
      var i := NumberOf(m, cell, o, plan, t);
      BuiltNearMesh(m, cell, o, plan, i, k);
    }
    if StoredInOriginal(m, o, plan) {
      forall t, c: Cell | 0 <= t < o.TriangleCount() && InGrid(o, c) && BoxCovers(o, t, c)
        ensures Lists(o, c, t)
      {
        var i := NumberOf(m, cell, o, plan, t);
        ListsIffRectangle(m, cell, o, plan, i, c);
      }
    }
    if Consistent(o) {
      forall i, c: Cell | 0 <= i < |plan.keep| && plan.keep[i] && IndicesOk(m, i)
          && Number(plan.keep, i) < o.TriangleCount()
        && InGrid(o, c) && BoxCovers(o, Number(plan.keep, i), c)
        ensures RectangleHolds(m, o, i, c)
      {
        ListsIffRectangle(m, cell, o, plan, i, c);
      }
    }
  }

  // ---- The condition before building ------------------------------------------------------------

  /** A coordinate quantised and read back. */
  function Rounded(lo: real, ext: real, v: real): real { Dequantise(lo, ScaleOf(ext), Quantise(lo, ext, v)) }

  /** On one axis, what a triangle spans after rounding lies in the columns that it spanned before. */
  predicate SpanKept(lo: real, ext: real, cell: real, n: int, min: real, max: real)
    requires cell > 0.0
  {
    && Column(lo, cell, n, min) <= Column(lo, cell, n, Rounded(lo, ext, min))
    && Column(lo, cell, n, Rounded(lo, ext, max)) <= Column(lo, cell, n, max)
  }

  /** Rounding moves triangle `i` into no new column or row of the grid over `lo` and `hi`. */
  predicate RoundsInside(m: Mesh, lo: Vec, hi: Vec, cell: real, i: int)
    requires 0 <= i < |m.triangles| && IndicesOk(m, i) && cell > 0.0
  {
    var f := Frame(lo, hi, cell);
    var v0, v1, v2 := MeshCorner(m, i, 0), MeshCorner(m, i, 1), MeshCorner(m, i, 2);
    && SpanKept(lo.x, hi.x - lo.x, cell, f.gridX, Min3(v0.x, v1.x, v2.x), Max3(v0.x, v1.x, v2.x))
    && SpanKept(lo.z, hi.z - lo.z, cell, f.gridZ, Min3(v0.z, v1.z, v2.z), Max3(v0.z, v1.z, v2.z))
  }

  lemma RoundOrder(a: real, b: real)
    requires a <= b
    ensures Round(a) <= Round(b)
  {
  }

  lemma QuantiseOrder(lo: real, ext: real, a: real, b: real)
    requires ext > 0.0 && a <= b
    ensures Quantise(lo, ext, a) <= Quantise(lo, ext, b)
  {
    var x, y := (a - lo) / ext, (b - lo) / ext;
    DivMul(a - lo, ext);
    DivMul(b - lo, ext);
    MulCancel(y, x, ext);
    RoundOrder(x * QUANT_RANGE as real, y * QUANT_RANGE as real);
    hide Round;
  }

  lemma DequantiseOrder(lo: real, scale: real, p: int, q: int)
    requires scale >= 0.0 && p <= q
    ensures Dequantise(lo, scale, p) <= Dequantise(lo, scale, q)
  {
    NonNegProduct(scale, (q - p) as real);
    assert Dequantise(lo, scale, q) - Dequantise(lo, scale, p) == scale * (q - p) as real;
  }

  lemma RoundedOrder(lo: real, ext: real, a: real, b: real)
    requires ext >= 0.0 && a <= b
    ensures Rounded(lo, ext, a) <= Rounded(lo, ext, b)
  {
    if ext > 0.0 {
      QuantiseOrder(lo, ext, a, b);
      DivMul(ext, QUANT_RANGE as real);
      hide Quantise, Dequantise;
      DequantiseOrder(lo, ScaleOf(ext), Quantise(lo, ext, a), Quantise(lo, ext, b));
    }
  }

  /** Rounding keeps the order, so the extremes of the rounded corners are the rounded extremes. */
  lemma RoundedExtremes(lo: real, ext: real, a: real, b: real, c: real)
    requires ext >= 0.0
    ensures Min3(Rounded(lo, ext, a), Rounded(lo, ext, b), Rounded(lo, ext, c)) == Rounded(lo, ext, Min3(a, b, c))
    ensures Max3(Rounded(lo, ext, a), Rounded(lo, ext, b), Rounded(lo, ext, c)) == Rounded(lo, ext, Max3(a, b, c))
    ensures Rounded(lo, ext, Min3(a, b, c)) <= Rounded(lo, ext, Max3(a, b, c))
  {
    hide Rounded;
    RoundedOrder(lo, ext, Min3(a, b, c), a);
    RoundedOrder(lo, ext, Min3(a, b, c), b);
    RoundedOrder(lo, ext, Min3(a, b, c), c);
    RoundedOrder(lo, ext, a, Max3(a, b, c));
    RoundedOrder(lo, ext, b, Max3(a, b, c));
    RoundedOrder(lo, ext, c, Max3(a, b, c));
  }

  /** The stored corners of a kept triangle are its own, rounded. */
  lemma StoredIsRounded(m: Mesh, cell: real, o: Occluders<real>, plan: Plan, i: int, k: int)
    requires Assembled(m, cell, o, plan) && 0 <= i < |plan.keep| && plan.keep[i] && 0 <= k < 3
    ensures o.Indexable() && IndicesOk(m, i) && Number(plan.keep, i) < o.TriangleCount()
    ensures var v, w, e := MeshCorner(m, i, k), Corner(o, Number(plan.keep, i), k), Extent(o);
      && w.x == Rounded(o.boundsMin.x, e.x, v.x) && w.z == Rounded(o.boundsMin.z, e.z, v.z)
  {
    hide Assembled, Occluders.Indexable, Quantise, Dequantise, ScaleOf, Corner, MeshCorner, Number, TablesMatch,
         NumbersUsed, IsBox;
    BuiltIsSafe(m, cell, o, plan);
    Parts(m, cell, o, plan);
    StoredCorner(m, o, plan, i, k);
  }

  datatype Span = Span(x0: int, x1: int, z0: int, z1: int)
  {
    predicate Holds(c: Cell) { x0 <= c.0 <= x1 && z0 <= c.1 <= z1 }

    predicate In(gx: int, gz: int) { 0 <= x0 <= x1 < gx && 0 <= z0 <= z1 < gz }

    predicate Within(s: Span) { s.x0 <= x0 && x1 <= s.x1 && s.z0 <= z0 && z1 <= s.z1 }
  }

  /** The cells from one corner of a box to the other. */
  function SpanOf(o: Occluders<real>, minX: real, maxX: real, minZ: real, maxZ: real): Span
    requires o.cellSize > 0.0
  {
    Span(Column(o.boundsMin.x, o.cellSize, o.gridX, minX), Column(o.boundsMin.x, o.cellSize, o.gridX, maxX),
         Column(o.boundsMin.z, o.cellSize, o.gridZ, minZ), Column(o.boundsMin.z, o.cellSize, o.gridZ, maxZ))
  }

  lemma SpanOrdered(o: Occluders<real>, minX: real, maxX: real, minZ: real, maxZ: real)
    requires o.cellSize > 0.0 && o.gridX >= 1 && o.gridZ >= 1 && minX <= maxX && minZ <= maxZ
    ensures SpanOf(o, minX, maxX, minZ, maxZ).In(o.gridX, o.gridZ)
  {
    ColumnMonotone(o.boundsMin.x, o.cellSize, o.gridX, minX, maxX);
    ColumnMonotone(o.boundsMin.z, o.cellSize, o.gridZ, minZ, maxZ);
  }

  /** Spans of cells, by their corners. */
  lemma SpanWithinIff(a: Span, b: Span, gx: int, gz: int)
    requires a.In(gx, gz)
    ensures a.Within(b) <==> forall c: Cell :: a.Holds(c) && 0 <= c.0 < gx && 0 <= c.1 < gz ==> b.Holds(c)
  {
    if forall c: Cell :: a.Holds(c) && 0 <= c.0 < gx && 0 <= c.1 < gz ==> b.Holds(c) {
      assert a.Holds((a.x0, a.z0)) && a.Holds((a.x1, a.z1));
    }
  }

  /** What a kept triangle covers as stored, what it covered as an original, and whether the one is in the other. */
  lemma Spans(m: Mesh, cell: real, o: Occluders<real>, plan: Plan, i: int) returns (stored: Span, original: Span)
    requires Assembled(m, cell, o, plan) && 0 <= i < |plan.keep| && plan.keep[i]
    ensures o.Indexable() && o.cellSize == cell > 0.0 && IndicesOk(m, i) && Number(plan.keep, i) < o.TriangleCount()
    ensures stored.In(o.gridX, o.gridZ)
    ensures forall c: Cell :: BoxCovers(o, Number(plan.keep, i), c) <==> stored.Holds(c)
    ensures forall c: Cell :: RectangleHolds(m, o, i, c) <==> original.Holds(c)
    ensures RoundsInside(m, o.boundsMin, o.boundsMax, cell, i) <==> stored.Within(original)
  {
    hide Assembled, Occluders.Indexable, MeshCorner, Corner, Number, Column, Rounded, Min3, Max3, IsBox, NumbersUsed,
         TablesMatch, Ceil;
    Parts(m, cell, o, plan);
    BuiltIsSafe(m, cell, o, plan);
    FrameSame(m, cell, o, plan);
    var lo, e := o.boundsMin, Extent(o);
    StoredIsRounded(m, cell, o, plan, i, 0);
    StoredIsRounded(m, cell, o, plan, i, 1);
    StoredIsRounded(m, cell, o, plan, i, 2);
    var v0, v1, v2 := MeshCorner(m, i, 0), MeshCorner(m, i, 1), MeshCorner(m, i, 2);
    RoundedExtremes(lo.x, e.x, v0.x, v1.x, v2.x);
    RoundedExtremes(lo.z, e.z, v0.z, v1.z, v2.z);
    var minX, maxX := Min3(v0.x, v1.x, v2.x), Max3(v0.x, v1.x, v2.x);
    var minZ, maxZ := Min3(v0.z, v1.z, v2.z), Max3(v0.z, v1.z, v2.z);
    var x0, x1 := Rounded(lo.x, e.x, minX), Rounded(lo.x, e.x, maxX);
    var z0, z1 := Rounded(lo.z, e.z, minZ), Rounded(lo.z, e.z, maxZ);
    stored, original := SpanOf(o, x0, x1, z0, z1), SpanOf(o, minX, maxX, minZ, maxZ);
    SpanOrdered(o, x0, x1, z0, z1);
  }

  lemma FrameSame(m: Mesh, cell: real, o: Occluders<real>, plan: Plan)
    requires Assembled(m, cell, o, plan)
    ensures cell > 0.0 && Extent(o).x >= 0.0 && Extent(o).z >= 0.0
    ensures var f := Frame(o.boundsMin, o.boundsMax, cell); f.gridX == o.gridX && f.gridZ == o.gridZ
  {
    hide TablesMatch, NumbersUsed, RangeOf, Ceil;
    RangeOrdered(m, plan.keep, GetX, o.boundsMin.x, o.boundsMax.x);
    RangeOrdered(m, plan.keep, GetZ, o.boundsMin.z, o.boundsMax.z);
  }

  /** A stored box lies in the original rectangle exactly when rounding moves the triangle into no new cell. */
  lemma CellsKeptIff(m: Mesh, cell: real, o: Occluders<real>, plan: Plan, i: int)
    requires Assembled(m, cell, o, plan) && 0 <= i < |plan.keep| && plan.keep[i]
    ensures o.Indexable() && o.cellSize == cell > 0.0 && IndicesOk(m, i) && Number(plan.keep, i) < o.TriangleCount()
    ensures (forall c: Cell :: InGrid(o, c) && BoxCovers(o, Number(plan.keep, i), c) ==> RectangleHolds(m, o, i, c))
            <==> RoundsInside(m, o.boundsMin, o.boundsMax, cell, i)
  {
    hide Assembled, Occluders.Indexable, BoxCovers, RectangleHolds, RoundsInside, Number, Span.Within, Span.Holds;
    var stored, original := Spans(m, cell, o, plan, i);
    SpanWithinIff(stored, original, o.gridX, o.gridZ);
  }

  /** The box of the kept corners is one box. */
  lemma BoxUnique(m: Mesh, keep: seq<bool>, lo: Vec, hi: Vec, lo': Vec, hi': Vec)
    requires MeshOk(m) && |keep| == |m.triangles| && IsBox(m, keep, lo, hi) && IsBox(m, keep, lo', hi')
    ensures lo == lo' && hi == hi'
  {
    RangeUnique(m, keep, GetX, (lo.x, hi.x), (lo'.x, hi'.x));
    RangeUnique(m, keep, GetY, (lo.y, hi.y), (lo'.y, hi'.y));
    RangeUnique(m, keep, GetZ, (lo.z, hi.z), (lo'.z, hi'.z));
  }

  lemma RangeUnique(m: Mesh, keep: seq<bool>, f: Vec -> real, a: (real, real), b: (real, real))
    requires MeshOk(m) && |keep| == |m.triangles|
    requires RangeOf(m, keep, |keep|, f, Some(a)) && RangeOf(m, keep, |keep|, f, Some(b))
    ensures a == b
  {
    hide MeshCorner;
  }

  /**
   * What can be checked before building: given the triangles to keep and their box, the result will be grid-consistent
   * exactly when rounding moves none of them into a column or row that it did not span.
   */
  lemma ConsistentBeforehand(m: Mesh, cell: real, o: Occluders<real>, plan: Plan, lo: Vec, hi: Vec)
    requires Assembled(m, cell, o, plan) && MeshOk(m) && |plan.keep| == |m.triangles| && IsBox(m, plan.keep, lo, hi)
    ensures cell > 0.0
    ensures Consistent(o) <==>
            forall i :: 0 <= i < |plan.keep| && plan.keep[i] ==> IndicesOk(m, i) && RoundsInside(m, lo, hi, cell, i)
  {
    hide Assembled, Occluders.Indexable, BoxCovers, RectangleHolds, RoundsInside, Number, IsBox, Consistent;
    Parts(m, cell, o, plan);
    BoxUnique(m, plan.keep, lo, hi, o.boundsMin, o.boundsMax);
    ConsistentIff(m, cell, o, plan);
    forall i | 0 <= i < |plan.keep| && plan.keep[i]
      ensures IndicesOk(m, i) && Number(plan.keep, i) < o.TriangleCount()
      ensures (forall c: Cell :: InGrid(o, c) && BoxCovers(o, Number(plan.keep, i), c) ==> RectangleHolds(m, o, i, c))
              <==> RoundsInside(m, lo, hi, cell, i)
    {
      CellsKeptIff(m, cell, o, plan, i);
    }
  }

  /** The walk over the clipped segment visits cell `c`. */
  ghost predicate Visits(o: Occluders<real>, from: Vec, d: Vec, c: Cell)
    requires o.Indexable() && o.cellSize > 0.0
  {
    WalkBegins(o, from, d);
    ClipRay(o, from, d).Some? && c in ClipRay(o, from, d).value.Trace()
  }

  lemma WalkVisits(o: Occluders<real>, from: Vec, d: Vec)
    requires o.Indexable() && o.cellSize > 0.0
    ensures WalkBlocked(o, from, d) <==>
            |o.tris| != 0 && exists c: Cell :: Visits(o, from, d, c) && CellHit(o, c, from, d)
  {
    WalkBegins(o, from, d);
    hide CellHit, ClipRay, Ray.Trace, Occluders.Indexable;
  }

  /** Kept triangle `i` blocks as stored, and the walk visits a cell `c` of its original rectangle. */
  ghost predicate Reported(m: Mesh, o: Occluders<real>, plan: Plan, from: Vec, d: Vec, i: int, c: Cell)
    requires MeshOk(m) && |plan.keep| == |m.triangles| && o.Indexable() && o.cellSize > 0.0
  {
    && 0 <= i < |plan.keep| && plan.keep[i] && IndicesOk(m, i) && Number(plan.keep, i) < o.TriangleCount()
    && TriBlocked(o, Number(plan.keep, i), from, d)
    && InGrid(o, c) && Visits(o, from, d, c) && RectangleHolds(m, o, i, c)
  }

  /** A cell hits exactly when a kept triangle blocks as stored and had the cell in its original rectangle. */
  lemma CellHitIff(m: Mesh, cell: real, o: Occluders<real>, plan: Plan, from: Vec, d: Vec, c: Cell)
    requires Assembled(m, cell, o, plan)
    ensures MeshOk(m) && |plan.keep| == |m.triangles| && o.Indexable() && o.cellSize > 0.0
    ensures Visits(o, from, d, c) ==>
              (CellHit(o, c, from, d) <==> exists i :: Reported(m, o, plan, from, d, i, c))
  {
    hide Assembled, Occluders.Indexable, RectangleHolds, Lists, Number, TriBlocked, Visits;
    Parts(m, cell, o, plan);
    BuiltIsSafe(m, cell, o, plan);
    if Visits(o, from, d, c) && CellHit(o, c, from, d) {
      var t :| 0 <= t < o.TriangleCount() && Lists(o, c, t) && TriBlocked(o, t, from, d);
      var i := NumberOf(m, cell, o, plan, t);
      ListsIffRectangle(m, cell, o, plan, i, c);
      assert Reported(m, o, plan, from, d, i, c);
    }
    if i :| Reported(m, o, plan, from, d, i, c) {
      ListsIffRectangle(m, cell, o, plan, i, c);
    }
  }

  /**
   * Whatever the mesh: the query reports exactly the stored triangles that block the segment and whose original
   * rectangle holds a cell of the walk.
   */
  lemma BuiltQueryExact(m: Mesh, cell: real, o: Occluders<real>, plan: Plan, from: Vec, d: Vec)
    requires Assembled(m, cell, o, plan)
    ensures MeshOk(m) && |plan.keep| == |m.triangles| && o.Indexable() && o.cellSize > 0.0
    ensures WalkBlocked(o, from, d) <==> exists i, c: Cell :: Reported(m, o, plan, from, d, i, c)
  {
    hide WalkBlocked, Assembled, Occluders.Indexable, RectangleHolds, Number, TriBlocked, Visits, CellHit;
    Parts(m, cell, o, plan);
    BuiltIsSafe(m, cell, o, plan);
    WalkVisits(o, from, d);
    if WalkBlocked(o, from, d) {
      var c: Cell :| Visits(o, from, d, c) && CellHit(o, c, from, d);
      CellHitIff(m, cell, o, plan, from, d, c);
    }
    if i, c: Cell :| Reported(m, o, plan, from, d, i, c) {
      CellHitIff(m, cell, o, plan, from, d, c);
    }
  }

  /**
   * Away from stepped-around corners, the query on any built occluder equals the scan when no triangle moves out of
   * its cells.
   */
  lemma BuiltQueryEqualsScan(m: Mesh, cell: real, o: Occluders<real>, plan: Plan, from: Vec, d: Vec)
    requires Assembled(m, cell, o, plan)
    ensures MeshOk(m) && |plan.keep| == |m.triangles| && o.Indexable() && o.cellSize > 0.0
    ensures StoredInOriginal(m, o, plan) && NoSkippedCorner(o, from, d) ==>
            (WalkBlocked(o, from, d) <==> ScanBlocked(o, from, d))
  {
    hide StoredInOriginal, NoSkippedCorner, WalkBlocked, ScanBlocked, Consistent, Assembled, Occluders.Indexable;
    ConsistentIff(m, cell, o, plan);
    QueryEqualsScan(o, from, d);
  }

  /** Corners within half a quantisation step of those of kept triangle `i` that block the segment. */
  ghost predicate NearWall(m: Mesh, o: Occluders<real>, plan: Plan, from: Vec, d: Vec, i: int, a: Vec, b: Vec, c: Vec)
    requires MeshOk(m) && |plan.keep| == |m.triangles|
  {
    && 0 <= i < |plan.keep| && plan.keep[i] && IndicesOk(m, i)
    && Near(a, MeshCorner(m, i, 0), o.scale) && Near(b, MeshCorner(m, i, 1), o.scale)
        && Near(c, MeshCorner(m, i, 2), o.scale)
    && Blocks(a, b, c, from, d)
  }

  /** Whatever the query reports is a wall of the mesh, moved by at most half a step at each corner. */
  lemma BuiltHitIsNearWall(m: Mesh, cell: real, o: Occluders<real>, plan: Plan, from: Vec, d: Vec)
    requires Assembled(m, cell, o, plan)
    ensures MeshOk(m) && |plan.keep| == |m.triangles| && o.Indexable() && o.cellSize > 0.0
    ensures WalkBlocked(o, from, d) ==> exists i, a, b, c :: NearWall(m, o, plan, from, d, i, a, b, c)
  {
    hide WalkBlocked, Assembled, Occluders.Indexable, Number, Near, Blocks, InBox, Corner;
    Parts(m, cell, o, plan);
    BuiltIsSafe(m, cell, o, plan);
    QueryEqualsScan(o, from, d);
    if WalkBlocked(o, from, d) {
      var t :| 0 <= t < o.TriangleCount() && TriBlocked(o, t, from, d);
      var i := NumberOf(m, cell, o, plan, t);
      BuiltNearMesh(m, cell, o, plan, i, 0);
      BuiltNearMesh(m, cell, o, plan, i, 1);
      BuiltNearMesh(m, cell, o, plan, i, 2);
      assert NearWall(m, o, plan, from, d, i, Corner(o, t, 0), Corner(o, t, 1), Corner(o, t, 2));
    }
  }

  // ---- Meshes that quantisation leaves in place --------------------------------------------------

  /** No kept corner is moved by quantisation. */
  ghost predicate OnLattice(m: Mesh, o: Occluders<real>, plan: Plan)
    requires MeshOk(m) && |plan.keep| == |m.triangles| && o.Indexable()
  {
    forall i, k :: 0 <= i < |plan.keep| && plan.keep[i] && 0 <= k < 3 && IndicesOk(m, i) ==>
      Number(plan.keep, i) < o.TriangleCount() && Corner(o, Number(plan.keep, i), k) == MeshCorner(m, i, k)
  }

  /** With unmoved corners, cell rectangles of originals are boxes of stored triangles. */
  lemma LatticeConsistent(m: Mesh, cell: real, o: Occluders<real>, plan: Plan)
    requires Assembled(m, cell, o, plan) && o.Indexable() && OnLattice(m, o, plan)
    ensures MeshOk(m) && |plan.keep| == |m.triangles| && o.cellSize > 0.0 && StoredInOriginal(m, o, plan)
  {
    hide Assembled, Occluders.Indexable, RectangleHolds, BoxCovers, Number, OnLattice;
    Parts(m, cell, o, plan);
    forall i, c: Cell | 0 <= i < |plan.keep| && plan.keep[i] && IndicesOk(m, i)
        && Number(plan.keep, i) < o.TriangleCount()
      && InGrid(o, c) && BoxCovers(o, Number(plan.keep, i), c)
      ensures RectangleHolds(m, o, i, c)
    {
      BoxIsRectangle(m, o, plan, i, c);
    }
  }

  lemma BoxIsRectangle(m: Mesh, o: Occluders<real>, plan: Plan, i: int, c: Cell)
    requires MeshOk(m) && |plan.keep| == |m.triangles| && o.Indexable() && o.cellSize > 0.0 && OnLattice(m, o, plan)
    requires 0 <= i < |plan.keep| && plan.keep[i] && IndicesOk(m, i) && Number(plan.keep, i) < o.TriangleCount()
    requires InGrid(o, c) && BoxCovers(o, Number(plan.keep, i), c)
    ensures RectangleHolds(m, o, i, c)
  {
    LatticeCorner(m, o, plan, i, 0);
    LatticeCorner(m, o, plan, i, 1);
    LatticeCorner(m, o, plan, i, 2);
    hide Column, Min3, Max3, Corner, MeshCorner, OnLattice, Occluders.Indexable;
  }

  /** Some kept original triangle blocks the segment. */
  ghost predicate MeshBlocked(m: Mesh, plan: Plan, from: Vec, d: Vec)
    requires MeshOk(m) && |plan.keep| == |m.triangles|
  {
    exists i :: 0 <= i < |plan.keep| && plan.keep[i] && IndicesOk(m, i)
                && Blocks(MeshCorner(m, i, 0), MeshCorner(m, i, 1), MeshCorner(m, i, 2), from, d)
  }

  /** From mesh to answer: on lattice vertices the query decides whether a kept triangle of the mesh blocks. */
  lemma BuiltQueryEqualsMesh(m: Mesh, cell: real, o: Occluders<real>, plan: Plan, from: Vec, d: Vec)
    requires Assembled(m, cell, o, plan) && o.Indexable() && OnLattice(m, o, plan)
    requires o.cellSize > 0.0 && NoSkippedCorner(o, from, d)
    ensures WalkBlocked(o, from, d) <==> MeshBlocked(m, plan, from, d)
  {
    hide Blocks, Corner, MeshCorner, WalkBlocked, Consistent, NoSkippedCorner, Assembled, Occluders.Indexable,
         OnLattice, ScanBlocked, MeshBlocked, StoredInOriginal;
    Parts(m, cell, o, plan);
    LatticeConsistent(m, cell, o, plan);
    BuiltQueryEqualsScan(m, cell, o, plan, from, d);
    ScanEqualsMesh(m, cell, o, plan, from, d);
  }

  lemma ScanEqualsMesh(m: Mesh, cell: real, o: Occluders<real>, plan: Plan, from: Vec, d: Vec)
    requires Assembled(m, cell, o, plan) && o.Indexable() && OnLattice(m, o, plan)
    ensures MeshOk(m) && |plan.keep| == |m.triangles|
    ensures ScanBlocked(o, from, d) <==> MeshBlocked(m, plan, from, d)
  {
    hide Blocks, Corner, MeshCorner, Assembled, Occluders.Indexable, OnLattice, TriBlocked;
    Parts(m, cell, o, plan);
    var keep := plan.keep;
    if ScanBlocked(o, from, d) {
      var t :| 0 <= t < o.TriangleCount() && TriBlocked(o, t, from, d);
      var i := NumberOf(m, cell, o, plan, t);
      LatticeBlocks(m, o, plan, i, from, d);
    }
    if MeshBlocked(m, plan, from, d) {
      var i :| 0 <= i < |keep| && keep[i] && IndicesOk(m, i)
               && Blocks(MeshCorner(m, i, 0), MeshCorner(m, i, 1), MeshCorner(m, i, 2), from, d);
      LatticeBlocks(m, o, plan, i, from, d);
    }
  }

  lemma LatticeCorner(m: Mesh, o: Occluders<real>, plan: Plan, i: int, k: int)
    requires MeshOk(m) && |plan.keep| == |m.triangles| && o.Indexable() && OnLattice(m, o, plan)
    requires 0 <= i < |plan.keep| && plan.keep[i] && IndicesOk(m, i) && 0 <= k < 3
    ensures 0 <= Number(plan.keep, i) < o.TriangleCount()
    ensures Corner(o, Number(plan.keep, i), k) == MeshCorner(m, i, k)
  {
    var v := MeshCorner(m, i, k);
  }

  lemma LatticeBlocks(m: Mesh, o: Occluders<real>, plan: Plan, i: int, from: Vec, d: Vec)
    requires MeshOk(m) && |plan.keep| == |m.triangles| && o.Indexable() && OnLattice(m, o, plan)
    requires 0 <= i < |plan.keep| && plan.keep[i] && IndicesOk(m, i)
    ensures 0 <= Number(plan.keep, i) < o.TriangleCount()
    ensures TriBlocked(o, Number(plan.keep, i), from, d)
            <==> Blocks(MeshCorner(m, i, 0), MeshCorner(m, i, 1), MeshCorner(m, i, 2), from, d)
  {
    hide Blocks, Corner, MeshCorner, Occluders.Indexable;
    LatticeCorner(m, o, plan, i, 0);
    LatticeCorner(m, o, plan, i, 1);
    LatticeCorner(m, o, plan, i, 2);
  }
}
