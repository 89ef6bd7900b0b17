/** The occluder that `Build` makes, in coordinates: bounds, grid, scale, corners and cell lists. */
module LosFrame {
  import opened Basics
  import opened Los
  import opened LosAxis
  import opened LosCells
  import opened LosQuery
  import opened LosBuild
  import opened LosBuilt

  /** `w` is a corner of triangle `i`. */
  predicate HasCorner(m: Mesh, i: int, w: Vec)
    requires 0 <= i < |m.triangles| && IndicesOk(m, i)
  {
    var t := m.triangles[i];
    w == m.vertices[t.a] || w == m.vertices[t.b] || w == m.vertices[t.c]
  }

  ghost predicate KeptCorner(m: Mesh, keep: seq<bool>, w: Vec)
    requires MeshOk(m) && |keep| == |m.triangles|
  {
    exists i :: 0 <= i < |keep| && keep[i] && IndicesOk(m, i) && HasCorner(m, i, w)
  }

  lemma CornerIff(m: Mesh, i: int, w: Vec)
    requires 0 <= i < |m.triangles| && IndicesOk(m, i)
    ensures HasCorner(m, i, w) <==> exists k :: 0 <= k < 3 && MeshCorner(m, i, k) == w
  {
    assert MeshCorner(m, i, 0) == m.vertices[m.triangles[i].a] && MeshCorner(m, i, 1) == m.vertices[m.triangles[i].b]
        && MeshCorner(m, i, 2) == m.vertices[m.triangles[i].c];
  }

  // ---- Bounds -----------------------------------------------------------------------------

  /** `lo` and `hi` are the least and the greatest `f` of the kept corners. */
  ghost predicate Exact(m: Mesh, keep: seq<bool>, f: Vec -> real, lo: real, hi: real)
    requires MeshOk(m) && |keep| == |m.triangles|
  {
    && (forall w :: KeptCorner(m, keep, w) ==> lo <= f(w) <= hi)
    && (exists w :: KeptCorner(m, keep, w) && f(w) == lo) && exists w :: KeptCorner(m, keep, w) && f(w) == hi
  }

  lemma RangeIsExact(m: Mesh, keep: seq<bool>, f: Vec -> real, lo: real, hi: real)
    requires MeshOk(m) && |keep| == |m.triangles| && RangeOf(m, keep, |keep|, f, Some((lo, hi)))
    ensures Exact(m, keep, f, lo, hi)
  {
    forall i, k | KeptCornerAt(m, keep, |keep|, i, k)
      ensures IndicesOk(m, i) && KeptCorner(m, keep, MeshCorner(m, i, k))
    {
      assert IndicesOk(m, i);
      CornerIff(m, i, MeshCorner(m, i, k));
    }
    forall w | KeptCorner(m, keep, w)
      ensures lo <= f(w) <= hi
    {
      var i :| 0 <= i < |keep| && keep[i] && HasCorner(m, i, w);
      CornerIff(m, i, w);
      var k :| 0 <= k < 3 && MeshCorner(m, i, k) == w;
      assert KeptCornerAt(m, keep, |keep|, i, k);
    }
    var i, k :| KeptCornerAt(m, keep, |keep|, i, k) && f(MeshCorner(m, i, k)) == lo;
    assert KeptCorner(m, keep, MeshCorner(m, i, k));
    var j, l :| KeptCornerAt(m, keep, |keep|, j, l) && f(MeshCorner(m, j, l)) == hi;
    assert KeptCorner(m, keep, MeshCorner(m, j, l));
  }

  /** The bounds are the tightest box around the kept triangles; the grid begins at its lower corner. */
  lemma BoundsAreTight(m: Mesh, cell: real, o: Occluders<real>, plan: Plan)
    requires Assembled(m, cell, o, plan)
    ensures MeshOk(m) && |plan.keep| == |m.triangles| && o.origin == o.boundsMin && o.cellSize == cell
    ensures Exact(m, plan.keep, (w: Vec) => w.x, o.boundsMin.x, o.boundsMax.x)
    ensures Exact(m, plan.keep, (w: Vec) => w.y, o.boundsMin.y, o.boundsMax.y)
    ensures Exact(m, plan.keep, (w: Vec) => w.z, o.boundsMin.z, o.boundsMax.z)
  {
    hide TablesMatch, RangeOf, NumbersUsed, Exact, Ceil, ScaleOf;
    RangeIsExact(m, plan.keep, GetX, o.boundsMin.x, o.boundsMax.x);
    RangeIsExact(m, plan.keep, GetY, o.boundsMin.y, o.boundsMax.y);
    RangeIsExact(m, plan.keep, GetZ, o.boundsMin.z, o.boundsMax.z);
    SameExact(m, plan.keep, GetX, (w: Vec) => w.x, o.boundsMin.x, o.boundsMax.x);
    SameExact(m, plan.keep, GetY, (w: Vec) => w.y, o.boundsMin.y, o.boundsMax.y);
    SameExact(m, plan.keep, GetZ, (w: Vec) => w.z, o.boundsMin.z, o.boundsMax.z);
  }

  lemma SameExact(m: Mesh, keep: seq<bool>, f: Vec -> real, g: Vec -> real, lo: real, hi: real)
    requires MeshOk(m) && |keep| == |m.triangles| && Exact(m, keep, f, lo, hi) && forall w :: f(w) == g(w)
    ensures Exact(m, keep, g, lo, hi)
  {
    hide KeptCorner;
  }

  // ---- Grid and scale -----------------------------------------------------------------------

  /** The least number of cells, at least one, that covers the extent. */
  predicate Fewest(n: int, ext: real, cell: real) {
    n >= 1 && n as real * cell >= ext && (n > 1 ==> (n - 1) as real * cell < ext)
  }

  lemma CeilIsFewest(ext: real, cell: real)
    requires cell > 0.0
    ensures Fewest(AtLeastOne(Ceil(ext / cell)), ext, cell)
  {
    var q := ext / cell;
    var n := AtLeastOne(Ceil(q));
    DivMul(ext, cell);
    MulCancel(n as real, q, cell);
    MulCancel((n - 1) as real, q, cell);
  }

  lemma ScaleSpans(ext: real)
    requires ext >= 0.0
    ensures ScaleOf(ext) * 65534.0 == ext
  {
  }

  /** The grid is the smallest that covers the bounds, and 65534 steps span them. */
  lemma GridAndScale(m: Mesh, cell: real, o: Occluders<real>, plan: Plan)
    requires Assembled(m, cell, o, plan)
    ensures Fewest(o.gridX, o.boundsMax.x - o.boundsMin.x, cell) && Fewest(o.gridZ, o.boundsMax.z - o.boundsMin.z, cell)
    ensures o.scale.x * 65534.0 == o.boundsMax.x - o.boundsMin.x
    ensures o.scale.y * 65534.0 == o.boundsMax.y - o.boundsMin.y
    ensures o.scale.z * 65534.0 == o.boundsMax.z - o.boundsMin.z
  {
    hide RangeOf, NumbersUsed, TablesMatch, Ceil, AtLeastOne, Fewest, ScaleOf;
    var ext := Extent(o);
    RangeOrdered(m, plan.keep, GetX, o.boundsMin.x, o.boundsMax.x);
    RangeOrdered(m, plan.keep, GetY, o.boundsMin.y, o.boundsMax.y);
    RangeOrdered(m, plan.keep, GetZ, o.boundsMin.z, o.boundsMax.z);
    CeilIsFewest(ext.x, cell);
    CeilIsFewest(ext.z, cell);
    ScaleSpans(ext.x);
    ScaleSpans(ext.y);
    ScaleSpans(ext.z);
  }

  // ---- Corners ------------------------------------------------------------------------------

  /** Where a stored corner is: 32767 steps of the scale make a stored 0 the middle of the bounds. */
  lemma CornerPlace(o: Occluders<real>, t: int, k: int)
    requires o.Indexable() && 0 <= t < o.TriangleCount() && 0 <= k < 3
    ensures var v := o.tris[3 * t + k];
      && 0 <= v && 3 * v + 2 < |o.verts|
      && Corner(o, t, k).x == o.boundsMin.x + (o.verts[3 * v] + 32767) as real * o.scale.x
      && Corner(o, t, k).y == o.boundsMin.y + (o.verts[3 * v + 1] + 32767) as real * o.scale.y
      && Corner(o, t, k).z == o.boundsMin.z + (o.verts[3 * v + 2] + 32767) as real * o.scale.z
  {
    var v := o.tris[3 * t + k];
    Biased(o.boundsMin.x, o.scale.x, o.verts[3 * v]);
    Biased(o.boundsMin.y, o.scale.y, o.verts[3 * v + 1]);
    Biased(o.boundsMin.z, o.scale.z, o.verts[3 * v + 2]);
    hide Dequantise, Tiles;
  }

  lemma Biased(lo: real, scale: real, q: int)
    ensures Dequantise(lo, scale, q) == lo + (q + 32767) as real * scale
  {
    assert (q + 32767) as real * scale == 32767.0 * scale + q as real * scale;
  }

  // ---- Cells --------------------------------------------------------------------------------

  /** On one axis, the three coordinates reach into the `k`-th cell; the last cell holds its far border too. */
  predicate Reaches(a: real, b: real, c: real, lo: real, cell: real, n: int, k: int) {
    && (a >= lo + k as real * cell || b >= lo + k as real * cell || c >= lo + k as real * cell)
    && (k == n - 1 || a < lo + (k + 1) as real * cell || b < lo + (k + 1) as real * cell
        || c < lo + (k + 1) as real * cell)
  }

  lemma ColumnFrom(lo: real, cell: real, n: int, v: real, k: int)
    requires cell > 0.0 && v >= lo && 0 <= k < n
    ensures Column(lo, cell, n, v) >= k <==> v >= lo + k as real * cell
    ensures Column(lo, cell, n, v) <= k <==> k == n - 1 || v < lo + (k + 1) as real * cell
  {
    var q := (v - lo) / cell;
    DivMul(v - lo, cell);
    MulCancel(q, 0.0, cell);
    Steps(q, k, cell, v - lo);
    Steps(q, k + 1, cell, v - lo);
    FloorWithin(q, n, k);
    hide ClampCell;
  }

  lemma Steps(q: real, k: int, cell: real, far: real)
    requires cell > 0.0 && cell * q == far
    ensures q < k as real <==> far < k as real * cell
  {
    MulCancel(q, k as real, cell);
  }

  lemma FloorWithin(q: real, n: int, k: int)
    requires q >= 0.0 && 0 <= k < n
    ensures ClampCell(q, n) >= k <==> q >= k as real
    ensures ClampCell(q, n) <= k <==> k == n - 1 || q < (k + 1) as real
  {
    if q < (k + 1) as real { assert q.Floor <= k; } else { assert q.Floor >= k + 1; }
  }

  lemma SpanReaches(a: real, b: real, c: real, lo: real, cell: real, n: int, k: int)
    requires cell > 0.0 && a >= lo && b >= lo && c >= lo && 0 <= k < n
    ensures Column(lo, cell, n, Min3(a, b, c)) <= k <= Column(lo, cell, n, Max3(a, b, c)) <==>
            Reaches(a, b, c, lo, cell, n, k)
  {
    ColumnFrom(lo, cell, n, Min3(a, b, c), k);
    ColumnFrom(lo, cell, n, Max3(a, b, c), k);
    hide Column;
  }

  /** Triangle `i` of the mesh, seen from above, has a bounding box that reaches into column `ix` and row `iz`. */
  predicate ReachesCell(m: Mesh, o: Occluders<real>, i: int, ix: int, iz: int)
    requires 0 <= i < |m.triangles| && IndicesOk(m, i)
  {
    var t := m.triangles[i];
    var a, b, c := m.vertices[t.a], m.vertices[t.b], m.vertices[t.c];
    && Reaches(a.x, b.x, c.x, o.boundsMin.x, o.cellSize, o.gridX, ix)
    && Reaches(a.z, b.z, c.z, o.boundsMin.z, o.cellSize, o.gridZ, iz)
  }

  lemma RectangleReaches(m: Mesh, o: Occluders<real>, i: int, ix: int, iz: int)
    requires 0 <= i < |m.triangles| && IndicesOk(m, i) && o.cellSize > 0.0
    requires forall k :: 0 <= k < 3 ==> InBox(MeshCorner(m, i, k), o.boundsMin, o.boundsMax)
    requires 0 <= ix < o.gridX && 0 <= iz < o.gridZ
    ensures RectangleHolds(m, o, i, (ix, iz)) <==> ReachesCell(m, o, i, ix, iz)
  {
    var t := m.triangles[i];
    var a, b, c := m.vertices[t.a], m.vertices[t.b], m.vertices[t.c];
    assert MeshCorner(m, i, 0) == a && MeshCorner(m, i, 1) == b && MeshCorner(m, i, 2) == c;
    hide Column, Min3, Max3, Reaches, MeshCorner;
    SpanReaches(a.x, b.x, c.x, o.boundsMin.x, o.cellSize, o.gridX, ix);
    SpanReaches(a.z, b.z, c.z, o.boundsMin.z, o.cellSize, o.gridZ, iz);
  }

  ghost function KeptBefore(keep: seq<bool>, i: nat): set<nat>
    requires i <= |keep|
  {
    set j: nat | j < i && keep[j]
  }

  /** The `t`-th kept triangle is number `i` of the mesh, and its box reaches into the cell. */
  ghost predicate KeptReaching(m: Mesh, o: Occluders<real>, keep: seq<bool>, t: int, i: int, ix: int, iz: int)
    requires MeshOk(m) && |keep| == |m.triangles|
  {
    && 0 <= i < |keep| && keep[i] && IndicesOk(m, i) && t == |KeptBefore(keep, i)|
    && ReachesCell(m, o, i, ix, iz)
  }

  lemma {:induction false} NumberIsSize(keep: seq<bool>, i: nat)
    requires i <= |keep|
    ensures Number(keep, i) == |KeptBefore(keep, i)|
  {
    if i == 0 {
      assert KeptBefore(keep, i) == {};
    } else {
      NumberIsSize(keep, i - 1);
      assert KeptBefore(keep, i) == KeptBefore(keep, i - 1) + if keep[i - 1] then {i - 1} else {};
    }
  }

  /** The list of a cell, row by row in the table, names the kept triangles whose boxes reach into it. */
  lemma CellLists(m: Mesh, cell: real, o: Occluders<real>, plan: Plan, ix: int, iz: int, t: int)
    requires Assembled(m, cell, o, plan) && 0 <= ix < o.gridX && 0 <= iz < o.gridZ
    ensures var k := iz * o.gridX + ix;
      && MeshOk(m) && |plan.keep| == |m.triangles| && 0 <= k < |o.cellStart| - 1
      && 0 <= o.cellStart[k] <= o.cellStart[k + 1] <= |o.cellTris|
      && (t in o.cellTris[o.cellStart[k]..o.cellStart[k + 1]] <==>
            exists i :: KeptReaching(m, o, plan.keep, t, i, ix, iz))
  {
    hide Assembled, Occluders.Indexable, RectangleHolds, Lists, ReachesCell, IsBox, TablesMatch, NumbersUsed, Number,
         InBox, MeshCorner;
    Parts(m, cell, o, plan);
    BuiltListsExactly(m, cell, o, plan, (ix, iz), t);
    BuiltTables(m, cell, o, plan);
    CellSlice(o, ix, iz, t);
    forall i | 0 <= i < |plan.keep| && plan.keep[i]
      ensures IndicesOk(m, i) && (RectangleHolds(m, o, i, (ix, iz)) <==> ReachesCell(m, o, i, ix, iz))
      ensures Number(plan.keep, i) == |KeptBefore(plan.keep, i)|
    {
      assert IndicesOk(m, i);
      forall k | 0 <= k < 3
        ensures InBox(MeshCorner(m, i, k), o.boundsMin, o.boundsMax)
      {
        CornerInBox(m, plan.keep, o.boundsMin, o.boundsMax, i, k);
      }
      RectangleReaches(m, o, i, ix, iz);
      NumberIsSize(plan.keep, i);
    }
    if t in CellOf(o, ix, iz) {
      var i :| 0 <= i < |plan.keep| && plan.keep[i] && Number(plan.keep, i) == t && RectangleHolds(m, o, i, (ix, iz));
      assert KeptReaching(m, o, plan.keep, t, i, ix, iz);
    }
  }

  ghost function CellOf(o: Occluders<real>, ix: int, iz: int): seq<int> {
    var k := iz * o.gridX + ix;
    if 0 <= k < |o.cellStart| - 1 && 0 <= o.cellStart[k] <= o.cellStart[k + 1] <= |o.cellTris| then
      o.cellTris[o.cellStart[k]..o.cellStart[k + 1]]
    else []
  }

  lemma CellSlice(o: Occluders<real>, ix: int, iz: int, t: int)
    requires o.Indexable() && Tiles(o.cellStart, |o.cellTris|) && 0 <= ix < o.gridX && 0 <= iz < o.gridZ
    ensures var k := iz * o.gridX + ix;
      0 <= k < |o.cellStart| - 1 && 0 <= o.cellStart[k] <= o.cellStart[k + 1] <= |o.cellTris|
    ensures Lists(o, (ix, iz), t) <==> t in CellOf(o, ix, iz)
  {
    CellNumber(o.gridX, o.gridZ, ix, iz);
    ListsIsSlice(o, (ix, iz), t);
  }
}
