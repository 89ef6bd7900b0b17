/** What `Build` gives the query: safe tables, the original triangles in the right cells, near-exact vertices. */
module LosBuilt {
  import opened Basics
  import opened Los
  import opened LosAxis
  import opened LosCells
  import opened LosWalk
  import opened LosQuery
  import opened LosBuild

  /** Every number below the total belongs to a kept triangle. */
  lemma {:induction false} NumberOnto(keep: seq<bool>, n: nat, t: nat) returns (i: nat)
    requires n <= |keep| && t < Number(keep, n)
    ensures i < n && keep[i] && Number(keep, i) == t
  {
    if Number(keep, n - 1) == t {
      i := n - 1;
    } else {
      i := NumberOnto(keep, n - 1, t);
    }
  }

  lemma {:induction false} TilesLocate(starts: seq<int>, total: int, r: int, n: nat) returns (k: nat)
    requires Tiles(starts, total) && 1 <= n < |starts| && 0 <= r < starts[n]
    ensures k < n && starts[k] <= r < starts[k + 1]
  {
    if starts[n - 1] <= r {
      k := n - 1;
    } else {
      k := TilesLocate(starts, total, r, n - 1);
    }
  }

  // ---- Placements and listings ------------------------------------------------------------

  ghost function PlacementsOf(m: Mesh, o: Occluders<real>, plan: Plan): seq<Placement>
    requires MeshOk(m) && |plan.keep| == |m.triangles| && o.cellSize > 0.0
  {
    Placements(m, plan.keep, o.boundsMin, o.cellSize, o.gridX, o.gridZ)
  }

  /** The XZ rectangle of original triangle `i` holds cell `c`. */
  ghost predicate RectangleHolds(m: Mesh, o: Occluders<real>, i: int, c: Cell)
    requires 0 <= i < |m.triangles| && IndicesOk(m, i) && o.cellSize > 0.0
  {
    var p := CellRange(m, o.boundsMin, o.cellSize, o.gridX, o.gridZ, i, 0);
    p.ix0 <= c.0 <= p.ix1 && p.iz0 <= c.1 <= p.iz1
  }

  lemma CoversRectangle(m: Mesh, o: Occluders<real>, plan: Plan, i: int, c: Cell)
    requires MeshOk(m) && |plan.keep| == |m.triangles| && o.cellSize > 0.0 && InGrid(o, c) && 0 <= i < |plan.keep|
    ensures IndicesOk(m, i)
    ensures Covers(PlacementsOf(m, o, plan)[i], o.gridX, CellIndex(o.gridX, c.0, c.1))
            <==> plan.keep[i] && RectangleHolds(m, o, i, c)
  {
    assert IndicesOk(m, i);
    CellNumber(o.gridX, o.gridZ, c.0, c.1);
    hide Col, Row, Column;
  }

  // ---- Safe tables -------------------------------------------------------------------------

  lemma VertexIndicesInRange(m: Mesh, o: Occluders<real>, plan: Plan, j: int)
    requires MeshOk(m) && |plan.keep| == |m.triangles| && NumbersUsed(m, plan.keep, plan.remap, plan.used)
    requires TrisMatch(m, plan.keep, plan.remap, o.tris) && 0 <= j < |o.tris|
    ensures 0 <= o.tris[j] < plan.used
  {
    var keep := plan.keep;
    var t, k := j / 3, j % 3;
    var i := NumberOnto(keep, |keep|, t);
    assert TriAt(m, keep, plan.remap, o.tris, i);
    var v := m.triangles[i].At(k);
    assert j == 3 * Number(keep, i) + k;
    assert 0 <= i < |keep| && keep[i] && 0 <= k < 3 && m.triangles[i].At(k) == v;
    assert IndicesOk(m, i);
    assert UsedBy(m, keep, |keep|, v);
    assert plan.remap[v] >= 0;
  }

  lemma CellEntryInRange(m: Mesh, o: Occluders<real>, plan: Plan, r: int)
    requires MeshOk(m) && |plan.keep| == |m.triangles| && o.cellSize > 0.0
    requires CellsMatch(o, PlacementsOf(m, o, plan)) && 0 <= r < |o.cellTris|
    requires TrisMatch(m, plan.keep, plan.remap, o.tris)
    ensures 0 <= o.cellTris[r] < o.TriangleCount()
  {
    var ps, keep := PlacementsOf(m, o, plan), plan.keep;
    var k := TilesLocate(o.cellStart, |o.cellTris|, r, |o.cellStart| - 1);
    var list := Listing(ps, o.gridX, k, |ps|);
    assert Slice(o.cellStart, o.cellTris, k)[r - o.cellStart[k]] == o.cellTris[r];
    ListingExact(ps, o.gridX, k, |ps|, o.cellTris[r]);
    var i :| 0 <= i < |ps| && Covers(ps[i], o.gridX, k) && ps[i].id == o.cellTris[r];
    assert keep[i];
    NumberGrows(keep, i, |keep|);
  }

  lemma AxisCovered(ext: real, cell: real)
    requires cell > 0.0
    ensures ext <= AtLeastOne(Ceil(ext / cell)) as real * cell
  {
    var n := AtLeastOne(Ceil(ext / cell));
    DivMul(ext, cell);
    MulCancel(n as real, ext / cell, cell);
  }

  lemma RangeOrdered(m: Mesh, keep: seq<bool>, f: Vec -> real, lo: real, hi: real)
    requires MeshOk(m) && |keep| == |m.triangles| && RangeOf(m, keep, |keep|, f, Some((lo, hi)))
    ensures lo <= hi
  {
    var i, k :| KeptCornerAt(m, keep, |keep|, i, k) && f(MeshCorner(m, i, k)) == lo;
  }

  /** The parts of `Assembled`, without the arithmetic of the grid. */
  lemma Parts(m: Mesh, cell: real, o: Occluders<real>, plan: Plan)
    requires Assembled(m, cell, o, plan)
    ensures MeshOk(m) && |plan.keep| == |m.triangles| && o.cellSize == cell > 0.0 && o.gridX >= 1 && o.gridZ >= 1
    ensures IsBox(m, plan.keep, o.boundsMin, o.boundsMax)
    ensures NumbersUsed(m, plan.keep, plan.remap, plan.used)
    ensures TablesMatch(m, o, plan)
    ensures o.scale == Vec3(ScaleOf(Extent(o).x), ScaleOf(Extent(o).y), ScaleOf(Extent(o).z))
  {
    hide IsBox, NumbersUsed, TablesMatch, ScaleOf, Ceil;
  }

  lemma BuiltCovers(m: Mesh, cell: real, o: Occluders<real>, plan: Plan)
    requires Assembled(m, cell, o, plan)
    ensures GridCoversBounds(o)
  {
    hide TablesMatch, NumbersUsed, Frame, RangeOf;
    RangeOrdered(m, plan.keep, GetX, o.boundsMin.x, o.boundsMax.x);
    RangeOrdered(m, plan.keep, GetZ, o.boundsMin.z, o.boundsMax.z);
    FrameCovers(o.boundsMin, o.boundsMax, cell);
  }

  lemma FrameCovers(lo: Vec, hi: Vec, cell: real)
    requires cell > 0.0 && lo.x <= hi.x && lo.z <= hi.z
    ensures GridCoversBounds(Frame(lo, hi, cell))
  {
    AxisCovered(hi.x - lo.x, cell);
    AxisCovered(hi.z - lo.z, cell);
    hide Ceil;
  }

  lemma BuiltTables(m: Mesh, cell: real, o: Occluders<real>, plan: Plan)
    requires Assembled(m, cell, o, plan)
    ensures forall j :: 0 <= j < |o.tris| ==> 0 <= o.tris[j] < o.VertexCount()
    ensures forall r :: 0 <= r < |o.cellTris| ==> 0 <= o.cellTris[r] < o.TriangleCount()
    ensures |o.verts| % 3 == 0 && |o.tris| % 3 == 0
    ensures |o.cellStart| == o.gridX * o.gridZ + 1 && Tiles(o.cellStart, |o.cellTris|)
  {
    hide Assembled, Numbering, Number, UsedBy, Tiles, Slice, Placements, TriAt, VertAt;
    Parts(m, cell, o, plan);
    forall j | 0 <= j < |o.tris|
      ensures 0 <= o.tris[j] < o.VertexCount()
    {
      VertexIndicesInRange(m, o, plan, j);
    }
    forall r | 0 <= r < |o.cellTris|
      ensures 0 <= o.cellTris[r] < o.TriangleCount()
    {
      CellEntryInRange(m, o, plan, r);
    }
  }

  /** Every table access of the query is in range, and the grid reaches over the bounds. */
  lemma BuiltIsSafe(m: Mesh, cell: real, o: Occluders<real>, plan: Plan)
    requires Assembled(m, cell, o, plan)
    ensures o.Indexable() && GridCoversBounds(o)
  {
    BuiltCovers(m, cell, o, plan);
    BuiltTables(m, cell, o, plan);
    hide Assembled, Tiles;
  }

  /** A cell lists exactly the kept triangles whose own rectangle holds it ... */
  lemma BuiltListsExactly(m: Mesh, cell: real, o: Occluders<real>, plan: Plan, c: Cell, t: int)
    requires Assembled(m, cell, o, plan) && InGrid(o, c)
    ensures o.Indexable() && MeshOk(m)
    ensures Lists(o, c, t) <==>
            exists i :: 0 <= i < |plan.keep| && plan.keep[i] && Number(plan.keep, i) == t && RectangleHolds(m, o, i, c)
  {
    BuiltIsSafe(m, cell, o, plan);
    BuiltTables(m, cell, o, plan);
    hide Assembled, Occluders.Indexable, Covers, RectangleHolds, Lists, Listing, Slice, Placements;
    hide VertsMatch, TrisMatch, NumbersUsed, IsBox, Tiles, Number, CellIndex;
    Parts(m, cell, o, plan);
    var ps := PlacementsOf(m, o, plan);
    var k := CellIndex(o.gridX, c.0, c.1);
    CellNumber(o.gridX, o.gridZ, c.0, c.1);
    ListsIsSlice(o, c, t);
    ListedIffCovers(m, o, plan, c, t);
  }

  lemma ListedIffCovers(m: Mesh, o: Occluders<real>, plan: Plan, c: Cell, t: int)
    requires MeshOk(m) && |plan.keep| == |m.triangles| && o.cellSize > 0.0 && InGrid(o, c)
    ensures var ps := PlacementsOf(m, o, plan);
            t in Listing(ps, o.gridX, CellIndex(o.gridX, c.0, c.1), |ps|) <==>
            exists i :: 0 <= i < |plan.keep| && plan.keep[i] && Number(plan.keep, i) == t && RectangleHolds(m, o, i, c)
  {
    hide CellIndex, Number, RectangleHolds, Listing, CellRange, Col, Row;
    var ps := PlacementsOf(m, o, plan);
    var k := CellIndex(o.gridX, c.0, c.1);
    ListingExact(ps, o.gridX, k, |ps|, t);
    forall i | 0 <= i < |plan.keep|
      ensures IndicesOk(m, i)
      ensures Covers(ps[i], o.gridX, k) && ps[i].id == t <==>
              plan.keep[i] && Number(plan.keep, i) == t && RectangleHolds(m, o, i, c)
    {
      CoversRectangle(m, o, plan, i, c);
      if plan.keep[i] { PlacedId(m, o, plan, i); }
    }
    hide PlacementsOf, Placements;
  }

  lemma PlacedId(m: Mesh, o: Occluders<real>, plan: Plan, i: int)
    requires MeshOk(m) && |plan.keep| == |m.triangles| && o.cellSize > 0.0 && 0 <= i < |plan.keep| && plan.keep[i]
    ensures PlacementsOf(m, o, plan)[i].Placed? && PlacementsOf(m, o, plan)[i].id == Number(plan.keep, i)
  {
    assert IndicesOk(m, i);
    hide Column, Number;
  }

  lemma ListsIsSlice(o: Occluders<real>, c: Cell, t: int)
    requires o.Indexable() && InGrid(o, c) && Tiles(o.cellStart, |o.cellTris|)
    requires 0 <= CellIndex(o.gridX, c.0, c.1) < |o.cellStart| - 1
    ensures Lists(o, c, t) <==> t in Slice(o.cellStart, o.cellTris, CellIndex(o.gridX, c.0, c.1))
  {
    var i := CellIndex(o.gridX, c.0, c.1);
    var s := Slice(o.cellStart, o.cellTris, i);
    if Lists(o, c, t) {
      var r :| o.cellStart[i] <= r < o.cellStart[i + 1] && 0 <= r < |o.cellTris| && o.cellTris[r] == t;
      assert s[r - o.cellStart[i]] == t;
    }
    if t in s {
      var j :| 0 <= j < |s| && s[j] == t;
      assert o.cellTris[o.cellStart[i] + j] == t;
    }
  }

  /** ... each of them once, in input order. */
  lemma BuiltListsOnce(m: Mesh, cell: real, o: Occluders<real>, plan: Plan, k: int)
    requires Assembled(m, cell, o, plan) && 0 <= k < |o.cellStart| - 1
    ensures Tiles(o.cellStart, |o.cellTris|)
    ensures var s := Slice(o.cellStart, o.cellTris, k);
            forall i, j :: 0 <= i < j < |s| ==> s[i] < s[j]
  {
    FrameGrid(o.boundsMin, o.boundsMax, cell);
    var ps := PlacementsOf(m, o, plan);
    PlacementsFit(m, plan.keep, o.boundsMin, o.cellSize, o.gridX, o.gridZ);
    ListingIncreasing(ps, o.gridX, k, |ps|);
    hide Placements, Listing, Numbered;
  }

  // ---- Vertices ------------------------------------------------------------------------------

  /** Quantising moves a coordinate by at most half a step, and not out of the bounds. */
  lemma QuantisedNear(min: real, ext: real, v: real)
    requires ext >= 0.0 && min <= v <= min + ext
    ensures var w := Dequantise(min, ScaleOf(ext), Quantise(min, ext, v));
            Abs(w - v) <= ScaleOf(ext) / 2.0 && min <= w <= min + ext
  {
    if ext > 0.0 {
      var q := (v - min) / ext;
      DivMul(v - min, ext);
      MulCancel(q, 0.0, ext);
      MulCancel(1.0, q, ext);
      var r := q * QUANT_RANGE as real;
      var n := Round(r);
      assert n as real - 0.5 <= r <= n as real + 0.5 && 0 <= n <= QUANT_RANGE;
      assert Quantise(min, ext, v) == n - QUANT_BIAS;
      var s := ScaleOf(ext);
      DivMul(ext, QUANT_RANGE as real);
      StepsBack(min, s, n);
      RatioSteps(q, ext, s);
      hide Dequantise, Quantise, ScaleOf, Round, Times;
      RoundedNear(min, v, s, r, n as real);
    }
  }

  ghost function Times(a: real, s: real): real { a * s }

  lemma StepsBack(min: real, s: real, n: int)
    ensures Dequantise(min, s, n - QUANT_BIAS) == min + Times(n as real, s)
  {
    assert (n - QUANT_BIAS) as real == n as real - QUANT_BIAS as real;
  }

  lemma RatioSteps(q: real, ext: real, s: real)
    requires QUANT_RANGE as real * s == ext
    ensures Times(q * QUANT_RANGE as real, s) == ext * q
    ensures Times(QUANT_RANGE as real, s) == ext
  {
  }

  lemma RoundedNear(min: real, v: real, s: real, r: real, n: real)
    requires s >= 0.0 && v - min == Times(r, s) && n - 0.5 <= r <= n + 0.5 && 0.0 <= n <= QUANT_RANGE as real
    ensures Abs(min + Times(n, s) - v) <= s / 2.0
    ensures min <= min + Times(n, s) <= min + Times(QUANT_RANGE as real, s)
  {
    NonNegProduct(n, s);
    NonNegProduct(QUANT_RANGE as real - n, s);
    NonNegProduct(r - n + 0.5, s);
    NonNegProduct(n + 0.5 - r, s);
  }

  ghost predicate Near(a: Vec, b: Vec, step: Vec) {
    Abs(a.x - b.x) <= step.x / 2.0 && Abs(a.y - b.y) <= step.y / 2.0 && Abs(a.z - b.z) <= step.z / 2.0
  }

  ghost predicate InBox(v: Vec, lo: Vec, hi: Vec) {
    lo.x <= v.x <= hi.x && lo.y <= v.y <= hi.y && lo.z <= v.z <= hi.z
  }

  lemma CornerInBox(m: Mesh, keep: seq<bool>, lo: Vec, hi: Vec, i: int, k: int)
    requires MeshOk(m) && |keep| == |m.triangles| && IsBox(m, keep, lo, hi)
    requires 0 <= i < |keep| && keep[i] && 0 <= k < 3
    ensures IndicesOk(m, i) && InBox(MeshCorner(m, i, k), lo, hi)
  {
    assert IndicesOk(m, i);
    assert KeptCornerAt(m, keep, |keep|, i, k);
  }

  /** The stored corner of a kept triangle is its original quantised there and back. */
  lemma StoredCorner(m: Mesh, o: Occluders<real>, plan: Plan, i: int, k: int)
    requires MeshOk(m) && |plan.keep| == |m.triangles| && o.cellSize > 0.0
    requires NumbersUsed(m, plan.keep, plan.remap, plan.used) && TablesMatch(m, o, plan)
    requires o.Indexable() && 0 <= i < |plan.keep| && plan.keep[i] && 0 <= k < 3
    ensures IndicesOk(m, i) && Number(plan.keep, i) < o.TriangleCount()
    ensures var v := MeshCorner(m, i, k); var w := Corner(o, Number(plan.keep, i), k);
            && w.x == Dequantise(o.boundsMin.x, o.scale.x, Quantise(o.boundsMin.x, Extent(o).x, v.x))
            && w.y == Dequantise(o.boundsMin.y, o.scale.y, Quantise(o.boundsMin.y, Extent(o).y, v.y))
            && w.z == Dequantise(o.boundsMin.z, o.scale.z, Quantise(o.boundsMin.z, Extent(o).z, v.z))
  {
    hide Occluders.Indexable, Quantise, Dequantise, CellsMatch, Numbering;
    StoredIndex(m, o, plan, i, k);
    hide Number, TrisMatch, VertsMatch, NumbersUsed;
  }

  lemma StoredIndex(m: Mesh, o: Occluders<real>, plan: Plan, i: int, k: int)
    requires MeshOk(m) && |plan.keep| == |m.triangles|
    requires NumbersUsed(m, plan.keep, plan.remap, plan.used)
    requires TrisMatch(m, plan.keep, plan.remap, o.tris)
    requires VertsMatch(m, plan.remap, plan.used, o.boundsMin, Extent(o), o.verts)
    requires 0 <= i < |plan.keep| && plan.keep[i] && 0 <= k < 3
    ensures IndicesOk(m, i) && 3 * Number(plan.keep, i) + 2 < |o.tris|
    ensures o.tris[3 * Number(plan.keep, i) + k] == plan.remap[m.triangles[i].At(k)]
    ensures VertAt(m, plan.remap, o.boundsMin, Extent(o), o.verts, m.triangles[i].At(k))
  {
    hide Quantise, VertAt, Extent, Numbering, Number;
    var keep, remap := plan.keep, plan.remap;
    assert TriAt(m, keep, remap, o.tris, i);
    var n := m.triangles[i].At(k);
    assert 0 <= i < |keep| && keep[i] && 0 <= k < 3 && m.triangles[i].At(k) == n;
    assert UsedBy(m, keep, |keep|, n);
  }

  /** No stored corner is further than half a quantisation step from the original, or out of the bounds. */
  lemma BuiltNearMesh(m: Mesh, cell: real, o: Occluders<real>, plan: Plan, i: int, k: int)
    requires Assembled(m, cell, o, plan) && 0 <= i < |plan.keep| && plan.keep[i] && 0 <= k < 3
    ensures o.Indexable() && IndicesOk(m, i) && Number(plan.keep, i) < o.TriangleCount()
    ensures Near(Corner(o, Number(plan.keep, i), k), MeshCorner(m, i, k), o.scale)
    ensures InBox(Corner(o, Number(plan.keep, i), k), o.boundsMin, o.boundsMax)
  {
    hide Assembled, Occluders.Indexable, Quantise, Dequantise, ScaleOf, Corner, MeshCorner, Number, TablesMatch,
         NumbersUsed, IsBox, Abs;
    BuiltIsSafe(m, cell, o, plan);
    Parts(m, cell, o, plan);
    StoredCorner(m, o, plan, i, k);
    CornerInBox(m, plan.keep, o.boundsMin, o.boundsMax, i, k);
    var v := MeshCorner(m, i, k);
    QuantisedNear(o.boundsMin.x, Extent(o).x, v.x);
    QuantisedNear(o.boundsMin.y, Extent(o).y, v.y);
    QuantisedNear(o.boundsMin.z, Extent(o).z, v.z);
  }
}
