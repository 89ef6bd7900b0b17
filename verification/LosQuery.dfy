/** `SegmentBlocked` over an occluder, and its agreement with a scan over every triangle. */
module LosQuery {
  import opened Basics
  import opened Los
  import opened LosAxis
  import opened LosCells
  import opened LosWalk

  // ---- The stored triangles -----------------------------------------------------

  /** A stored 16-bit coordinate back in world units. */
  function Dequantise(min: real, scale: real, q: int): real {
    min + QUANT_BIAS as real * scale + q as real * scale
  }

  function Vertex(o: Occluders<real>, i: int): Vec
    requires 0 <= i && 3 * i + 2 < |o.verts|
  {
    Vec3(Dequantise(o.boundsMin.x, o.scale.x, o.verts[3 * i]),
         Dequantise(o.boundsMin.y, o.scale.y, o.verts[3 * i + 1]),
         Dequantise(o.boundsMin.z, o.scale.z, o.verts[3 * i + 2]))
  }

  function Corner(o: Occluders<real>, t: int, k: int): Vec
    requires o.Indexable() && 0 <= t < o.TriangleCount() && 0 <= k < 3
  {
    Vertex(o, o.tris[3 * t + k])
  }

  predicate TriBlocked(o: Occluders<real>, t: int, from: Vec, d: Vec)
    requires o.Indexable() && 0 <= t < o.TriangleCount()
  {
    Blocks(Corner(o, t, 0), Corner(o, t, 1), Corner(o, t, 2), from, d)
  }

  /** The slow answer: some stored triangle blocks the segment. */
  ghost predicate ScanBlocked(o: Occluders<real>, from: Vec, d: Vec)
    requires o.Indexable()
  {
    exists t :: 0 <= t < o.TriangleCount() && TriBlocked(o, t, from, d)
  }

  // ---- Cells ----------------------------------------------------------------------

  function XAxis(o: Occluders<real>, from: Vec, d: Vec): Axis {
    Axis(from.x, d.x, o.boundsMin.x, o.boundsMax.x, o.cellSize, o.gridX)
  }

  function ZAxis(o: Occluders<real>, from: Vec, d: Vec): Axis {
    Axis(from.z, d.z, o.boundsMin.z, o.boundsMax.z, o.cellSize, o.gridZ)
  }

  ghost predicate InGrid(o: Occluders<real>, c: Cell) { 0 <= c.0 < o.gridX && 0 <= c.1 < o.gridZ }

  /** Cell `c` lists triangle `t`. */
  ghost predicate Lists(o: Occluders<real>, c: Cell, t: int)
    requires o.Indexable() && InGrid(o, c)
  {
    CellNumber(o.gridX, o.gridZ, c.0, c.1);
    var i := CellIndex(o.gridX, c.0, c.1);
    exists r :: o.cellStart[i] <= r < o.cellStart[i + 1] && 0 <= r < |o.cellTris| && o.cellTris[r] == t
  }

  ghost predicate CellHit(o: Occluders<real>, c: Cell, from: Vec, d: Vec)
    requires o.Indexable()
  {
    InGrid(o, c) && exists t :: 0 <= t < o.TriangleCount() && Lists(o, c, t) && TriBlocked(o, t, from, d)
  }

  // ---- Consistency of the grid with the stored triangles ------------------------------

  function Min3(a: real, b: real, c: real): real { if a <= b && a <= c then a else if b <= c then b else c }

  function Max3(a: real, b: real, c: real): real { if a >= b && a >= c then a else if b >= c then b else c }

  function Column(min: real, cell: real, n: int, x: real): int
    requires cell != 0.0
  {
    ClampCell((x - min) / cell, n)
  }

  /** The XZ box of triangle `t`, in cells, contains `c`. */
  ghost predicate BoxCovers(o: Occluders<real>, t: int, c: Cell)
    requires o.Indexable() && 0 <= t < o.TriangleCount() && o.cellSize > 0.0
  {
    var v0, v1, v2 := Corner(o, t, 0), Corner(o, t, 1), Corner(o, t, 2);
    && Column(o.boundsMin.x, o.cellSize, o.gridX, Min3(v0.x, v1.x, v2.x)) <= c.0
    && c.0 <= Column(o.boundsMin.x, o.cellSize, o.gridX, Max3(v0.x, v1.x, v2.x))
    && Column(o.boundsMin.z, o.cellSize, o.gridZ, Min3(v0.z, v1.z, v2.z)) <= c.1
    && c.1 <= Column(o.boundsMin.z, o.cellSize, o.gridZ, Max3(v0.z, v1.z, v2.z))
  }

  ghost predicate InBounds(o: Occluders<real>, v: Vec) {
    o.boundsMin.x <= v.x <= o.boundsMax.x && o.boundsMin.z <= v.z <= o.boundsMax.z
  }

  ghost predicate GridCoversBounds(o: Occluders<real>) {
    && o.cellSize > 0.0 && o.gridX >= 1 && o.gridZ >= 1
    && 0.0 <= o.boundsMax.x - o.boundsMin.x <= o.gridX as real * o.cellSize
    && 0.0 <= o.boundsMax.z - o.boundsMin.z <= o.gridZ as real * o.cellSize
  }

  /** Every stored triangle lies in the bounds and is listed in every cell its XZ box covers. */
  ghost predicate Consistent(o: Occluders<real>) {
    && o.Indexable() && GridCoversBounds(o)
    && (forall t, k :: 0 <= t < o.TriangleCount() && 0 <= k < 3 ==> InBounds(o, Corner(o, t, k)))
    && (forall t, c: Cell :: 0 <= t < o.TriangleCount() && InGrid(o, c) && BoxCovers(o, t, c) ==> Lists(o, c, t))
  }

  // ---- The clipped ray ------------------------------------------------------------------

  function ClipRay(o: Occluders<real>, from: Vec, d: Vec): Option<Ray> {
    match XAxis(o, from, d).Clip(0.0, 1.0)
    case None => None
    case Some((a0, a1)) =>
      match ZAxis(o, from, d).Clip(a0, a1)
      case None => None
      case Some((t0, t1)) =>
        if t0 > t1 then None else Some(Ray(XAxis(o, from, d), ZAxis(o, from, d), t0, t1))
  }

  /** The clipped ray holds exactly the parameters of the segment that are inside the XZ bounds. */
  lemma ClipRayExact(o: Occluders<real>, from: Vec, d: Vec)
    requires GridCoversBounds(o)
    ensures ClipRay(o, from, d).Some? ==> ClipRay(o, from, d).value.Valid()
    ensures forall s :: 0.0 <= s <= 1.0 && XAxis(o, from, d).Inside(s) && ZAxis(o, from, d).Inside(s) ==>
              ClipRay(o, from, d).Some? && ClipRay(o, from, d).value.t0 <= s <= ClipRay(o, from, d).value.t1
  {
    var x, z := XAxis(o, from, d), ZAxis(o, from, d);
    var cx := x.Clip(0.0, 1.0);
    var (a0, a1) := if cx.Some? then cx.value else (0.0, 1.0);
    forall s
      ensures cx.None? ==> !x.Inside(s)
      ensures cx.Some? ==> (a0 <= s <= a1 <==> 0.0 <= s <= 1.0 && x.Inside(s))
      ensures z.Clip(a0, a1).None? ==> !z.Inside(s)
      ensures z.Clip(a0, a1).Some? ==>
                (z.Clip(a0, a1).value.0 <= s <= z.Clip(a0, a1).value.1 <==> a0 <= s <= a1 && z.Inside(s))
    {
      ClipExact(x, 0.0, 1.0, s);
      ClipExact(z, a0, a1, s);
    }
  }

  /** What the query finds: a blocking triangle listed in some cell of the walk. */
  ghost predicate WalkBlocked(o: Occluders<real>, from: Vec, d: Vec)
    requires o.Indexable() && o.cellSize > 0.0
  {
    var r := ClipRay(o, from, d);
    |o.tris| != 0 && r.Some? && exists c :: c in r.value.Trace() && CellHit(o, c, from, d)
  }

  // ---- The query ---------------------------------------------------------------------------

  method CellBlocked(o: Occluders<real>, cx: int, cz: int, from: Vec, d: Vec) returns (blocked: bool)
    requires o.Indexable()
    ensures blocked <==> CellHit(o, (cx, cz), from, d)
  {
    if cx < 0 || cx >= o.gridX || cz < 0 || cz >= o.gridZ {
      return false;
    }
    CellNumber(o.gridX, o.gridZ, cx, cz);
    var idx := CellIndex(o.gridX, cx, cz);
    var start, end := o.cellStart[idx], o.cellStart[idx + 1];
    assert o.cellStart[0] <= start <= end <= o.cellStart[|o.cellStart| - 1];
    var r := start;
    while r < end
      invariant start <= r <= end
      invariant forall k :: start <= k < r ==> !TriBlocked(o, o.cellTris[k], from, d)
    {
      if TriBlocked(o, o.cellTris[r], from, d) {
        assert Lists(o, (cx, cz), o.cellTris[r]);
        return true;
      }
      r := r + 1;
    }
    return false;
  }

  ghost predicate WalkHits(o: Occluders<real>, r: Ray, cx: int, cz: int, from: Vec, d: Vec)
    requires o.Indexable() && r.Walkable() && r.Moves() && r.InGrid(cx, cz)
  {
    exists c :: c in r.Walk(cx, cz) && CellHit(o, c, from, d)
  }

  /** One turn of the loop: this cell, then whatever the walk from the next one finds. */
  lemma WalkHitsStep(o: Occluders<real>, r: Ray, cx: int, cz: int, from: Vec, d: Vec)
    requires o.Indexable() && r.Walkable() && r.Moves() && r.InGrid(cx, cz)
    ensures CellHit(o, (cx, cz), from, d) ==> WalkHits(o, r, cx, cz, from, d)
    ensures !CellHit(o, (cx, cz), from, d) ==>
              var nx := if Earlier(r.x.Exit(cx), r.z.Exit(cz)) then cx + r.x.Step() else cx;
              var nz := if Earlier(r.x.Exit(cx), r.z.Exit(cz)) then cz else cz + r.z.Step();
              WalkHits(o, r, cx, cz, from, d) <==>
                (cx, cz) != r.CellAt(r.t1) && r.InGrid(nx, nz) && WalkHits(o, r, nx, nz, from, d)
  {
    hide CellHit, Earlier, Axis.Cell, Axis.Exit;
    assert (cx, cz) in r.Walk(cx, cz);
    var nx := if Earlier(r.x.Exit(cx), r.z.Exit(cz)) then cx + r.x.Step() else cx;
    var nz := if Earlier(r.x.Exit(cx), r.z.Exit(cz)) then cz else cz + r.z.Step();
    if (cx, cz) == r.CellAt(r.t1) || !r.InGrid(nx, nz) {
      assert r.Walk(cx, cz) == [(cx, cz)];
    } else {
      assert r.Walk(cx, cz) == [(cx, cz)] + r.Walk(nx, nz);
    }
  }

  /** Where the walk begins, and that it finds what there is to find. */
  lemma WalkBegins(o: Occluders<real>, from: Vec, d: Vec)
    requires o.Indexable() && o.cellSize > 0.0
    ensures WalkBlocked(o, from, d) ==> |o.tris| != 0 && ClipRay(o, from, d).Some?
    ensures ClipRay(o, from, d).Some? ==>
      var r := ClipRay(o, from, d).value;
      && r.x == XAxis(o, from, d) && r.z == ZAxis(o, from, d) && r.Walkable()
          && r.InGrid(r.x.Cell(r.t0), r.z.Cell(r.t0))
      && (r.Moves() <==> !(r.x.Step() == 0 && r.z.Step() == 0))
      && (|o.tris| != 0 ==> (WalkBlocked(o, from, d) <==>
            if r.Moves() then WalkHits(o, r, r.x.Cell(r.t0), r.z.Cell(r.t0), from, d)
            else CellHit(o, r.CellAt(r.t0), from, d)))
  {
    hide CellHit, Axis.Clip, Axis.Exit, Axis.Delta;
    if ClipRay(o, from, d).Some? {
      var r := ClipRay(o, from, d).value;
      assert !r.Moves() ==> r.CellAt(r.t0) in r.Trace();
    }
  }

  method SegmentBlocked(o: Occluders<real>, from: Vec, to: Vec) returns (blocked: bool)
    requires o.Indexable() && o.cellSize > 0.0
    ensures blocked <==> WalkBlocked(o, from, Sub(to, from))
    ensures blocked ==> exists t, s, u, v :: StoredWallAt(o, t, from, to, s, u, v)
    ensures Consistent(o) && NoSkippedCorner(o, from, Sub(to, from)) ==>
              (blocked <==> exists t, s, u, v :: StoredWallAt(o, t, from, to, s, u, v))
  {
    ScanIsWalls(o, from, to);
    QueryEqualsScan(o, from, Sub(to, from));
    hide NoSkippedCorner, ScanBlocked, Consistent, StoredWallAt;
    hide Axis.Cell, Axis.Exit, Axis.Delta, Axis.Clip, Axis.Pos, Axis.At, Advance, Earlier, CellHit, Occluders.Indexable,
         Sub,
      WalkBlocked, WalkHits, ClipRay, Ray.Trace;
    var d := Sub(to, from);
    WalkBegins(o, from, d);
    if |o.tris| == 0 {
      return false;
    }
    var clipped := ClipRay(o, from, d);
    if clipped.None? {
      return false;
    }
    var ray := clipped.value;
    var x, z := ray.x, ray.z;
    var cx, cz := x.Cell(ray.t0), z.Cell(ray.t0);
    var endX, endZ := x.Cell(ray.t1), z.Cell(ray.t1);
    assert (endX, endZ) == ray.CellAt(ray.t1);
    if x.Step() == 0 && z.Step() == 0 {
      blocked := CellBlocked(o, cx, cz, from, d);
      return;
    }
    hide Ray.CellAt;
    var tMaxX, tMaxZ := x.Exit(cx), z.Exit(cz);
    var limit := o.gridX + o.gridZ + 4;
    var steps := 0;
    while true
      invariant ray.InGrid(cx, cz)
      invariant tMaxX == x.Exit(cx) && tMaxZ == z.Exit(cz)
      invariant WalkHits(o, ray, cx, cz, from, d) <==> WalkBlocked(o, from, d)
      invariant steps + ray.Remaining(cx, cz) <= o.gridX + o.gridZ
      decreases ray.Remaining(cx, cz)
    {
      WalkHitsStep(o, ray, cx, cz, from, d);
      var hit := CellBlocked(o, cx, cz, from, d);
      if hit {
        return true;
      }
      if cx == endX && cz == endZ {
        return false;
      }
      if Earlier(tMaxX, tMaxZ) {
        EarlierMoves(x, cx, tMaxZ);
        ExitNext(x, cx);
        tMaxX := Advance(tMaxX, x.Delta());
        cx := cx + x.Step();
      } else {
        NotEarlierMoves(x, z, cx, cz);
        ExitNext(z, cz);
        tMaxZ := Advance(tMaxZ, z.Delta());
        cz := cz + z.Step();
      }
      if cx < 0 || cx >= o.gridX || cz < 0 || cz >= o.gridZ {
        return false;
      }
      steps := steps + 1;
      if steps >= limit {
        // The step guard of the code, which panics.
        assert false;
        return false;
      }
    }
  }

  lemma EarlierMoves(x: Axis, cx: int, t: Option<real>)
    requires Earlier(x.Exit(cx), t)
    ensures x.d != 0.0
  {
  }

  lemma NotEarlierMoves(x: Axis, z: Axis, cx: int, cz: int)
    requires (x.d != 0.0 || z.d != 0.0) && !Earlier(x.Exit(cx), z.Exit(cz))
    ensures z.d != 0.0
  {
  }

  // ---- Agreement with the scan ---------------------------------------------------------------

  lemma NonNegProduct(a: real, b: real)
    requires a >= 0.0 && b >= 0.0
    ensures a * b >= 0.0
  {
  }

  /** A weighted mean of values at most `hi` is at most `hi`. */
  lemma MeanAtMost(a: real, b: real, c: real, u: real, v: real, hi: real)
    requires 0.0 <= u && 0.0 <= v && u + v <= 1.0 && a <= hi && b <= hi && c <= hi
    ensures a + u * (b - a) + v * (c - a) <= hi
  {
    var w := 1.0 - u - v;
    NonNegProduct(w, hi - a);
    NonNegProduct(u, hi - b);
    NonNegProduct(v, hi - c);
    assert hi - (a + u * (b - a) + v * (c - a)) == w * (hi - a) + u * (hi - b) + v * (hi - c);
  }

  /** On one axis, a meeting point lies between the corners. */
  lemma Between(axis: Axis, t: real, a: real, b: real, c: real, u: real, v: real)
    requires 0.0 <= u && 0.0 <= v && u + v <= 1.0 && SamePoint(axis.p, t, axis.d, a, u, b - a, v, c - a)
    ensures Min3(a, b, c) <= axis.At(t) <= Max3(a, b, c)
  {
    MeanAtMost(a, b, c, u, v, Max3(a, b, c));
    MeanAtMost(-a, -b, -c, u, v, -Min3(a, b, c));
    assert -a + u * (-b - -a) + v * (-c - -a) == -(a + u * (b - a) + v * (c - a));
  }

  lemma MinMaxInside(a: real, b: real, c: real, lo: real, hi: real)
    requires lo <= a <= hi && lo <= b <= hi && lo <= c <= hi
    ensures lo <= Min3(a, b, c) <= Max3(a, b, c) <= hi
  {
  }

  lemma ColumnMonotone(min: real, cell: real, n: int, x: real, y: real)
    requires cell > 0.0 && n >= 1 && x <= y
    ensures Column(min, cell, n, x) <= Column(min, cell, n, y)
  {
    DivMul(x - min, cell);
    DivMul(y - min, cell);
    MulCancel((y - min) / cell, (x - min) / cell, cell);
  }

  lemma AxisBetween(a: Axis, s: real, lo: real, hi: real)
    requires a.cell > 0.0 && a.n >= 1 && lo <= a.At(s) <= hi
    ensures Column(a.lo, a.cell, a.n, lo) <= a.Cell(s) <= Column(a.lo, a.cell, a.n, hi)
  {
    ColumnMonotone(a.lo, a.cell, a.n, lo, a.At(s));
    ColumnMonotone(a.lo, a.cell, a.n, a.At(s), hi);
  }

  /** The point where a stored triangle is hit is in bounds, in a cell that its box covers. */
  lemma HitCell(o: Occluders<real>, t: int, from: Vec, d: Vec) returns (s: real)
    requires Consistent(o) && 0 <= t < o.TriangleCount() && TriBlocked(o, t, from, d)
    ensures HIT_EPS < s < 1.0 - HIT_EPS
    ensures XAxis(o, from, d).Inside(s) && ZAxis(o, from, d).Inside(s)
    ensures BoxCovers(o, t, (XAxis(o, from, d).Cell(s), ZAxis(o, from, d).Cell(s)))
  {
    var v0, v1, v2 := Corner(o, t, 0), Corner(o, t, 1), Corner(o, t, 2);
    var u, v;
    u, v, s := BlocksMeets(v0, v1, v2, from, d);
    var x, z := XAxis(o, from, d), ZAxis(o, from, d);
    hide Vertex, Blocks, Column, Axis.Cell, Axis.At, Min3, Max3;
    Between(x, s, v0.x, v1.x, v2.x, u, v);
    Between(z, s, v0.z, v1.z, v2.z, u, v);
    AxisBetween(x, s, Min3(v0.x, v1.x, v2.x), Max3(v0.x, v1.x, v2.x));
    AxisBetween(z, s, Min3(v0.z, v1.z, v2.z), Max3(v0.z, v1.z, v2.z));
    assert InBounds(o, v0) && InBounds(o, v1) && InBounds(o, v2);
    MinMaxInside(v0.x, v1.x, v2.x, o.boundsMin.x, o.boundsMax.x);
    MinMaxInside(v0.z, v1.z, v2.z, o.boundsMin.z, o.boundsMax.z);
  }

  /** The segment meets, away from its ends and inside the bounds, no grid corner the walk steps around. */
  ghost predicate NoSkippedCorner(o: Occluders<real>, from: Vec, d: Vec)
    requires o.cellSize > 0.0
  {
    var r := ClipRay(o, from, d);
    r.Some? ==> forall s :: HIT_EPS < s < 1.0 - HIT_EPS ==> !r.value.Skips(s)
  }

  /** A triangle hit at a point the walk does not step around is found by the query. */
  lemma HitFound(o: Occluders<real>, t: int, from: Vec, d: Vec, s: real)
    requires Consistent(o) && 0 <= t < o.TriangleCount() && TriBlocked(o, t, from, d)
    requires HIT_EPS < s < 1.0 - HIT_EPS
    requires XAxis(o, from, d).Inside(s) && ZAxis(o, from, d).Inside(s)
    requires BoxCovers(o, t, (XAxis(o, from, d).Cell(s), ZAxis(o, from, d).Cell(s)))
    requires ClipRay(o, from, d).Some? ==> !ClipRay(o, from, d).value.Skips(s)
    ensures WalkBlocked(o, from, d)
  {
    ClipRayExact(o, from, d);
    var r := ClipRay(o, from, d).value;
    TraceVisitsIff(r, s);
    CellOf(r.x, s);
    CellOf(r.z, s);
    var c := r.CellAt(s);
    assert Lists(o, c, t);
    assert CellHit(o, c, from, d);
  }

  /**
   * The grid answers as a scan over all triangles would, for every segment that meets no corner
   * the walk steps around. What it reports is a real hit without that proviso.
   */
  lemma QueryEqualsScan(o: Occluders<real>, from: Vec, d: Vec)
    requires o.Indexable() && o.cellSize > 0.0
    ensures WalkBlocked(o, from, d) ==> ScanBlocked(o, from, d)
    ensures Consistent(o) && NoSkippedCorner(o, from, d) ==> (WalkBlocked(o, from, d) <==> ScanBlocked(o, from, d))
  {
    if Consistent(o) && NoSkippedCorner(o, from, d) && ScanBlocked(o, from, d) {
      var t :| 0 <= t < o.TriangleCount() && TriBlocked(o, t, from, d);
      var s := HitCell(o, t, from, d);
      HitFound(o, t, from, d, s);
    }
  }

  /** Stored triangle `t` stands in the way, between a millionth of the segment after `from` and one before `to`. */
  ghost predicate StoredWallAt(o: Occluders<real>, t: int, from: Vec, to: Vec, s: real, u: real, v: real)
    requires o.Indexable()
  {
    var d := Vec3(to.x - from.x, to.y - from.y, to.z - from.z);
    && 0 <= t < o.TriangleCount() && 0.000001 < s < 0.999999
    && Steep(Corner(o, t, 0), Corner(o, t, 1), Corner(o, t, 2), d)
    && Crosses(Corner(o, t, 0), Corner(o, t, 1), Corner(o, t, 2), from, d, s, u, v)
  }

  lemma WallIsBlock(o: Occluders<real>, t: int, from: Vec, to: Vec)
    requires o.Indexable() && 0 <= t < o.TriangleCount()
    ensures TriBlocked(o, t, from, Sub(to, from)) <==> exists s, u, v :: StoredWallAt(o, t, from, to, s, u, v)
  {
    hide Blocks, Steep, Crosses, Corner, Occluders.Indexable;
    var a, b, c, d := Corner(o, t, 0), Corner(o, t, 1), Corner(o, t, 2), Sub(to, from);
    BlocksIffCrosses(a, b, c, from, d);
    forall s, u, v
      ensures StoredWallAt(o, t, from, to, s, u, v) <==>
              Steep(a, b, c, d) && Crosses(a, b, c, from, d, s, u, v) && 0.000001 < s < 0.999999
    {
    }
  }

  lemma ScanIsWalls(o: Occluders<real>, from: Vec, to: Vec)
    requires o.Indexable()
    ensures ScanBlocked(o, from, Sub(to, from)) <==> exists t, s, u, v :: StoredWallAt(o, t, from, to, s, u, v)
  {
    hide StoredWallAt, TriBlocked, Occluders.Indexable, Sub;
    forall t | 0 <= t < o.TriangleCount()
      ensures TriBlocked(o, t, from, Sub(to, from)) <==> exists s, u, v :: StoredWallAt(o, t, from, to, s, u, v)
    {
      WallIsBlock(o, t, from, to);
    }
    if t, s, u, v :| StoredWallAt(o, t, from, to, s, u, v) {
      WallIndex(o, t, from, to, s, u, v);
      assert TriBlocked(o, t, from, Sub(to, from));
    }
    if ScanBlocked(o, from, Sub(to, from)) {
      var t :| 0 <= t < o.TriangleCount() && TriBlocked(o, t, from, Sub(to, from));
      var s, u, v :| StoredWallAt(o, t, from, to, s, u, v);
    }
  }

  lemma WallIndex(o: Occluders<real>, t: int, from: Vec, to: Vec, s: real, u: real, v: real)
    requires o.Indexable() && StoredWallAt(o, t, from, to, s, u, v)
    ensures 0 <= t < o.TriangleCount()
  {
  }

  // ---- The corner the walk steps around ------------------------------------------------------

  /**
   * A 2x2 grid of unit cells with one wall in cell (1, 1), from (1, 1) diagonally outwards. The
   * segment from (0.5, 1.5) to (1.5, 0.5) hits the wall exactly at the grid corner (1, 1).
   */
  const CORNER_WALL: Occluders<real> := Occluders(
    Vec3(0.0, -1.0, 0.0), Vec3(2.0, 1.0, 2.0), Vec3(0.0, -1.0, 0.0), 1.0, 2, 2, Vec3(1.0, 1.0, 1.0),
    [-32766, -32767, -32766,  -32766, -32765, -32766,  -32765, -32767, -32765],
    [0, 1, 2], [0, 0, 0, 0, 1], [0])

  lemma CornerWallIndexable()
    ensures CORNER_WALL.Indexable()
    ensures Corner(CORNER_WALL, 0, 0) == Vec3(1.0, -1.0, 1.0)
    ensures Corner(CORNER_WALL, 0, 1) == Vec3(1.0, 1.0, 1.0)
    ensures Corner(CORNER_WALL, 0, 2) == Vec3(2.0, -1.0, 2.0)
  {
    var o := CORNER_WALL;
    assert |o.cellStart| == 5 && |o.verts| == 9 && |o.tris| == 3;
  }

  lemma CornerWallConsistent()
    ensures Consistent(CORNER_WALL)
  {
    CornerWallIndexable();
    var o := CORNER_WALL;
    forall t, c: Cell | 0 <= t < o.TriangleCount() && InGrid(o, c) && BoxCovers(o, t, c)
      ensures Lists(o, c, t)
    {
      assert Column(0.0, 1.0, 2, 1.0) == 1;
      assert c == (1, 1) && t == 0;
      assert o.cellTris[0] == 0 && o.cellStart[3] <= 0 < o.cellStart[4];
    }
    forall t, k | 0 <= t < o.TriangleCount() && 0 <= k < 3
      ensures InBounds(o, Corner(o, t, k))
    {
      assert t == 0;
    }
  }

  /** The proviso of `QueryEqualsScan` is needed: here the scan is blocked and the query is not. */
  lemma SkippedCornerHidesWall()
    ensures var from := Vec3(0.5, 0.0, 1.5); var d := Sub(Vec3(1.5, 0.0, 0.5), from);
            && Consistent(CORNER_WALL)
            && ScanBlocked(CORNER_WALL, from, d) && !WalkBlocked(CORNER_WALL, from, d)
  {
    var o := CORNER_WALL;
    var from := Vec3(0.5, 0.0, 1.5);
    var d := Vec3(1.0, 0.0, -1.0);
    assert d == Sub(Vec3(1.5, 0.0, 0.5), from);
    CornerWallConsistent();
    CornerWallIsHit();
    CornerWallIsStepped();
    var r := CORNER_RAY;
    hide Blocks, Ray.Trace, Axis.Cell, Axis.Pos, ClipRay, TriBlocked, Consistent;
    assert 0 < o.TriangleCount();
    forall c | c in r.Trace()
      ensures !CellHit(o, c, from, d)
    {
      if InGrid(o, c) {
        OtherCellsEmpty(c);
      }
    }
  }

  lemma OtherCellsEmpty(c: Cell)
    requires CORNER_WALL.Indexable() && InGrid(CORNER_WALL, c) && c != (1, 1)
    ensures forall t :: !Lists(CORNER_WALL, c, t)
  {
    var o := CORNER_WALL;
    var i := CellIndex(2, c.0, c.1);
    assert i < 3;
    assert o.cellStart[i] == 0 && o.cellStart[i + 1] == 0;
  }

  lemma CornerWallMeets()
    ensures Blocks(Vec3(1.0, -1.0, 1.0), Vec3(1.0, 1.0, 1.0), Vec3(2.0, -1.0, 2.0), Vec3(0.5, 0.0, 1.5),
            Vec3(1.0, 0.0, -1.0))
  {
    var from, d := Vec3(0.5, 0.0, 1.5), Vec3(1.0, 0.0, -1.0);
    var v0, v1, v2 := Vec3(1.0, -1.0, 1.0), Vec3(1.0, 1.0, 1.0), Vec3(2.0, -1.0, 2.0);
    var e1, e2, w := Vec3(0.0, 2.0, 0.0), Vec3(1.0, 0.0, 1.0), Vec3(-0.5, 1.0, 0.5);
    assert Sub(v1, v0) == e1 && Sub(v2, v0) == e2 && Sub(from, v0) == w;
    var p, q := Vec3(0.0, -2.0, 0.0), Vec3(-1.0, 0.0, -1.0);
    assert Cross(d, e2) == p && Cross(w, e1) == q;
    assert Dot(e1, p) == -4.0 && Dot(w, p) == -2.0 && Dot(d, q) == 0.0 && Dot(e2, q) == -2.0;
    DecideOfSolution(-4.0, -2.0, 0.0, -2.0, 0.5, 0.0, 0.5);
    hide Decide, Dot, Cross, Sub;
  }

  lemma CornerWallIsHit()
    ensures CORNER_WALL.Indexable() && TriBlocked(CORNER_WALL, 0, Vec3(0.5, 0.0, 1.5), Vec3(1.0, 0.0, -1.0))
  {
    hide Blocks, Corner, Vertex, Occluders.Indexable;
    CornerWallIndexable();
    CornerWallMeets();
  }

  const CORNER_RAY: Ray := Ray(Axis(0.5, 1.0, 0.0, 2.0, 1.0, 2), Axis(1.5, -1.0, 0.0, 2.0, 1.0, 2), 0.0, 1.0)

  lemma CornerWallIsStepped()
    ensures ClipRay(CORNER_WALL, Vec3(0.5, 0.0, 1.5), Vec3(1.0, 0.0, -1.0)) == Some(CORNER_RAY)
    ensures (1, 1) !in CORNER_RAY.Trace()
  {
    var r := CORNER_RAY;
    assert r.x.Clip(0.0, 1.0) == Some((0.0, 1.0)) by {
      assert (0.0 - 0.5) * (1.0 / 1.0) == -0.5 && (2.0 - 0.5) * (1.0 / 1.0) == 1.5;
    }
    assert r.z.Clip(0.0, 1.0) == Some((0.0, 1.0)) by {
      assert (0.0 - 1.5) * (1.0 / -1.0) == 1.5 && (2.0 - 1.5) * (1.0 / -1.0) == -0.5;
    }
    assert r.x.At(0.5) == 1.0 && r.z.At(0.5) == 1.0;
    assert r.x.Pos(0.5) == 1.0 && r.z.Pos(0.5) == 1.0;
    assert r.Valid();
    assert r.CellAt(0.5) == (1, 1);
    assert r.Skips(0.5);
    hide Ray.Trace, Axis.Cell, Axis.Pos, Ray.Skips;
    TraceVisitsIff(r, 0.5);
  }
}
