/** Whether what `Build` makes of a mesh can be read back from its file. */
module LosBuiltFile {
  import opened Basics
  import opened Los
  import opened LosCells
  import opened LosBuild
  import opened LosBuilt
  import F = LosFormat

  /** `f` has the tables and the grid of `o`; its floats are 32-bit words. */
  ghost predicate Stores(f: F.FileOccluders, o: Occluders<real>) {
    && f.gridX == o.gridX && f.gridZ == o.gridZ && f.verts == o.verts && f.tris == o.tris
    && f.cellStart == o.cellStart && f.cellTris == o.cellTris
    && F.Floats(f.boundsMin) && F.Floats(f.boundsMax) && F.Floats(f.origin) && F.Floats(f.scale)
    && F.Float32(f.cellSize)
  }

  // ---- The tables --------------------------------------------------------------------------------

  lemma QuantiseRange(min: real, ext: real, v: real)
    ensures -32767 <= Quantise(min, ext, v) <= 32767
  {
  }

  lemma VertexFits(m: Mesh, o: Occluders<real>, plan: Plan, b: int)
    requires MeshOk(m) && |plan.keep| == |m.triangles| && NumbersUsed(m, plan.keep, plan.remap, plan.used)
    requires VertsMatch(m, plan.remap, plan.used, o.boundsMin, Extent(o), o.verts) && 0 <= b < |o.verts|
    ensures -32767 <= o.verts[b] <= 32767
  {
    hide Quantise, UsedBy;
    var r := b / 3;
    assert r in plan.remap;
    var v :| 0 <= v < |plan.remap| && plan.remap[v] == r;
    assert VertAt(m, plan.remap, o.boundsMin, Extent(o), o.verts, v);
    var p, e := m.vertices[v], Extent(o);
    QuantiseRange(o.boundsMin.x, e.x, p.x);
    QuantiseRange(o.boundsMin.y, e.y, p.y);
    QuantiseRange(o.boundsMin.z, e.z, p.z);
    assert b == 3 * r || b == 3 * r + 1 || b == 3 * r + 2;
  }

  /** A built occluder has some triangle, and its stored coordinates fit 16 bits. */
  lemma BuiltFits(m: Mesh, cell: real, o: Occluders<real>, plan: Plan)
    requires Assembled(m, cell, o, plan)
    ensures o.VertexCount() > 0 && o.TriangleCount() > 0 && |o.cellTris| <= MAX_UINT32
    ensures forall b :: 0 <= b < |o.verts| ==> -32767 <= o.verts[b] <= 32767
  {
    hide Assembled, Near, InBox, MeshCorner, RangeOf, TablesMatch;
    Parts(m, cell, o, plan);
    TableParts(m, o, plan);
    forall b | 0 <= b < |o.verts|
      ensures -32767 <= o.verts[b] <= 32767
    {
      VertexFits(m, o, plan, b);
    }
    BoxHasTriangle(m, plan.keep, o.boundsMin, o.boundsMax);
    var i :| 0 <= i < |plan.keep| && plan.keep[i];
    BuiltNearMesh(m, cell, o, plan, i, 0);
    BuiltTables(m, cell, o, plan);
    assert o.tris[0] < o.VertexCount();
  }

  lemma TableParts(m: Mesh, o: Occluders<real>, plan: Plan)
    requires MeshOk(m) && |plan.keep| == |m.triangles| && o.cellSize > 0.0 && TablesMatch(m, o, plan)
    ensures VertsMatch(m, plan.remap, plan.used, o.boundsMin, Extent(o), o.verts) && |o.cellTris| <= MAX_UINT32
  {
    hide VertsMatch, TrisMatch, Placements, Tiles, Slice, Listing;
  }

  lemma BoxHasTriangle(m: Mesh, keep: seq<bool>, lo: Vec, hi: Vec)
    requires MeshOk(m) && |keep| == |m.triangles| && IsBox(m, keep, lo, hi)
    ensures exists i :: 0 <= i < |keep| && keep[i]
  {
    hide MeshCorner;
  }

  // ---- The file ------------------------------------------------------------------------------------

  /** What the format bounds besides the floats: columns, rows, and the size of the file. */
  predicate InLimits(f: F.FileOccluders) {
    f.gridX <= F.MAX_GRID_DIM && f.gridZ <= F.MAX_GRID_DIM && F.EncodedSize(f) <= F.MAX_FILE_BYTES
  }

  predicate FloatsPass(f: F.FileOccluders) {
    F.FloatError(f.boundsMin, f.boundsMax, f.origin, f.cellSize, f.scale) == None
  }

  /** A file of at most 256 MiB has no more vertices, triangles or references than the format takes. */
  lemma SizeBounds(f: F.FileOccluders)
    requires f.gridX >= 1 && f.gridZ >= 1 && F.EncodedSize(f) <= F.MAX_FILE_BYTES
    ensures f.VertexCount() <= F.MAX_VERTICES && f.TriangleCount() <= F.MAX_TRIANGLES && |f.cellTris| <= F.MAX_CELL_REFS
  {
    F.CellsPositive(f.gridX, f.gridZ);
    var vc, tc, refs, w := f.VertexCount(), f.TriangleCount(), |f.cellTris|, F.Width(f);
    assert 2 <= w <= 4;
    Twice(tc * 3, w);
    Twice(refs, w);
    hide F.Width, F.Cells;
  }

  lemma Twice(n: nat, w: nat)
    requires 2 <= w
    ensures n * w >= 2 * n
  {
    NonNeg(n, w - 2);
    assert n * w == n * (w - 2) + 2 * n;
  }

  lemma StoresBuilt(m: Mesh, cell: real, o: Occluders<real>, plan: Plan, f: F.FileOccluders)
    requires Assembled(m, cell, o, plan) && Stores(f, o)
    ensures f.Indexable() && F.Shaped(f) && f.VertexCount() > 0 && f.TriangleCount() > 0
    ensures F.Cells(f.gridX, f.gridZ) <= F.MAX_CELL_COUNT
    ensures f.VertexCount() <= F.MAX_VERTICES && f.TriangleCount() <= F.MAX_TRIANGLES ==> F.Typed(f)
  {
    hide Assembled, Occluders.Indexable, IsBox, NumbersUsed, TablesMatch;
    BuiltIsSafe(m, cell, o, plan);
    BuiltFits(m, cell, o, plan);
    Parts(m, cell, o, plan);
    GridFits(m, cell, o, plan);
    SameIndexable(f, o);
    if f.VertexCount() <= F.MAX_VERTICES && f.TriangleCount() <= F.MAX_TRIANGLES {
      WordsFit(f);
    }
  }

  lemma GridFits(m: Mesh, cell: real, o: Occluders<real>, plan: Plan)
    requires Assembled(m, cell, o, plan)
    ensures o.gridX * o.gridZ <= MAX_CELLS
  {
    hide IsBox, NumbersUsed, TablesMatch, Frame;
  }

  lemma SameIndexable(f: F.FileOccluders, o: Occluders<real>)
    requires Stores(f, o) && o.Indexable()
    ensures f.Indexable() && F.Shaped(f)
  {
    hide Tiles;
  }

  lemma WordsFit(f: F.FileOccluders)
    requires f.Indexable() && f.VertexCount() <= F.MAX_VERTICES && f.TriangleCount() <= F.MAX_TRIANGLES
    requires |f.cellTris| <= MAX_UINT32 && f.gridX >= 1 && f.gridZ >= 1 && f.gridX * f.gridZ <= MAX_CELLS
    requires forall b :: 0 <= b < |f.verts| ==> -32767 <= f.verts[b] <= 32767
    requires F.Floats(f.boundsMin) && F.Floats(f.boundsMax) && F.Floats(f.origin) && F.Floats(f.scale)
    requires F.Float32(f.cellSize)
    ensures F.Typed(f)
  {
    F.Limits();
    NonNeg(f.gridX - 1, f.gridZ - 1);
    assert f.gridX * f.gridZ == (f.gridX - 1) * (f.gridZ - 1) + f.gridX + f.gridZ - 1;
    var starts, total := f.cellStart, |f.cellTris|;
    forall i | 0 <= i < |starts|
      ensures 0 <= starts[i] <= total
    {
      assert starts[0] <= starts[i] <= starts[|starts| - 1];
    }
  }

  /**
   * The file of a built occluder reads back exactly when it has at most a million columns and rows and 256 MiB, and
   * its floats pass. `Build` promises none of these.
   */
  lemma BuiltReadsBackIff(m: Mesh, cell: real, o: Occluders<real>, plan: Plan, f: F.FileOccluders)
    requires Assembled(m, cell, o, plan) && Stores(f, o)
    ensures F.Saveable(f) <==> InLimits(f) && FloatsPass(f)
  {
    hide Assembled, Stores, Occluders.Indexable, F.Typed, F.Shaped, F.EncodedSize, F.Cells, F.FloatError;
    StoresBuilt(m, cell, o, plan, f);
    if F.EncodedSize(f) <= F.MAX_FILE_BYTES {
      GridPositive(f);
      SizeBounds(f);
    }
  }

  lemma GridPositive(f: F.FileOccluders)
    requires f.Indexable()
    ensures f.gridX >= 1 && f.gridZ >= 1
  {
  }

  // ---- A mesh whose file is refused --------------------------------------------------------------------

  /** A triangle a million and one cells long. */
  const LONG: Mesh := Mesh([Vec3(0.0, 0.0, 0.0), Vec3(1000001.0, 0.0, 0.0), Vec3(0.0, 0.0, 1.0)], [Tri(0, 1, 2)])

  lemma LongCorners()
    ensures MeshOk(LONG) && MeshCorner(LONG, 0, 0) == Vec3(0.0, 0.0, 0.0)
    ensures MeshCorner(LONG, 0, 1) == Vec3(1000001.0, 0.0, 0.0) && MeshCorner(LONG, 0, 2) == Vec3(0.0, 0.0, 1.0)
  {
  }

  lemma LongKept(keep: seq<bool>)
    requires MeshOk(LONG) && Selected(LONG, 0.0, keep)
    ensures keep == [true]
  {
    LongCorners();
    var square := 1000001.0 * 1000001.0;
    assert DoubleAreaSquared(Vec3(0.0, 0.0, 0.0), Vec3(1000001.0, 0.0, 0.0), Vec3(0.0, 0.0, 1.0)) == square;
    assert Keeps(LONG, 0.0, 0);
  }

  lemma LongBox(lo: Vec, hi: Vec)
    requires MeshOk(LONG) && IsBox(LONG, [true], lo, hi)
    ensures lo == Vec3(0.0, 0.0, 0.0) && hi == Vec3(1000001.0, 0.0, 1.0)
  {
    LongCorners();
    hide MeshCorner;
    var m, keep := LONG, [true];
    assert KeptCornerAt(m, keep, 1, 0, 0) && KeptCornerAt(m, keep, 1, 0, 1) && KeptCornerAt(m, keep, 1, 0, 2);
  }

  lemma LongFrame()
    ensures var f := Frame(Vec3(0.0, 0.0, 0.0), Vec3(1000001.0, 0.0, 1.0), 1.0);
            f.gridX == 1000001 && f.gridZ == 1 && f.cellSize == 1.0 && f.boundsMin == Vec3(0.0, 0.0, 0.0)
  {
    assert Ceil(1000001.0 / 1.0) == 1000001 && Ceil(1.0 / 1.0) == 1;
  }

  lemma LongReferences(f: Occluders<real>)
    requires MeshOk(LONG) && f == Frame(Vec3(0.0, 0.0, 0.0), Vec3(1000001.0, 0.0, 1.0), 1.0)
    ensures f.gridX * f.gridZ <= MAX_CELLS && f.cellSize > 0.0 && !RefsOverflow(LONG, f, [true])
  {
    LongFrame();
    var ps := Placements(LONG, [true], f.boundsMin, f.cellSize, f.gridX, f.gridZ);
    assert ps[0].Placed?;
    PlacementsFit(LONG, [true], f.boundsMin, f.cellSize, f.gridX, f.gridZ);
    assert ps[0].Fits(f.gridX, f.gridZ);
    assert ps[0].iz0 == 0 && ps[0].iz1 == 0;
    assert TotalRefs(ps, 1) == TotalRefs(ps, 0) + ps[0].Refs();
  }

  lemma LongAccepted(keep: seq<bool>, error: BuildError)
    requires MeshOk(LONG) && Selected(LONG, 0.0, keep)
    ensures !FailsAs(LONG, 1.0, keep, error)
  {
    LongKept(keep);
    hide IsBox, Frame, RefsOverflow;
    forall lo: Vec, hi: Vec | IsBox(LONG, keep, lo, hi)
      ensures var f := Frame(lo, hi, 1.0);
              f.gridX * f.gridZ <= MAX_CELLS && f.cellSize > 0.0 && !RefsOverflow(LONG, f, keep)
    {
      LongBox(lo, hi);
      LongReferences(Frame(lo, hi, 1.0));
    }
  }

  lemma LongKeepsSome()
    ensures !KeepsNone(LONG, 0.0)
  {
    LongCorners();
    if KeepsNone(LONG, 0.0) {
      LongKept([false]);
    }
  }

  lemma LongGrid(o: Occluders<real>, plan: Plan)
    requires Built(LONG, 0.0, 1.0, o, plan)
    ensures o.gridX == 1000001
  {
    hide IsBox, NumbersUsed, TablesMatch, Frame, Keeps;
    LongKept(plan.keep);
    LongBox(o.boundsMin, o.boundsMax);
    LongFrame();
  }

  /** `Build` accepts the mesh, and whatever words its floats are stored as, the file does not read back. */
  method BuildLong() returns (o: Occluders<real>)
    ensures o.gridX == 1000001 && forall f :: Stores(f, o) ==> !F.Saveable(f)
  {
    LongCorners();
    var r;
    ghost var plan;
    r, plan := Build(Some(LONG), 1.0, 0.0);
    hide Keeps, IndicesOk, FailsAs, Assembled, Selected, Stores, F.Saveable;
    if r.Err? {
      LongAccepted(plan.keep, r.error);
      assert false;
    }
    LongKeepsSome();
    o := r.value;
    LongGrid(o, plan);
    forall f | Stores(f, o)
      ensures !F.Saveable(f)
    {
      BuiltReadsBackIff(LONG, 1.0, o, plan, f);
      StoresGrid(f, o);
    }
  }

  lemma StoresGrid(f: F.FileOccluders, o: Occluders<real>)
    requires Stores(f, o)
    ensures f.gridX == o.gridX
  {
  }
}
