/** On every grid and segment: walls that the query misses exist exactly where the walk steps around a corner. */
module LosHidden {
  import opened Los
  import opened LosAxis
  import opened LosCells
  import opened LosWalk
  import opened LosQuery

  predicate SameFrame(w: Occluders<real>, o: Occluders<real>) {
    && w.boundsMin == o.boundsMin && w.boundsMax == o.boundsMax
    && w.cellSize == o.cellSize && w.gridX == o.gridX && w.gridZ == o.gridZ
  }

  // ---- A single wall in a single cell -----------------------------------------------------------

  function StartsAt(n: nat, i: int): seq<int> { seq(n, j => if j <= i then 0 else 1) }

  /** One triangle, upright at one X, from `k` to `m` steps in Z, listed in cell `c` alone. */
  function Wall(o: Occluders<real>, c: Cell, scale: Vec, k: int, m: int): Occluders<real>
    requires o.gridX >= 1 && o.gridZ >= 1 && InGrid(o, c)
  {
    CellNumber(o.gridX, o.gridZ, c.0, c.1);
    o.(scale := scale,
       verts := [-32766, -32768, k - QUANT_BIAS, -32766, -32766, k - QUANT_BIAS, -32766, -32768, m - QUANT_BIAS],
       tris := [0, 1, 2],
       cellStart := StartsAt(o.gridX * o.gridZ + 1, CellIndex(o.gridX, c.0, c.1)), cellTris := [0])
  }

  ghost function Steps(n: int, s: real): real { n as real * s }

  lemma StepsAt(min: real, s: real, n: int)
    ensures Dequantise(min, s, n - QUANT_BIAS) == min + Steps(n, s)
  {
    assert (n - QUANT_BIAS) as real == n as real - QUANT_BIAS as real;
  }

  lemma WallTables(o: Occluders<real>, c: Cell, scale: Vec, k: int, m: int)
    requires o.gridX >= 1 && o.gridZ >= 1 && InGrid(o, c)
    ensures var w := Wall(o, c, scale, k, m);
      && w.Indexable() && w.TriangleCount() == 1 && SameFrame(w, o)
  {
    CellNumber(o.gridX, o.gridZ, c.0, c.1);
  }

  lemma WallCorners(o: Occluders<real>, c: Cell, scale: Vec, k: int, m: int)
    requires o.gridX >= 1 && o.gridZ >= 1 && InGrid(o, c)
    ensures var w := Wall(o, c, scale, k, m); var lo := o.boundsMin;
      && w.Indexable() && w.TriangleCount() == 1
      && Corner(w, 0, 0) == Vec3(lo.x + scale.x, lo.y - scale.y, lo.z + Steps(k, scale.z))
      && Corner(w, 0, 1) == Vec3(lo.x + scale.x, lo.y + scale.y, lo.z + Steps(k, scale.z))
      && Corner(w, 0, 2) == Vec3(lo.x + scale.x, lo.y - scale.y, lo.z + Steps(m, scale.z))
  {
    WallTables(o, c, scale, k, m);
    hide Occluders.Indexable, StartsAt, CellIndex;
    var lo := o.boundsMin;
    StepsAt(lo.x, scale.x, 1);
    StepsAt(lo.y, scale.y, -1);
    StepsAt(lo.y, scale.y, 1);
    StepsAt(lo.z, scale.z, k);
    StepsAt(lo.z, scale.z, m);
    UnitSteps(scale.x);
    UnitSteps(scale.y);
    hide Dequantise, Steps;
  }

  lemma UnitSteps(s: real)
    ensures Steps(1, s) == s && Steps(-1, s) == -s
  {
  }

  lemma WallLists(o: Occluders<real>, c: Cell, scale: Vec, k: int, m: int, c': Cell, t: int)
    requires o.gridX >= 1 && o.gridZ >= 1 && InGrid(o, c) && InGrid(o, c')
    ensures var w := Wall(o, c, scale, k, m);
      && w.Indexable() && (Lists(w, c', t) <==> t == 0 && c' == c)
  {
    WallTables(o, c, scale, k, m);
    var w := Wall(o, c, scale, k, m);
    CellNumber(o.gridX, o.gridZ, c.0, c.1);
    CellNumber(o.gridX, o.gridZ, c'.0, c'.1);
    var i, j := CellIndex(o.gridX, c.0, c.1), CellIndex(o.gridX, c'.0, c'.1);
    hide Occluders.Indexable, CellIndex, Col, Row;
    assert w.cellStart[j] == (if j <= i then 0 else 1) && w.cellStart[j + 1] == (if j + 1 <= i then 0 else 1);
    assert w.cellTris[0] == 0;
  }

  /**
   * A lattice on which `base` stands and whose step is at most `gap`; of `want` steps when that many are enough.
   */
  lemma Lattice(base: real, gap: real, want: int) returns (k: int, step: real)
    requires base >= 0.0 && gap > 0.0 && want >= 1
    ensures 0.0 < step <= gap && Steps(k, step) == base
    ensures base == 0.0 ==> k == 0
    ensures 0.0 < base <= want as real * gap ==> k == want
  {
    if base == 0.0 {
      k, step := 0, gap;
    } else {
      k := if base <= want as real * gap then want else (base / gap).Floor + 1;
      DivMul(base, gap);
      MulCancel(0.0, base / gap, gap);
      MulCancel(base / gap, k as real, gap);
      step := StepOf(base, gap, k);
    }
  }

  lemma StepOf(base: real, gap: real, k: int) returns (step: real)
    requires base > 0.0 && k >= 1 && base <= gap * k as real
    ensures 0.0 < step <= gap && Steps(k, step) == base
  {
    step := base / k as real;
    DivMul(base, k as real);
    MulCancel(gap, step, k as real);
    MulCancel(0.0, step, k as real);
  }

  // ---- The row of a skipped point -----------------------------------------------------------------

  /** `e` is the direction in which the row of the point extends. */
  function Side(r: Ray): real { if r.z.d < 0.0 then 1.0 else -1.0 }

  /** `g` further on that side is still in the bounds and in the row. */
  ghost predicate InRow(r: Ray, s: real, g: real)
    requires r.z.cell > 0.0
  {
    var z := r.z.At(s) + Side(r) * g;
    r.z.lo <= z <= r.z.hi && Column(r.z.lo, r.z.cell, r.z.n, z) == r.z.Cell(s)
  }

  /** How far the row extends on that side: to the end of the bounds, or nearly a cell. */
  function Gap(r: Ray, s: real): real {
    var near := r.z.cell * 65533.0 / 65534.0;
    if r.z.d < 0.0 && r.z.hi - r.z.At(s) < near then r.z.hi - r.z.At(s) else near
  }

  lemma RowExtends(r: Ray, s: real)
    requires r.Valid() && r.t0 <= s <= r.t1 && r.Skips(s)
    ensures Gap(r, s) > 0.0 && forall g :: 0.0 < g <= Gap(r, s) ==> InRow(r, s, g)
    ensures r.z.At(s) - r.z.lo == (if r.z.d < 0.0 then r.z.Cell(s) else r.z.n) as real * r.z.cell
  {
    var z := r.z;
    AtOrder(z, r.t0, s);
    AtOrder(z, s, r.t0);
    assert z.Inside(r.t0) && z.Inside(s);
    DivMul(z.At(s) - z.lo, z.cell);
    if z.d > 0.0 {
      MulCancel(1.0, z.n as real, z.cell);
    }
    hide Axis.At, Axis.Cell, Axis.Pos, Column;
    forall g | 0.0 < g <= Gap(r, s)
      ensures InRow(r, s, g)
    {
      ShiftKeepsRow(z, s, Side(r), g);
    }
  }

  lemma Quotients(x: real, y: real, cell: real)
    requires cell > 0.0
    ensures (x + y) / cell == x / cell + y / cell
  {
    DivMul(x, cell);
    DivMul(y, cell);
    DivMul(x + y, cell);
    MulCancel((x + y) / cell, x / cell + y / cell, cell);
  }

  lemma PartOfCell(g: real, cell: real)
    requires 0.0 < g < cell
    ensures 0.0 < g / cell < 1.0 && (-g) / cell == -(g / cell)
  {
    DivMul(g, cell);
    BelowOne(g / cell, cell, g);
    Quotients(g, -g, cell);
  }

  lemma BelowOne(q: real, cell: real, g: real)
    requires cell * q == g && 0.0 < g < cell
    ensures 0.0 < q < 1.0
  {
    MulCancel(0.0, q, cell);
    if q >= 1.0 {
      NonNegProduct(cell, q - 1.0);
    }
  }

  /** Less than a cell from a border is still in the row on that side. */
  lemma ShiftKeepsRow(z: Axis, s: real, e: real, g: real)
    requires z.cell > 0.0 && z.n >= 1 && 0.0 < g < z.cell
    requires (e == 1.0 && z.Pos(s) == z.Cell(s) as real) || (e == -1.0 && z.Pos(s) == z.n as real)
    ensures Column(z.lo, z.cell, z.n, z.At(s) + e * g) == z.Cell(s)
  {
    var y := if e == 1.0 then g else -g;
    assert e * g == y;
    Quotients(z.At(s) - z.lo, y, z.cell);
    PartOfCell(g, z.cell);
    assert z.At(s) + y - z.lo == z.At(s) - z.lo + y;
    hide Axis.At;
  }

  // ---- The wall that is missed -----------------------------------------------------------------------

  lemma UprightDet(d: Vec, h: real, e: real)
    ensures Dot(Vec3(0.0, 2.0 * h, 0.0), Cross(d, Vec3(0.0, 0.0, e))) == -(2.0 * (h * (d.x * e)))
  {
  }

  /** An upright triangle through the point at `s` is hit there when it is high enough. */
  lemma UprightBlocks(from: Vec, d: Vec, s: real, y: real, h: real, e: real)
    requires HIT_EPS < s < 1.0 - HIT_EPS && h > 0.0 && y - h <= from.y + s * d.y <= y + h
    requires Abs(2.0 * (h * (d.x * e))) >= PARALLEL_EPS
    ensures var p := Along(from, d, s);
      Blocks(Vec3(p.x, y - h, p.z), Vec3(p.x, y + h, p.z), Vec3(p.x, y - h, p.z + e), from, d)
  {
    var p := Along(from, d, s);
    var a, b, c := Vec3(p.x, y - h, p.z), Vec3(p.x, y + h, p.z), Vec3(p.x, y - h, p.z + e);
    assert Sub(b, a) == Vec3(0.0, 2.0 * h, 0.0) && Sub(c, a) == Vec3(0.0, 0.0, e);
    UprightDet(d, h, e);
    var x := p.y - (y - h);
    var u := x / (2.0 * h);
    DivMul(x, 2.0 * h);
    MulCancel(u, 1.0, 2.0 * h);
    MulCancel(1.0, u, 2.0 * h);
    MulCancel(u, 0.0, 2.0 * h);
    hide Dot, Cross, Blocks;
    assert MeetsAt(a, b, c, from, d, u, 0.0, s);
    MeetsBlocks(a, b, c, from, d, u, 0.0, s);
  }

  /** High enough to contain `y`, and to be no nearly parallel wall. */
  lemma HighEnough(y: real, w: real) returns (h: real)
    requires w > 0.0
    ensures h > 0.0 && -h <= y <= h && h * w >= 1.0
  {
    h := Abs(y) + 1.0 / w;
    DivMul(1.0, w);
    MulCancel(0.0, 1.0 / w, w);
    NonNegProduct(Abs(y), w);
    assert h * w == Abs(y) * w + w * (1.0 / w);
  }

  lemma WallConsistent(w: Occluders<real>, r: Ray, s: real, e: real)
    requires w.Indexable() && GridCoversBounds(w) && w.TriangleCount() == 1
    requires r.x.lo == w.boundsMin.x && r.x.hi == w.boundsMax.x && r.x.cell == w.cellSize && r.x.n == w.gridX
    requires r.z.lo == w.boundsMin.z && r.z.hi == w.boundsMax.z && r.z.cell == w.cellSize && r.z.n == w.gridZ
    requires r.x.Inside(s) && r.z.Inside(s) && e > 0.0 && InRow(r, s, e)
    requires forall k :: 0 <= k < 3 ==> Corner(w, 0, k).x == r.x.At(s)
    requires Corner(w, 0, 0).z == Corner(w, 0, 1).z == r.z.At(s) && Corner(w, 0, 2).z == r.z.At(s) + Side(r) * e
    requires forall c: Cell :: InGrid(w, c) ==> (Lists(w, c, 0) <==> c == r.CellAt(s))
    ensures Consistent(w)
  {
    hide Occluders.Indexable, Corner, Lists, Axis.At, Column, Axis.Cell;
    CornerColumns(r, s);
    forall t, c: Cell | 0 <= t < w.TriangleCount() && InGrid(w, c) && BoxCovers(w, t, c)
      ensures Lists(w, c, t)
    {
      assert t == 0;
    }
  }

  lemma CornerColumns(r: Ray, s: real)
    requires r.x.cell != 0.0 && r.z.cell != 0.0
    ensures Column(r.x.lo, r.x.cell, r.x.n, r.x.At(s)) == r.x.Cell(s)
    ensures Column(r.z.lo, r.z.cell, r.z.n, r.z.At(s)) == r.z.Cell(s)
  {
  }

  /** A wall listed only in a cell that the walk does not visit is not found. */
  lemma NotFound(w: Occluders<real>, from: Vec, d: Vec, c: Cell)
    requires w.Indexable() && w.cellSize > 0.0 && ClipRay(w, from, d).Some? && w.TriangleCount() == 1
    requires forall c': Cell :: InGrid(w, c') ==> (Lists(w, c', 0) <==> c' == c)
    requires ClipRay(w, from, d).value.Walkable() && c !in ClipRay(w, from, d).value.Trace()
    ensures !WalkBlocked(w, from, d)
  {
    hide Occluders.Indexable, Lists, TriBlocked, ClipRay, Ray.Trace;
    forall c' | c' in ClipRay(w, from, d).value.Trace()
      ensures !CellHit(w, c', from, d)
    {
    }
  }

  /** On this grid, a consistent occluder with a wall in the way that the query does not report. */
  ghost predicate Hides(w: Occluders<real>, o: Occluders<real>, from: Vec, d: Vec) {
    SameFrame(w, o) && Consistent(w) && ScanBlocked(w, from, d) && !WalkBlocked(w, from, d)
  }

  lemma RayOf(o: Occluders<real>, from: Vec, d: Vec)
    requires ClipRay(o, from, d).Some?
    ensures ClipRay(o, from, d).value.x == XAxis(o, from, d) && ClipRay(o, from, d).value.z == ZAxis(o, from, d)
  {
  }

  lemma SameRay(w: Occluders<real>, o: Occluders<real>, from: Vec, d: Vec)
    requires SameFrame(w, o)
    ensures ClipRay(w, from, d) == ClipRay(o, from, d)
  {
  }

  lemma NextStep(k: int, step: real, base: real)
    requires Steps(k, step) == base
    ensures Steps(k + 1, step) == base + step && Steps(k - 1, step) == base - step
  {
    assert (k + 1) as real == k as real + 1.0 && (k - 1) as real == k as real - 1.0;
  }

  lemma TallEnough(h: real, dx: real, step: real, e: real)
    requires h * (dx * step) >= 1.0 && (e == step || e == -step)
    ensures Abs(2.0 * (h * (dx * e))) >= PARALLEL_EPS
  {
    var x := h * (dx * step);
    assert dx * -step == -(dx * step);
    assert h * -(dx * step) == -x;
    assert h * (dx * e) == x || h * (dx * e) == -x;
  }

  /** The corners of a wall that stands at the point of `s`. */
  ghost predicate StandsAt(w: Occluders<real>, from: Vec, d: Vec, s: real, h: real, e: real)
    requires w.Indexable() && w.TriangleCount() == 1
  {
    var p, y := Along(from, d, s), w.boundsMin.y;
    && Corner(w, 0, 0) == Vec3(p.x, y - h, p.z) && Corner(w, 0, 1) == Vec3(p.x, y + h, p.z)
    && Corner(w, 0, 2) == Vec3(p.x, y - h, p.z + e)
    && Blocks(Vec3(p.x, y - h, p.z), Vec3(p.x, y + h, p.z), Vec3(p.x, y - h, p.z + e), from, d)
  }

  /** Stored coordinates are 16 bits wide. */
  ghost predicate Fits16(w: Occluders<real>) {
    forall i :: 0 <= i < |w.verts| ==> -0x8000 <= w.verts[i] < 0x8000
  }

  /** The lattice of a wall that goes up or down from `base`, which is on a row border. */
  function Want(up: bool): int { if up then 65533 else 65534 }

  /** A wall at the point of `s`, no wider than `gap`. */
  lemma Stand(o: Occluders<real>, from: Vec, d: Vec, s: real, c: Cell, up: bool, gap: real)
    returns (w: Occluders<real>, h: real, step: real)
    requires o.gridX >= 1 && o.gridZ >= 1 && InGrid(o, c)
    requires HIT_EPS < s < 1.0 - HIT_EPS && d.x > 0.0 && gap > 0.0 && Along(from, d, s).z >= o.boundsMin.z
    ensures w.Indexable() && w.TriangleCount() == 1 && SameFrame(w, o) && 0.0 < step <= gap
    ensures StandsAt(w, from, d, s, h, if up then step else -step)
    ensures forall c': Cell :: InGrid(w, c') ==> (Lists(w, c', 0) <==> c' == c)
    ensures var base := Along(from, d, s).z - o.boundsMin.z;
            base <= Want(up) as real * gap && (up || base > 0.0) ==> Fits16(w)
  {
    hide Occluders.Indexable, Lists, Corner, Steps, Blocks, CellIndex, StartsAt;
    var lo, p := o.boundsMin, Along(from, d, s);
    var k;
    k, step := Lattice(p.z - lo.z, gap, Want(up));
    NextStep(k, step, p.z - lo.z);
    MulCancel(0.0, step, d.x);
    h := HighEnough(p.y - lo.y, d.x * step);
    var e, m := if up then step else -step, if up then k + 1 else k - 1;
    var scale := Vec3(p.x - lo.x, h, step);
    w := Wall(o, c, scale, k, m);
    WallTables(o, c, scale, k, m);
    WallCorners(o, c, scale, k, m);
    TallEnough(h, d.x, step, e);
    UprightBlocks(from, d, s, lo.y, h, e);
    hide Wall;
    forall c': Cell | InGrid(w, c')
      ensures Lists(w, c', 0) <==> c' == c
    {
      WallLists(o, c, scale, k, m, c', 0);
    }
    WallFits(o, c, scale, k, m);
  }

  lemma WallFits(o: Occluders<real>, c: Cell, scale: Vec, k: int, m: int)
    requires o.gridX >= 1 && o.gridZ >= 1 && InGrid(o, c)
    ensures 0 <= k <= 65534 && 0 <= m <= 65534 ==> Fits16(Wall(o, c, scale, k, m))
  {
  }

  lemma AtAlong(o: Occluders<real>, from: Vec, d: Vec, s: real)
    ensures Along(from, d, s).x == XAxis(o, from, d).At(s) && Along(from, d, s).z == ZAxis(o, from, d).At(s)
  {
  }

  lemma StandsHidden(w: Occluders<real>, o: Occluders<real>, from: Vec, d: Vec, s: real, h: real, step: real)
    requires GridCoversBounds(o) && ClipRay(o, from, d).Some? && ClipRay(o, from, d).value.Valid()
    requires w.Indexable() && w.TriangleCount() == 1 && SameFrame(w, o)
    requires var r := ClipRay(o, from, d).value;
      && r.t0 <= s <= r.t1 && r.x == XAxis(o, from, d) && r.z == ZAxis(o, from, d)
      && step > 0.0 && InRow(r, s, step) && r.CellAt(s) !in r.Trace()
      && StandsAt(w, from, d, s, h, Side(r) * step)
      && forall c: Cell :: InGrid(w, c) ==> (Lists(w, c, 0) <==> c == r.CellAt(s))
    ensures Hides(w, o, from, d)
  {
    hide Occluders.Indexable, Lists, Corner, Blocks, ClipRay, Ray.Trace, InRow, Axis.At, Axis.Cell, Consistent,
         WalkBlocked;
    var r := ClipRay(o, from, d).value;
    AtAlong(o, from, d, s);
    WallConsistent(w, r, s, step);
    SameRay(w, o, from, d);
    NotFound(w, from, d, r.CellAt(s));
    assert TriBlocked(w, 0, from, d);
  }

  /** The grid has fewer than 65534 rows, and, where the segment falls in Z, some room behind the point. */
  predicate Fine(o: Occluders<real>, from: Vec, d: Vec, s: real) {
    var z := Along(from, d, s).z;
    o.gridZ < 65534 && (d.z < 0.0 ==> z - o.boundsMin.z <= 65533.0 * (o.boundsMax.z - z))
  }

  lemma FineGap(o: Occluders<real>, r: Ray, from: Vec, d: Vec, s: real)
    requires Fine(o, from, d, s) && r.z == ZAxis(o, from, d) && o.cellSize > 0.0 && 0 <= r.z.Cell(s) < o.gridZ
    requires r.z.At(s) - r.z.lo == (if r.z.d < 0.0 then r.z.Cell(s) else r.z.n) as real * r.z.cell
    ensures var up := d.z < 0.0; var base := Along(from, d, s).z - o.boundsMin.z;
            base <= Want(up) as real * Gap(r, s) && (up || base > 0.0)
  {
    AtAlong(o, from, d, s);
    var n := if d.z < 0.0 then r.z.Cell(s) else r.z.n;
    NonNegProduct((65533 - n) as real, r.z.cell);
    hide Axis.At, Axis.Cell;
    var near := r.z.cell * 65533.0 / 65534.0;
    assert (65533 - n) as real == 65533.0 - n as real;
    assert n as real * r.z.cell <= 65533.0 * r.z.cell == 65534.0 * near;
    if d.z < 0.0 {
      NonNegProduct((65532 - n) as real, r.z.cell);
      assert (65532 - n) as real == 65532.0 - n as real;
      assert n as real * r.z.cell <= 65532.0 * r.z.cell <= 65533.0 * near;
    } else {
      NonNegProduct((n - 1) as real, r.z.cell);
      assert (n - 1) as real == n as real - 1.0;
    }
  }

  /** What there is to know of a point that the walk steps around. */
  ghost predicate Stepped(o: Occluders<real>, r: Ray, from: Vec, d: Vec, s: real) {
    && r.x == XAxis(o, from, d) && r.z == ZAxis(o, from, d) && r.Valid() && r.t0 <= s <= r.t1 && d.x > 0.0
    && InGrid(o, r.CellAt(s)) && r.CellAt(s) !in r.Trace() && r.z.Inside(s)
    && Gap(r, s) > 0.0 && forall g :: 0.0 < g <= Gap(r, s) ==> InRow(r, s, g)
  }

  lemma SkippedIsStepped(o: Occluders<real>, from: Vec, d: Vec, s: real)
    requires GridCoversBounds(o) && ClipRay(o, from, d).Some? && ClipRay(o, from, d).value.x.cell != 0.0
    requires ClipRay(o, from, d).value.z.cell != 0.0 && ClipRay(o, from, d).value.Skips(s)
    ensures ClipRay(o, from, d).value.Valid() && Stepped(o, ClipRay(o, from, d).value, from, d, s)
    ensures var up := d.z < 0.0; var base := Along(from, d, s).z - o.boundsMin.z;
            Fine(o, from, d, s) ==> base <= Want(up) as real * Gap(ClipRay(o, from, d).value, s) && (up || base > 0.0)
  {
    ClipRayExact(o, from, d);
    RayOf(o, from, d);
    var r := ClipRay(o, from, d).value;
    hide ClipRay;
    CellOf(r.x, s);
    CellOf(r.z, s);
    TraceVisitsIff(r, s);
    RowExtends(r, s);
    hide Gap, InRow, Ray.Trace, Axis.Pos, Axis.At;
    if Fine(o, from, d, s) {
      FineGap(o, r, from, d, s);
    }
  }

  /**
   * At every inner point that the walk steps around, a wall can stand that the query misses; a storable one but on the
   * finest grids.
   */
  lemma SkipHides(o: Occluders<real>, from: Vec, d: Vec, s: real) returns (w: Occluders<real>)
    requires GridCoversBounds(o) && ClipRay(o, from, d).Some? && ClipRay(o, from, d).value.x.cell != 0.0
    requires ClipRay(o, from, d).value.z.cell != 0.0 && ClipRay(o, from, d).value.Skips(s)
        && HIT_EPS < s < 1.0 - HIT_EPS
    ensures Hides(w, o, from, d)
    ensures Fine(o, from, d, s) ==> Fits16(w)
  {
    hide ClipRay, Axis.Cell, Axis.Pos, Axis.At, Ray.Trace, Ray.Skips, InRow, Hides, StandsAt, Lists,
         Occluders.Indexable, Gap, Fine, Fits16;
    SkippedIsStepped(o, from, d, s);
    AtAlong(o, from, d, s);
    var r := ClipRay(o, from, d).value;
    var h, step;
    w, h, step := Stand(o, from, d, s, r.CellAt(s), d.z < 0.0, Gap(r, s));
    StandsHidden(w, o, from, d, s, h, step);
  }

  /** The query is exact for every consistent occluder on a grid exactly when the segment meets no such point. */
  lemma ExactIff(o: Occluders<real>, from: Vec, d: Vec)
    requires GridCoversBounds(o)
    ensures (forall w :: SameFrame(w, o) && Consistent(w) ==> (WalkBlocked(w, from, d) <==> ScanBlocked(w, from, d)))
            <==> NoSkippedCorner(o, from, d)
  {
    hide ClipRay, ScanBlocked, WalkBlocked, Ray.Skips;
    if ClipRay(o, from, d).Some? { RayOf(o, from, d); }
    if NoSkippedCorner(o, from, d) {
      forall w | SameFrame(w, o) && Consistent(w)
        ensures WalkBlocked(w, from, d) <==> ScanBlocked(w, from, d)
      {
        SameRay(w, o, from, d);
        QueryEqualsScan(w, from, d);
      }
    } else {
      var s :| HIT_EPS < s < 1.0 - HIT_EPS && ClipRay(o, from, d).value.Skips(s);
      var w := SkipHides(o, from, d, s);
    }
  }
}
