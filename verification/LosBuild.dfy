/** `Build`: from a triangle soup to an occluder. */
module LosBuild {
  import opened Basics
  import opened Los
  import opened LosCells
  import opened LosQuery

  datatype Tri = Tri(a: nat, b: nat, c: nat)
  {
    function At(k: int): nat
      requires 0 <= k < 3
    {
      if k == 0 then a else if k == 1 then b else c
    }
  }

  datatype Mesh = Mesh(vertices: seq<Vec>, triangles: seq<Tri>)

  datatype BuildError =
    | NilMesh
    | NoVertices
    | VertexOutOfRange(triangle: int)
    | GridTooLarge(gx: int, gz: int)
    | TooManyRefs

  datatype Result<T> = Ok(value: T) | Err(error: BuildError)

  const DEFAULT_CELL_SIZE: real := 3.0
  const MAX_CELLS: int := 0x400_0000

  // ---- Which triangles are kept --------------------------------------------------

  /** The square of twice the area. */
  function DoubleAreaSquared(a: Vec, b: Vec, c: Vec): real {
    var n := Cross(Sub(b, a), Sub(c, a));
    Dot(n, n)
  }

  predicate IndicesOk(m: Mesh, i: int)
    requires 0 <= i < |m.triangles|
  {
    var t := m.triangles[i];
    t.a < |m.vertices| && t.b < |m.vertices| && t.c < |m.vertices|
  }

  ghost predicate MeshOk(m: Mesh) {
    forall i :: 0 <= i < |m.triangles| ==> IndicesOk(m, i)
  }

  function MeshCorner(m: Mesh, i: int, k: int): Vec
    requires 0 <= i < |m.triangles| && IndicesOk(m, i) && 0 <= k < 3
  {
    m.vertices[m.triangles[i].At(k)]
  }

  /** Not degenerate, and not below the area threshold when there is one. */
  predicate Keeps(m: Mesh, minArea: real, i: int)
    requires 0 <= i < |m.triangles| && IndicesOk(m, i)
  {
    var s := DoubleAreaSquared(MeshCorner(m, i, 0), MeshCorner(m, i, 1), MeshCorner(m, i, 2));
    s > 0.0 && !(minArea > 0.0 && s < 4.0 * minArea * minArea)
  }

  /** How many triangles before `i` are kept: the number of triangle `i` in the result. */
  ghost function Number(keep: seq<bool>, i: nat): nat
    requires i <= |keep|
  {
    if i == 0 then 0 else Number(keep, i - 1) + if keep[i - 1] then 1 else 0
  }

  lemma {:induction false} NumberGrows(keep: seq<bool>, i: nat, j: nat)
    requires i <= j <= |keep|
    ensures Number(keep, i) <= Number(keep, j)
    ensures i < j && keep[i] ==> Number(keep, i) < Number(keep, j)
    decreases j
  {
    if i + 1 < j {
      NumberGrows(keep, i, j - 1);
    }
  }

  lemma {:induction false} NumberPrefix(keep: seq<bool>, keep': seq<bool>, i: nat)
    requires i <= |keep| && i <= |keep'| && keep[..i] == keep'[..i]
    ensures Number(keep, i) == Number(keep', i)
  {
    if i > 0 {
      assert keep[..i][..i - 1] == keep[..i - 1] && keep'[..i][..i - 1] == keep'[..i - 1];
      assert keep[..i][i - 1] == keep'[..i][i - 1];
      NumberPrefix(keep, keep', i - 1);
    }
  }

  method SelectTriangles(m: Mesh, minArea: real)
    returns (bad: Option<int>, keep: array<bool>, triRemap: array<int>, kept: int)
    ensures fresh(keep) && fresh(triRemap) && keep.Length == triRemap.Length == |m.triangles|
    ensures bad.Some? ==> 0 <= bad.value < |m.triangles| && !IndicesOk(m, bad.value)
                          && forall j :: 0 <= j < bad.value ==> IndicesOk(m, j)
    ensures bad.None? ==> MeshOk(m) && kept == Number(keep[..], keep.Length)
    ensures bad.None? ==> forall i :: 0 <= i < keep.Length ==> keep[i] == Keeps(m, minArea, i)
    ensures bad.None? ==> forall i :: 0 <= i < keep.Length && keep[i] ==> triRemap[i] == Number(keep[..], i)
  {
    var nt := |m.triangles|;
    keep := new bool[nt](_ => false);
    triRemap := new int[nt](_ => 0);
    kept := 0;
    for i := 0 to nt
      invariant forall j :: 0 <= j < i ==> IndicesOk(m, j)
      invariant forall j :: 0 <= j < i ==> keep[j] == Keeps(m, minArea, j)
      invariant forall j :: i <= j < nt ==> !keep[j]
      invariant forall j :: 0 <= j < i && keep[j] ==> triRemap[j] == Number(keep[..], j)
      invariant kept == Number(keep[..], i)
    {
      if !IndicesOk(m, i) {
        return Some(i), keep, triRemap, kept;
      }
      if !Keeps(m, minArea, i) {
        continue;
      }
      ghost var was := keep[..];
      keep[i] := true;
      triRemap[i] := kept;
      kept := kept + 1;
      forall j | 0 <= j <= i
        ensures Number(was, j) == Number(keep[..], j)
      {
        assert was[..j] == keep[..][..j];
        NumberPrefix(was, keep[..], j);
      }
    }
    bad := None;
  }

  // ---- Bounds -----------------------------------------------------------------------

  /** The running minimum and maximum; `None` stands for the infinities the code starts from. */
  function GrowAxis(b: Option<(real, real)>, f: real): Option<(real, real)> {
    match b
    case None => Some((f, f))
    case Some((lo, hi)) => Some((if f < lo then f else lo, if f > hi then f else hi))
  }

  ghost predicate KeptCornerAt(m: Mesh, keep: seq<bool>, n: nat, i: int, k: int)
    requires MeshOk(m) && |keep| == |m.triangles| && n <= |keep|
  {
    0 <= i < n && keep[i] && 0 <= k < 3
  }

  /** `b` is the exact range of `f` over the kept corners among the first `n` triangles. */
  ghost predicate RangeOf(m: Mesh, keep: seq<bool>, n: nat, f: Vec -> real, b: Option<(real, real)>)
    requires MeshOk(m) && |keep| == |m.triangles| && n <= |keep|
  {
    && (b.None? <==> forall i :: 0 <= i < n ==> !keep[i])
    && (b.Some? ==>
          && (forall i, k :: KeptCornerAt(m, keep, n, i, k) ==> b.value.0 <= f(MeshCorner(m, i, k)) <= b.value.1)
          && (exists i, k :: KeptCornerAt(m, keep, n, i, k) && f(MeshCorner(m, i, k)) == b.value.0)
          && (exists i, k :: KeptCornerAt(m, keep, n, i, k) && f(MeshCorner(m, i, k)) == b.value.1))
  }

  lemma RangeStep(m: Mesh, keep: seq<bool>, n: nat, f: Vec -> real, b: Option<(real, real)>)
    requires MeshOk(m) && |keep| == |m.triangles| && n < |keep|
    requires RangeOf(m, keep, n, f, b)
    ensures !keep[n] ==> RangeOf(m, keep, n + 1, f, b)
    ensures keep[n] ==>
              RangeOf(m, keep, n + 1, f,
                  GrowAxis(GrowAxis(GrowAxis(b, f(MeshCorner(m, n, 0))), f(MeshCorner(m, n, 1))),
                      f(MeshCorner(m, n, 2))))
  {
    assert forall i, k :: KeptCornerAt(m, keep, n, i, k) ==> KeptCornerAt(m, keep, n + 1, i, k);
    assert forall i, k :: KeptCornerAt(m, keep, n + 1, i, k) ==>
        KeptCornerAt(m, keep, n, i, k) || (i == n && keep[n] && (k == 0 || k == 1 || k == 2));
    if keep[n] {
      assert KeptCornerAt(m, keep, n + 1, n, 0) && KeptCornerAt(m, keep, n + 1, n, 1)
          && KeptCornerAt(m, keep, n + 1, n, 2);
    }
  }

  method AxisRange(m: Mesh, keep: array<bool>, f: Vec -> real) returns (b: Option<(real, real)>)
    requires MeshOk(m) && keep.Length == |m.triangles|
    ensures RangeOf(m, keep[..], keep.Length, f, b)
  {
    b := None;
    for i := 0 to keep.Length
      invariant RangeOf(m, keep[..], i, f, b)
    {
      RangeStep(m, keep[..], i, f, b);
      hide RangeOf, GrowAxis;
      if !keep[i] {
        continue;
      }
      b := GrowAxis(GrowAxis(GrowAxis(b, f(MeshCorner(m, i, 0))), f(MeshCorner(m, i, 1))), f(MeshCorner(m, i, 2)));
    }
  }

  // ---- Vertex compaction ---------------------------------------------------------------

  ghost predicate UsedBy(m: Mesh, keep: seq<bool>, n: nat, v: int)
    requires |keep| == |m.triangles| && n <= |keep|
  {
    exists i, k :: 0 <= i < n && keep[i] && 0 <= k < 3 && m.triangles[i].At(k) == v
  }

  /** `remap` numbers vertices 0, 1, ... `used - 1` one-to-one, and leaves the others at -1. */
  ghost predicate Numbering(remap: seq<int>, used: int) {
    && 0 <= used
    && (forall v :: 0 <= v < |remap| ==> -1 <= remap[v] < used)
    && (forall v, w :: 0 <= v < |remap| && 0 <= w < |remap| && remap[v] == remap[w] >= 0 ==> v == w)
    && (forall r :: 0 <= r < used ==> r in remap)
  }

  method Touch(remap: array<int>, used: int, v: nat) returns (used': int)
    requires v < remap.Length && Numbering(remap[..], used)
    modifies remap
    ensures Numbering(remap[..], used')
    ensures forall w :: 0 <= w < remap.Length ==> (remap[w] >= 0 <==> old(remap[w]) >= 0 || w == v)
  {
    used' := used;
    if remap[v] < 0 {
      ghost var was := remap[..];
      remap[v] := used;
      used' := used + 1;
      forall r | 0 <= r < used'
        ensures r in remap[..]
      {
        if r == used {
          assert remap[..][v] == r;
        } else {
          assert r in was;
          var w :| 0 <= w < |was| && was[w] == r;
          assert remap[..][w] == r;
        }
      }
    }
  }

  method CompactVertices(m: Mesh, keep: array<bool>) returns (remap: array<int>, used: int)
    requires MeshOk(m) && keep.Length == |m.triangles|
    ensures fresh(remap) && remap.Length == |m.vertices|
    ensures NumbersUsed(m, keep[..], remap[..], used)
  {
    remap := new int[|m.vertices|](_ => -1);
    used := 0;
    for i := 0 to keep.Length
      invariant Numbering(remap[..], used)
      invariant forall v :: 0 <= v < remap.Length ==> (remap[v] >= 0 <==> UsedBy(m, keep[..], i, v))
    {
      forall v ensures UsedBy(m, keep[..], i + 1, v) <==>
        UsedBy(m, keep[..], i, v)
            || (keep[i] && (v == m.triangles[i].a || v == m.triangles[i].b || v == m.triangles[i].c))
      {
        UsedStep(m, keep[..], i, v);
      }
      assert IndicesOk(m, i);
      hide Numbering, UsedBy;
      if !keep[i] {
        continue;
      }
      used := Touch(remap, used, m.triangles[i].a);
      used := Touch(remap, used, m.triangles[i].b);
      used := Touch(remap, used, m.triangles[i].c);
    }
  }

  lemma UsedStep(m: Mesh, keep: seq<bool>, i: nat, v: int)
    requires |keep| == |m.triangles| && i < |keep|
    ensures UsedBy(m, keep, i + 1, v) <==>
            UsedBy(m, keep, i, v)
                || (keep[i] && (v == m.triangles[i].a || v == m.triangles[i].b || v == m.triangles[i].c))
  {
    var t := m.triangles[i];
    assert t.At(0) == t.a && t.At(1) == t.b && t.At(2) == t.c;
    if keep[i] && (v == t.a || v == t.b || v == t.c) {
      var k := if v == t.a then 0 else if v == t.b then 1 else 2;
      assert 0 <= i < i + 1 && keep[i] && 0 <= k < 3 && m.triangles[i].At(k) == v;
    }
  }

  // ---- Grid and quantisation --------------------------------------------------------------

  function Ceil(r: real): int { -((-r).Floor) }

  function AtLeastOne(n: int): int { if n < 1 then 1 else n }

  function Quantise(min: real, ext: real, v: real): int {
    if ext == 0.0 then 0 else
    var q := Round((v - min) / ext * QUANT_RANGE as real) - QUANT_BIAS;
    if q > 32767 then 32767 else if q < -32767 then -32767 else q
  }

  function ScaleOf(ext: real): real {
    if ext > 0.0 then ext / QUANT_RANGE as real else 0.0
  }

  /** The cells whose columns and rows the XZ box of an original triangle spans. */
  function CellRange(m: Mesh, lo: Vec, cell: real, gx: int, gz: int, i: int, id: int): Placement
    requires 0 <= i < |m.triangles| && IndicesOk(m, i) && cell > 0.0
  {
    var v0, v1, v2 := MeshCorner(m, i, 0), MeshCorner(m, i, 1), MeshCorner(m, i, 2);
    Placed(id,
           Column(lo.x, cell, gx, Min3(v0.x, v1.x, v2.x)), Column(lo.x, cell, gx, Max3(v0.x, v1.x, v2.x)),
           Column(lo.z, cell, gz, Min3(v0.z, v1.z, v2.z)), Column(lo.z, cell, gz, Max3(v0.z, v1.z, v2.z)))
  }

  ghost function Placements(m: Mesh, keep: seq<bool>, lo: Vec, cell: real, gx: int, gz: int): seq<Placement>
    requires MeshOk(m) && |keep| == |m.triangles| && cell > 0.0
  {
    seq(|keep|, i requires 0 <= i < |keep| =>
      if keep[i] then CellRange(m, lo, cell, gx, gz, i, Number(keep, i)) else Dropped)
  }

  lemma PlacementsFit(m: Mesh, keep: seq<bool>, lo: Vec, cell: real, gx: int, gz: int)
    requires MeshOk(m) && |keep| == |m.triangles| && cell > 0.0 && gx >= 1 && gz >= 1
    ensures AllFit(Placements(m, keep, lo, cell, gx, gz), gx, gz)
    ensures Numbered(Placements(m, keep, lo, cell, gx, gz))
  {
    var ps := Placements(m, keep, lo, cell, gx, gz);
    forall i | 0 <= i < |ps| && keep[i]
      ensures ps[i].Fits(gx, gz)
    {
      var v0, v1, v2 := MeshCorner(m, i, 0), MeshCorner(m, i, 1), MeshCorner(m, i, 2);
      MinBelowMax(v0.x, v1.x, v2.x);
      MinBelowMax(v0.z, v1.z, v2.z);
      ColumnMonotone(lo.x, cell, gx, Min3(v0.x, v1.x, v2.x), Max3(v0.x, v1.x, v2.x));
      ColumnMonotone(lo.z, cell, gz, Min3(v0.z, v1.z, v2.z), Max3(v0.z, v1.z, v2.z));
    }
    forall i, j | 0 <= i < j < |ps| && ps[i].Placed? && ps[j].Placed?
      ensures ps[i].id < ps[j].id
    {
      NumberGrows(keep, i, j);
    }
  }

  lemma MinBelowMax(a: real, b: real, c: real)
    ensures Min3(a, b, c) <= Max3(a, b, c)
  {
  }

  // ---- The tables of the result -------------------------------------------------------------

  /** The quantised coordinates of every numbered vertex stand at its number. */
  ghost predicate VertsMatch(m: Mesh, remap: seq<int>, used: int, lo: Vec, ext: Vec, verts: seq<int>) {
    && |remap| == |m.vertices| && |verts| == 3 * used
    && forall v :: 0 <= v < |remap| && remap[v] >= 0 ==> VertAt(m, remap, lo, ext, verts, v)
  }

  ghost predicate VertAt(m: Mesh, remap: seq<int>, lo: Vec, ext: Vec, verts: seq<int>, v: int)
    requires |remap| == |m.vertices| && 0 <= v < |remap|
  {
    var b := 3 * remap[v];
    && 0 <= b && b + 2 < |verts|
    && verts[b] == Quantise(lo.x, ext.x, m.vertices[v].x)
    && verts[b + 1] == Quantise(lo.y, ext.y, m.vertices[v].y)
    && verts[b + 2] == Quantise(lo.z, ext.z, m.vertices[v].z)
  }

  method QuantiseVertices(m: Mesh, remap: array<int>, used: int, lo: Vec, ext: Vec) returns (verts: array<int>)
    requires remap.Length == |m.vertices| && Numbering(remap[..], used)
    ensures fresh(verts) && VertsMatch(m, remap[..], used, lo, ext, verts[..])
  {
    verts := new int[3 * used](_ => 0);
    hide Quantise;
    for old_ := 0 to remap.Length
      invariant forall v :: 0 <= v < old_ && remap[v] >= 0 ==> VertAt(m, remap[..], lo, ext, verts[..], v)
    {
      if remap[old_] < 0 {
        continue;
      }
      var v := m.vertices[old_];
      var base := 3 * remap[old_];
      ghost var was := verts[..];
      verts[base], verts[base + 1], verts[base + 2] :=
        Quantise(lo.x, ext.x, v.x), Quantise(lo.y, ext.y, v.y), Quantise(lo.z, ext.z, v.z);
      forall w | 0 <= w < old_ && remap[w] >= 0
        ensures VertAt(m, remap[..], lo, ext, verts[..], w)
      {
        assert VertAt(m, remap[..], lo, ext, was, w);
        assert remap[..][w] != remap[..][old_];
      }
    }
  }

  /** The corners of the kept triangles, renumbered, in input order. */
  ghost predicate TrisMatch(m: Mesh, keep: seq<bool>, remap: seq<int>, tris: seq<int>) {
    && |keep| == |m.triangles| && |remap| == |m.vertices| && MeshOk(m)
    && |tris| == 3 * Number(keep, |keep|)
    && forall i :: 0 <= i < |keep| && keep[i] ==> TriAt(m, keep, remap, tris, i)
  }

  ghost predicate TriAt(m: Mesh, keep: seq<bool>, remap: seq<int>, tris: seq<int>, i: int)
    requires |keep| == |m.triangles| && |remap| == |m.vertices| && MeshOk(m) && 0 <= i < |keep|
  {
    var b := 3 * Number(keep, i);
    && b + 2 < |tris| && IndicesOk(m, i)
    && forall k :: 0 <= k < 3 ==> tris[b + k] == remap[m.triangles[i].At(k)]
  }

  method RenumberTriangles(m: Mesh, keep: array<bool>, kept: int, remap: array<int>) returns (tris: array<int>)
    requires MeshOk(m) && keep.Length == |m.triangles| && remap.Length == |m.vertices|
    requires kept == Number(keep[..], keep.Length)
    ensures fresh(tris) && TrisMatch(m, keep[..], remap[..], tris[..])
  {
    tris := new int[kept * 3](_ => 0);
    var w := 0;
    for i := 0 to keep.Length
      invariant w == 3 * Number(keep[..], i)
      invariant forall j :: 0 <= j < i && keep[j] ==> TriAt(m, keep[..], remap[..], tris[..], j)
    {
      if !keep[i] {
        continue;
      }
      NumberGrows(keep[..], i, keep.Length);
      assert IndicesOk(m, i);
      var t := m.triangles[i];
      ghost var was := tris[..];
      tris[w], tris[w + 1], tris[w + 2] := remap[t.a], remap[t.b], remap[t.c];
      assert TriAt(m, keep[..], remap[..], tris[..], i);
      forall j | 0 <= j < i && keep[j]
        ensures TriAt(m, keep[..], remap[..], tris[..], j)
      {
        NumberGrows(keep[..], j, i);
        TriKept(m, keep[..], remap[..], was, tris[..], j, w);
      }
      w := w + 3;
    }
  }

  lemma TriKept(m: Mesh, keep: seq<bool>, remap: seq<int>, was: seq<int>, tris: seq<int>, j: int, w: int)
    requires |keep| == |m.triangles| && |remap| == |m.vertices| && MeshOk(m) && 0 <= j < |keep|
    requires TriAt(m, keep, remap, was, j) && 3 * Number(keep, j) + 2 < w
    requires |was| == |tris| && forall r :: 0 <= r < |was| && r < w ==> was[r] == tris[r]
    ensures TriAt(m, keep, remap, tris, j)
  {
  }

  // ---- Build ----------------------------------------------------------------------------------

  function GetX(v: Vec): real { v.x }
  function GetY(v: Vec): real { v.y }
  function GetZ(v: Vec): real { v.z }

  function EmptyOccluders(cell: real): Occluders<real> {
    var zero := Vec3(0.0, 0.0, 0.0);
    Occluders(zero, zero, zero, cell, 1, 1, zero, [], [], [0, 0], [])
  }

  /** Which triangles were kept and how the vertices were renumbered. */
  datatype Plan = Plan(keep: seq<bool>, remap: seq<int>, used: int)

  /** `o` is made of the triangles that the plan keeps: none lost, moved or listed in a wrong cell. */
  ghost predicate Assembled(m: Mesh, cell: real, o: Occluders<real>, plan: Plan) {
    var keep, remap := plan.keep, plan.remap;
    && MeshOk(m) && cell > 0.0 && |keep| == |m.triangles|
    && IsBox(m, keep, o.boundsMin, o.boundsMax)
    && NumbersUsed(m, keep, remap, plan.used)
    && OnFrame(o, Frame(o.boundsMin, o.boundsMax, cell)) && o.gridX * o.gridZ <= MAX_CELLS
    && TablesMatch(m, o, plan)
  }

  /** `o` is the occluder of exactly the triangles of `m` that pass the area test. */
  ghost predicate Built(m: Mesh, minArea: real, cell: real, o: Occluders<real>, plan: Plan) {
    Assembled(m, cell, o, plan) && Selected(m, minArea, plan.keep)
  }

  function Extent(o: Occluders<real>): Vec { Sub(o.boundsMax, o.boundsMin) }

  /** `lo` and `hi` are the exact bounds of the kept corners. */
  ghost predicate IsBox(m: Mesh, keep: seq<bool>, lo: Vec, hi: Vec)
    requires MeshOk(m) && |keep| == |m.triangles|
  {
    && RangeOf(m, keep, |keep|, GetX, Some((lo.x, hi.x)))
    && RangeOf(m, keep, |keep|, GetY, Some((lo.y, hi.y)))
    && RangeOf(m, keep, |keep|, GetZ, Some((lo.z, hi.z)))
  }

  /** `remap` numbers exactly the vertices that a kept triangle uses. */
  ghost predicate NumbersUsed(m: Mesh, keep: seq<bool>, remap: seq<int>, used: int)
    requires |keep| == |m.triangles|
  {
    && |remap| == |m.vertices| && Numbering(remap, used)
    && forall v :: 0 <= v < |remap| ==> (remap[v] >= 0 <==> UsedBy(m, keep, |keep|, v))
  }

  /** Bounds, grid and scale of an occluder, with empty tables. */
  function Frame(lo: Vec, hi: Vec, cell: real): Occluders<real>
    requires cell > 0.0
  {
    var ext := Sub(hi, lo);
    Occluders(lo, hi, lo, cell, AtLeastOne(Ceil(ext.x / cell)), AtLeastOne(Ceil(ext.z / cell)),
              Vec3(ScaleOf(ext.x), ScaleOf(ext.y), ScaleOf(ext.z)), [], [], [], [])
  }

  /** `o` is `frame` with its tables filled. */
  ghost predicate OnFrame(o: Occluders<real>, frame: Occluders<real>) {
    && o.boundsMin == frame.boundsMin && o.boundsMax == frame.boundsMax && o.origin == frame.origin
    && o.cellSize == frame.cellSize && o.gridX == frame.gridX && o.gridZ == frame.gridZ && o.scale == frame.scale
  }

  lemma FrameGrid(lo: Vec, hi: Vec, cell: real)
    requires cell > 0.0
    ensures var f := Frame(lo, hi, cell);
            f.boundsMin == lo && f.boundsMax == hi && f.cellSize == cell && f.gridX >= 1 && f.gridZ >= 1
  {
  }

  /** Every cell's slice of the table lists the triangles whose rectangle holds it, in input order. */
  ghost predicate CellsMatch(o: Occluders<real>, ps: seq<Placement>) {
    && o.gridX > 0 && |o.cellTris| <= MAX_UINT32 && |o.cellStart| == o.gridX * o.gridZ + 1
        && Tiles(o.cellStart, |o.cellTris|)
    && forall k :: 0 <= k < |o.cellStart| - 1 ==> Slice(o.cellStart, o.cellTris, k) == Listing(ps, o.gridX, k, |ps|)
  }

  ghost predicate KeepsNone(m: Mesh, minArea: real) {
    MeshOk(m) && forall i :: 0 <= i < |m.triangles| ==> !Keeps(m, minArea, i)
  }

  ghost predicate Selected(m: Mesh, minArea: real, keep: seq<bool>)
    requires MeshOk(m)
  {
    |keep| == |m.triangles| && forall i :: 0 <= i < |keep| ==> keep[i] == Keeps(m, minArea, i)
  }

  function EffectiveCell(cellSize: real): real { if cellSize <= 0.0 then DEFAULT_CELL_SIZE else cellSize }

  function EffectiveArea(minArea: real): (r: real)
    ensures r >= 0.0 && (minArea >= 0.0 ==> r == minArea) && (minArea <= 0.0 ==> r == 0.0)
  {
    if minArea < 0.0 then 0.0 else minArea
  }

  method Build(mesh: Option<Mesh>, cellSize: real, minArea: real) returns (r: Result<Occluders<real>>, ghost plan: Plan)
    ensures mesh.None? <==> r == Err(NilMesh)
    ensures mesh.Some? && mesh.value.vertices == [] && mesh.value.triangles != [] <==> r == Err(NoVertices)
    ensures r.Err? && r.error.VertexOutOfRange? ==> mesh.Some? && var i := r.error.triangle;
              && 0 <= i < |mesh.value.triangles| && !IndicesOk(mesh.value, i)
              && forall j :: 0 <= j < i ==> IndicesOk(mesh.value, j)
    ensures r.Err? && (r.error.GridTooLarge? || r.error.TooManyRefs?) ==>
              mesh.Some? && MeshOk(mesh.value) && Selected(mesh.value, EffectiveArea(minArea), plan.keep)
              && FailsAs(mesh.value, EffectiveCell(cellSize), plan.keep, r.error)
    ensures mesh.Some? && r.Ok? ==> MeshOk(mesh.value)
    ensures mesh.Some? && r.Ok? && KeepsNone(mesh.value, EffectiveArea(minArea)) ==>
              var zero := Vec3(0.0, 0.0, 0.0);
              r.value == Occluders(zero, zero, zero, r.value.cellSize, 1, 1, zero, [], [], [0, 0], [])
    ensures mesh.Some? && r.Ok? && !KeepsNone(mesh.value, EffectiveArea(minArea)) ==>
              Built(mesh.value, EffectiveArea(minArea), EffectiveCell(cellSize), r.value, plan)
    ensures r.Ok? ==> r.value.cellSize == (if cellSize > 0.0 then cellSize else 3.0)
    ensures r.Ok? ==> r.value.gridX * r.value.gridZ <= 67_108_864
    ensures r.Err? && r.error.GridTooLarge? ==> r.error.gx * r.error.gz > 67_108_864
  {
    plan := Plan([], [], 0);
    if mesh.None? {
      return Err(NilMesh), plan;
    }
    var m := mesh.value;
    if |m.vertices| == 0 && |m.triangles| > 0 {
      return Err(NoVertices), plan;
    }
    var cell, area := EffectiveCell(cellSize), EffectiveArea(minArea);
    if |m.vertices| == 0 || |m.triangles| == 0 {
      return Ok(EmptyOccluders(cell)), plan;
    }
    var bad, keep, triRemap, kept := SelectTriangles(m, area);
    if bad.Some? {
      return Err(VertexOutOfRange(bad.value)), plan;
    }
    if kept == 0 {
      NoneKept(m, area, keep[..]);
      return Ok(EmptyOccluders(cell)), plan;
    }
    SomeKept(m, area, keep[..]);
    ghost var keeps := keep[..];
    r, plan := Assemble(m, cell, keep, triRemap, kept);
    assert keep[..] == keeps;
  }

  lemma {:induction false} NumberZero(keep: seq<bool>, n: nat)
    requires n <= |keep|
    ensures Number(keep, n) == 0 <==> forall i :: 0 <= i < n ==> !keep[i]
  {
    if n > 0 { NumberZero(keep, n - 1); }
  }

  lemma NoneKept(m: Mesh, area: real, keep: seq<bool>)
    requires MeshOk(m) && |keep| == |m.triangles| && Number(keep, |keep|) == 0
    requires forall i :: 0 <= i < |keep| ==> keep[i] == Keeps(m, area, i)
    ensures KeepsNone(m, area)
  {
    NumberZero(keep, |keep|);
  }

  lemma SomeKept(m: Mesh, area: real, keep: seq<bool>)
    requires MeshOk(m) && |keep| == |m.triangles| && Number(keep, |keep|) != 0
    requires forall i :: 0 <= i < |keep| ==> keep[i] == Keeps(m, area, i)
    ensures !KeepsNone(m, area) && exists i :: 0 <= i < |keep| && keep[i]
  {
    NumberZero(keep, |keep|);
  }

  method PlaceTriangles(m: Mesh, keep: array<bool>, triRemap: array<int>, lo: Vec, cell: real, gx: int, gz: int)
    returns (ps: seq<Placement>)
    requires MeshOk(m) && cell > 0.0 && gx >= 1 && gz >= 1 && keep.Length == triRemap.Length == |m.triangles|
    requires forall i :: 0 <= i < keep.Length && keep[i] ==> triRemap[i] == Number(keep[..], i)
    ensures ps == Placements(m, keep[..], lo, cell, gx, gz) && AllFit(ps, gx, gz)
  {
    PlacementsFit(m, keep[..], lo, cell, gx, gz);
    hide CellRange, AllFit, Number, Numbered;
    ps := seq(keep.Length, i requires 0 <= i < keep.Length reads keep, triRemap
                requires triRemap.Length == keep.Length == |m.triangles| && MeshOk(m) =>
                  if keep[i] then CellRange(m, lo, cell, gx, gz, i, triRemap[i]) else Dropped);
    assert ps == Placements(m, keep[..], lo, cell, gx, gz);
  }

  ghost predicate TablesMatch(m: Mesh, o: Occluders<real>, plan: Plan)
    requires MeshOk(m) && |plan.keep| == |m.triangles| && o.cellSize > 0.0
  {
    && VertsMatch(m, plan.remap, plan.used, o.boundsMin, Extent(o), o.verts)
    && TrisMatch(m, plan.keep, plan.remap, o.tris)
    && CellsMatch(o, Placements(m, plan.keep, o.boundsMin, o.cellSize, o.gridX, o.gridZ))
  }

  /** The kept triangles take more cell references than a 32-bit offset can reach. */
  ghost predicate RefsOverflow(m: Mesh, frame: Occluders<real>, keep: seq<bool>)
    requires MeshOk(m) && |keep| == |m.triangles| && frame.cellSize > 0.0
  {
    var ps := Placements(m, keep, frame.boundsMin, frame.cellSize, frame.gridX, frame.gridZ);
    TotalRefs(ps, |ps|) > MAX_UINT32
  }

  /** The error that building from the kept triangles must end with. */
  ghost predicate FailsAs(m: Mesh, cell: real, keep: seq<bool>, error: BuildError)
    requires MeshOk(m) && |keep| == |m.triangles| && cell > 0.0
  {
    exists lo: Vec, hi: Vec :: IsBox(m, keep, lo, hi) &&
      var frame := Frame(lo, hi, cell);
      if frame.gridX * frame.gridZ > MAX_CELLS then error == GridTooLarge(frame.gridX, frame.gridZ)
      else error == TooManyRefs && RefsOverflow(m, frame, keep)
  }

  /** Fills the tables of a result whose bounds, grid and scale are given in `frame`. */
  method FillTables(m: Mesh, frame: Occluders<real>, keep: array<bool>, triRemap: array<int>, kept: int,
      remap: array<int>, used: int)
    returns (r: Result<Occluders<real>>)
    requires MeshOk(m) && frame.cellSize > 0.0 && frame.gridX >= 1 && frame.gridZ >= 1
    requires keep.Length == triRemap.Length == |m.triangles|
    requires kept == Number(keep[..], keep.Length)
    requires forall i :: 0 <= i < keep.Length && keep[i] ==> triRemap[i] == Number(keep[..], i)
    requires remap.Length == |m.vertices| && Numbering(remap[..], used)
    ensures r.Err? ==> r.error == TooManyRefs && RefsOverflow(m, frame, keep[..])
    ensures r.Ok? ==> OnFrame(r.value, frame)
    ensures r.Ok? ==> TablesMatch(m, r.value, Plan(keep[..], remap[..], used))
  {
    hide Numbering, VertsMatch, TrisMatch, Tiles, Slice, Listing, Number, Placements, AllFit;
    var ps := PlaceTriangles(m, keep, triRemap, frame.boundsMin, frame.cellSize, frame.gridX, frame.gridZ);
    var ok, cellStart, cellTris := FillCells(ps, frame.gridX, frame.gridZ);
    if !ok {
      return Err(TooManyRefs);
    }
    var verts := QuantiseVertices(m, remap, used, frame.boundsMin, Extent(frame));
    var tris := RenumberTriangles(m, keep, kept, remap);
    r := Ok(frame.(verts := verts[..], tris := tris[..], cellStart := cellStart, cellTris := cellTris));
  }

  method MeasureBox(m: Mesh, keep: array<bool>) returns (lo: Vec, hi: Vec)
    requires MeshOk(m) && keep.Length == |m.triangles| && exists i :: 0 <= i < keep.Length && keep[i]
    ensures IsBox(m, keep[..], lo, hi)
  {
    var rx := AxisRange(m, keep, GetX);
    var ry := AxisRange(m, keep, GetY);
    var rz := AxisRange(m, keep, GetZ);
    lo, hi := Vec3(rx.value.0, ry.value.0, rz.value.0), Vec3(rx.value.1, ry.value.1, rz.value.1);
  }

  /** Everything after the selection of the triangles. */
  method Assemble(m: Mesh, cell: real, keep: array<bool>, triRemap: array<int>, kept: int)
    returns (r: Result<Occluders<real>>, ghost plan: Plan)
    requires MeshOk(m) && cell > 0.0 && keep.Length == triRemap.Length == |m.triangles|
    requires exists i :: 0 <= i < keep.Length && keep[i]
    requires kept == Number(keep[..], keep.Length)
    requires forall i :: 0 <= i < keep.Length && keep[i] ==> triRemap[i] == Number(keep[..], i)
    ensures r.Ok? ==> Assembled(m, cell, r.value, plan) && plan.keep == keep[..]
    ensures r.Err? ==> plan.keep == keep[..] && FailsAs(m, cell, keep[..], r.error)
  {
    plan := Plan(keep[..], [], 0);
    var lo, hi := MeasureBox(m, keep);
    var frame := Frame(lo, hi, cell);
    FrameGrid(lo, hi, cell);
    hide IsBox, Numbering, UsedBy, TablesMatch, Number, Frame, RefsOverflow;
    var remap, used := CompactVertices(m, keep);
    if frame.gridX * frame.gridZ > MAX_CELLS {
      return Err(GridTooLarge(frame.gridX, frame.gridZ)), plan;
    }
    plan := Plan(keep[..], remap[..], used);
    r := FillTables(m, frame, keep, triRemap, kept, remap, used);
  }
}
