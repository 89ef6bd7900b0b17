/** The occluder of `internal/los`: its data, and the ray/triangle test. */
module Los {
  import opened LosCells

  /** A triple indexed by axis; `real` for coordinates, raw words in the file format. */
  datatype Vec3<T> = Vec3(x: T, y: T, z: T)

  type Vec = Vec3<real>

  const PARALLEL_EPS: real := 0.000000000001
  const HIT_EPS: real := 0.000001
  const QUANT_BIAS: int := 32767
  const QUANT_RANGE: int := 65534

  /** `F` is the type of the floating-point fields. */
  datatype Occluders<F> = Occluders(
    boundsMin: Vec3<F>,
    boundsMax: Vec3<F>,
    origin: Vec3<F>,
    cellSize: F,
    gridX: int,
    gridZ: int,
    scale: Vec3<F>,
    verts: seq<int>,
    tris: seq<int>,
    cellStart: seq<int>,
    cellTris: seq<int>)
  {
    function VertexCount(): nat { |verts| / 3 }

    function TriangleCount(): nat { |tris| / 3 }

    /** Everything the query code relies on when it indexes the tables. */
    ghost predicate Indexable() {
      && gridX >= 1 && gridZ >= 1
      && |cellStart| == gridX * gridZ + 1
      && |verts| % 3 == 0 && |tris| % 3 == 0
      && (forall i :: 0 <= i < |tris| ==> 0 <= tris[i] < VertexCount())
      && (forall i :: 0 <= i < |cellTris| ==> 0 <= cellTris[i] < TriangleCount())
      && Tiles(cellStart, |cellTris|)
    }
  }

  // ---- Vectors -------------------------------------------------------------

  function Sub(a: Vec, b: Vec): Vec { Vec3(a.x - b.x, a.y - b.y, a.z - b.z) }

  function Dot(a: Vec, b: Vec): real { a.x * b.x + a.y * b.y + a.z * b.z }

  function Cross(a: Vec, b: Vec): Vec {
    Vec3(a.y * b.z - a.z * b.y, a.z * b.x - a.x * b.z, a.x * b.y - a.y * b.x)
  }

  function Along(from: Vec, d: Vec, t: real): Vec {
    Vec3(from.x + t * d.x, from.y + t * d.y, from.z + t * d.z)
  }

  function Abs(r: real): real { if r < 0.0 then -r else r }

  // ---- Ray against one triangle ----------------------------------------------

  /** The Moeller-Trumbore test: three products over one determinant, then `Decide`. */
  predicate Blocks(v0: Vec, v1: Vec, v2: Vec, from: Vec, d: Vec) {
    var e1 := Sub(v1, v0);
    var e2 := Sub(v2, v0);
    var p := Cross(d, e2);
    var tv := Sub(from, v0);
    var q := Cross(tv, e1);
    Decide(Dot(e1, p), Dot(tv, p), Dot(d, q), Dot(e2, q))
  }

  /** The branches of the test: flatness, the two barycentric weights, the position along the segment. */
  predicate Decide(det: real, un: real, vn: real, tn: real) {
    if Abs(det) < PARALLEL_EPS then false else
    var u := Ratio(un, det);
    if u < 0.0 || u > 1.0 then false else
    var v := Ratio(vn, det);
    if v < 0.0 || u + v > 1.0 then false else
    var tt := Ratio(tn, det);
    HIT_EPS < tt < 1.0 - HIT_EPS
  }

  /** The code divides by multiplying with the reciprocal of the determinant. */
  function Ratio(n: real, det: real): real
    requires det != 0.0
  {
    n * (1.0 / det)
  }

  /** At parameter `t` the line is at the triangle point with barycentric weights `u`, `v`. */
  ghost predicate MeetsAt(v0: Vec, v1: Vec, v2: Vec, from: Vec, d: Vec, u: real, v: real, t: real) {
    var e1 := Sub(v1, v0);
    var e2 := Sub(v2, v0);
    && 0.0 <= u && 0.0 <= v && u + v <= 1.0
    && SamePoint(from.x, t, d.x, v0.x, u, e1.x, v, e2.x)
    && SamePoint(from.y, t, d.y, v0.y, u, e1.y, v, e2.y)
    && SamePoint(from.z, t, d.z, v0.z, u, e1.z, v, e2.z)
  }

  /** On one axis, `from + t * d` is `base + u * e1 + v * e2`. */
  ghost predicate SamePoint(from: real, t: real, d: real, base: real, u: real, e1: real, v: real, e2: real) {
    from + t * d == base + u * e1 + v * e2
  }

  ghost function Det(v0: Vec, v1: Vec, v2: Vec, d: Vec): real {
    Dot(Sub(v1, v0), Cross(d, Sub(v2, v0)))
  }

  /** Cramer's rule, cleared of its denominator. */
  lemma Cramer(e1: Vec, e2: Vec, d: Vec, w: Vec)
    ensures var det := Dot(e1, Cross(d, e2)); var un := Dot(w, Cross(d, e2));
            var vn := Dot(d, Cross(w, e1)); var tn := Dot(e2, Cross(w, e1));
            && det * w.x == Mix(un, vn, tn, e1.x, e2.x, d.x)
            && det * w.y == Mix(un, vn, tn, e1.y, e2.y, d.y)
            && det * w.z == Mix(un, vn, tn, e1.z, e2.z, d.z)
  {
  }

  function Combine(u: real, v: real, t: real, e1: Vec, e2: Vec, d: Vec): Vec {
    Vec3(Mix(u, v, t, e1.x, e2.x, d.x), Mix(u, v, t, e1.y, e2.y, d.y), Mix(u, v, t, e1.z, e2.z, d.z))
  }

  function Mix(u: real, v: real, t: real, x: real, y: real, z: real): real {
    u * x + v * y - t * z
  }

  lemma DotCombine(u: real, v: real, t: real, e1: Vec, e2: Vec, d: Vec, n: Vec)
    ensures Dot(Combine(u, v, t, e1, e2, d), n) == u * Dot(e1, n) + v * Dot(e2, n) - t * Dot(d, n)
  {
  }

  /** The triple product is invariant under rotation. */
  lemma TripleProduct(a: Vec, b: Vec, c: Vec)
    ensures Dot(a, Cross(b, c)) == Dot(b, Cross(c, a))
  {
  }

  lemma CrossOrthogonal(a: Vec, b: Vec)
    ensures Dot(a, Cross(a, b)) == 0.0 && Dot(b, Cross(a, b)) == 0.0
  {
  }

  lemma CrossFlips(a: Vec, b: Vec, c: Vec)
    ensures Dot(a, Cross(b, c)) == -Dot(a, Cross(c, b))
  {
  }

  /** The three products the code forms recover the weights of any solution. */
  lemma CramerInverse(e1: Vec, e2: Vec, d: Vec, u: real, v: real, t: real)
    ensures var w := Combine(u, v, t, e1, e2, d);
            var p := Cross(d, e2); var q := Cross(w, e1);
            var det := Dot(e1, p);
            Dot(w, p) == u * det && Dot(d, q) == v * det && Dot(e2, q) == t * det
  {
    var w := Combine(u, v, t, e1, e2, d);
    var p := Cross(d, e2);
    DotCombine(u, v, t, e1, e2, d, p);
    CrossOrthogonal(d, e2);
    TripleProduct(d, w, e1);
    DotCombine(u, v, t, e1, e2, d, Cross(e1, d));
    CrossOrthogonal(e1, d);
    TripleProduct(e2, e1, d);
    TripleProduct(e2, w, e1);
    DotCombine(u, v, t, e1, e2, d, Cross(e1, e2));
    CrossOrthogonal(e1, e2);
    TripleProduct(d, e1, e2);
    CrossFlips(e1, e2, d);
    hide Dot, Cross, Combine;
  }

  /** `Decide` accepts the admissible solutions of `det * (u, v, t) == (un, vn, tn)`. */
  lemma DecideOfSolution(det: real, un: real, vn: real, tn: real, u: real, v: real, t: real)
    requires Abs(det) >= PARALLEL_EPS
    requires un == u * det && vn == v * det && tn == t * det
    requires 0.0 <= u && 0.0 <= v && u + v <= 1.0 && HIT_EPS < t < 1.0 - HIT_EPS
    ensures Decide(det, un, vn, tn)
  {
    CancelFactor(det, u);
    CancelFactor(det, v);
    CancelFactor(det, t);
  }

  lemma CancelFactor(det: real, a: real)
    requires det != 0.0
    ensures Ratio(a * det, det) == a
  {
  }

  lemma RatioSolves(n: real, det: real)
    requires det != 0.0
    ensures Ratio(n, det) * det == n
  {
    var inv := 1.0 / det;
    assert inv * det == 1.0;
    assert (n * inv) * det == n * (inv * det);
  }

  lemma SolutionOfDecide(det: real, un: real, vn: real, tn: real) returns (u: real, v: real, t: real)
    requires Decide(det, un, vn, tn)
    ensures u * det == un && v * det == vn && t * det == tn
    ensures 0.0 <= u && 0.0 <= v && u + v <= 1.0 && HIT_EPS < t < 1.0 - HIT_EPS
    ensures det != 0.0
  {
    u, v, t := Ratio(un, det), Ratio(vn, det), Ratio(tn, det);
    RatioSolves(un, det);
    RatioSolves(vn, det);
    RatioSolves(tn, det);
  }

  /** One coordinate of Cramer's rule, divided by the determinant. */
  lemma Divide(det: real, w: real, un: real, vn: real, tn: real, u: real, v: real, t: real, x: real, y: real, z: real)
    requires det != 0.0 && un == u * det && vn == v * det && tn == t * det
    requires det * w == Mix(un, vn, tn, x, y, z)
    ensures w == Mix(u, v, t, x, y, z)
  {
    var r := Mix(u, v, t, x, y, z);
    assert det * r == Mix(un, vn, tn, x, y, z);
    assert det * (w - r) == 0.0;
  }

  lemma WeightsFromCramer(det: real, un: real, vn: real, tn: real, e1: Vec, e2: Vec, d: Vec, w: Vec)
    returns (u: real, v: real, t: real)
    requires Decide(det, un, vn, tn)
    requires det * w.x == Mix(un, vn, tn, e1.x, e2.x, d.x)
    requires det * w.y == Mix(un, vn, tn, e1.y, e2.y, d.y)
    requires det * w.z == Mix(un, vn, tn, e1.z, e2.z, d.z)
    ensures w == Combine(u, v, t, e1, e2, d)
    ensures 0.0 <= u && 0.0 <= v && u + v <= 1.0 && HIT_EPS < t < 1.0 - HIT_EPS
  {
    u, v, t := SolutionOfDecide(det, un, vn, tn);
    Divide(det, w.x, un, vn, tn, u, v, t, e1.x, e2.x, d.x);
    Divide(det, w.y, un, vn, tn, u, v, t, e1.y, e2.y, d.y);
    Divide(det, w.z, un, vn, tn, u, v, t, e1.z, e2.z, d.z);
  }

  lemma MeetsIffCombine(v0: Vec, v1: Vec, v2: Vec, from: Vec, d: Vec, u: real, v: real, t: real)
    requires 0.0 <= u && 0.0 <= v && u + v <= 1.0
    ensures MeetsAt(v0, v1, v2, from, d, u, v, t) <==> Sub(from, v0) == Combine(u, v, t, Sub(v1, v0), Sub(v2, v0), d)
  {
    var e1 := Sub(v1, v0);
    var e2 := Sub(v2, v0);
    hide SamePoint, Mix;
    SamePointIffMix(from.x, t, d.x, v0.x, u, e1.x, v, e2.x);
    SamePointIffMix(from.y, t, d.y, v0.y, u, e1.y, v, e2.y);
    SamePointIffMix(from.z, t, d.z, v0.z, u, e1.z, v, e2.z);
  }

  lemma SamePointIffMix(from: real, t: real, d: real, base: real, u: real, e1: real, v: real, e2: real)
    ensures SamePoint(from, t, d, base, u, e1, v, e2) <==> from - base == Mix(u, v, t, e1, e2, d)
  {
  }

  /** Whatever the test reports is a true crossing: the line meets the triangle. */
  lemma BlocksMeets(v0: Vec, v1: Vec, v2: Vec, from: Vec, d: Vec) returns (u: real, v: real, t: real)
    requires Blocks(v0, v1, v2, from, d)
    ensures MeetsAt(v0, v1, v2, from, d, u, v, t)
    ensures HIT_EPS < t < 1.0 - HIT_EPS
  {
    var e1 := Sub(v1, v0);
    var e2 := Sub(v2, v0);
    var w := Sub(from, v0);
    Cramer(e1, e2, d, w);
    hide Dot, Cross, Mix;
    u, v, t := WeightsFromCramer(Dot(e1, Cross(d, e2)), Dot(w, Cross(d, e2)), Dot(d, Cross(w, e1)),
                                 Dot(e2, Cross(w, e1)), e1, e2, d, w);
    MeetsIffCombine(v0, v1, v2, from, d, u, v, t);
  }

  /** Every crossing that is not too flat and not too near an end of the segment is reported. */
  lemma MeetsBlocks(v0: Vec, v1: Vec, v2: Vec, from: Vec, d: Vec, u: real, v: real, t: real)
    requires MeetsAt(v0, v1, v2, from, d, u, v, t)
    requires Abs(Det(v0, v1, v2, d)) >= PARALLEL_EPS
    requires HIT_EPS < t < 1.0 - HIT_EPS
    ensures Blocks(v0, v1, v2, from, d)
  {
    var e1 := Sub(v1, v0);
    var e2 := Sub(v2, v0);
    var w := Sub(from, v0);
    hide Dot, Cross, Mix;
    MeetsIffCombine(v0, v1, v2, from, d, u, v, t);
    CramerInverse(e1, e2, d, u, v, t);
    DecideOfSolution(Dot(e1, Cross(d, e2)), Dot(w, Cross(d, e2)), Dot(d, Cross(w, e1)), Dot(e2, Cross(w, e1)), u, v, t);
  }

  // ---- In coordinates --------------------------------------------------------------

  /** At parameter `s` the segment is at the point of the triangle with weights 1 - u - v, u and v. */
  ghost predicate Crosses(a: Vec, b: Vec, c: Vec, from: Vec, d: Vec, s: real, u: real, v: real) {
    && 0.0 <= u && 0.0 <= v && u + v <= 1.0
    && from.x + s * d.x == (1.0 - u - v) * a.x + u * b.x + v * c.x
    && from.y + s * d.y == (1.0 - u - v) * a.y + u * b.y + v * c.y
    && from.z + s * d.z == (1.0 - u - v) * a.z + u * b.z + v * c.z
  }

  function Volume(e: Vec, f: Vec, d: Vec): real {
    d.x * (e.y * f.z - e.z * f.y) + d.y * (e.z * f.x - e.x * f.z) + d.z * (e.x * f.y - e.y * f.x)
  }

  /** The volume spanned by the direction and two edges is at least 10^-12. */
  predicate Steep(a: Vec, b: Vec, c: Vec, d: Vec) {
    var volume := Volume(Vec3(b.x - a.x, b.y - a.y, b.z - a.z), Vec3(c.x - a.x, c.y - a.y, c.z - a.z), d);
    volume >= 0.000000000001 || volume <= -0.000000000001
  }

  lemma WeightsSum(p: real, a: real, b: real, c: real, u: real, v: real)
    ensures p == a + u * (b - a) + v * (c - a) <==> p == (1.0 - u - v) * a + u * b + v * c
  {
    assert a + u * (b - a) + v * (c - a) == (1.0 - u - v) * a + u * b + v * c;
  }

  lemma MeetsIffCrosses(a: Vec, b: Vec, c: Vec, from: Vec, d: Vec, u: real, v: real, s: real)
    ensures MeetsAt(a, b, c, from, d, u, v, s) <==> Crosses(a, b, c, from, d, s, u, v)
  {
    WeightsSum(from.x + s * d.x, a.x, b.x, c.x, u, v);
    WeightsSum(from.y + s * d.y, a.y, b.y, c.y, u, v);
    WeightsSum(from.z + s * d.z, a.z, b.z, c.z, u, v);
  }

  lemma DetIsVolume(e: Vec, f: Vec, d: Vec)
    ensures Dot(e, Cross(d, f)) == -Volume(e, f, d)
  {
  }

  lemma SteepIffDet(a: Vec, b: Vec, c: Vec, d: Vec)
    ensures Steep(a, b, c, d) <==> Abs(Det(a, b, c, d)) >= PARALLEL_EPS
  {
    hide Dot, Cross, Volume;
    DetIsVolume(Sub(b, a), Sub(c, a), d);
  }

  /** The test decides exactly the crossings in (10^-6, 1 - 10^-6) of a triangle that is not near-parallel. */
  lemma BlocksIffCrosses(a: Vec, b: Vec, c: Vec, from: Vec, d: Vec)
    ensures Blocks(a, b, c, from, d) <==>
            Steep(a, b, c, d) && exists s, u, v :: Crosses(a, b, c, from, d, s, u, v) && 0.000001 < s < 0.999999
  {
    BlocksIffMeets(a, b, c, from, d);
    SteepIffDet(a, b, c, d);
    hide Blocks, Steep, MeetsAt, Crosses, Det;
    forall s, u, v
      ensures MeetsAt(a, b, c, from, d, u, v, s) <==> Crosses(a, b, c, from, d, s, u, v)
    {
      MeetsIffCrosses(a, b, c, from, d, u, v, s);
    }
  }

  /** The test decides exactly the open-segment crossings of a triangle that is not near-parallel. */
  lemma BlocksIffMeets(v0: Vec, v1: Vec, v2: Vec, from: Vec, d: Vec)
    ensures Blocks(v0, v1, v2, from, d) <==>
            && Abs(Det(v0, v1, v2, d)) >= PARALLEL_EPS
            && exists u, v, t :: MeetsAt(v0, v1, v2, from, d, u, v, t) && HIT_EPS < t < 1.0 - HIT_EPS
  {
    if Blocks(v0, v1, v2, from, d) {
      var u, v, t := BlocksMeets(v0, v1, v2, from, d);
    }
    if Abs(Det(v0, v1, v2, d)) >= PARALLEL_EPS
       && exists u, v, t :: MeetsAt(v0, v1, v2, from, d, u, v, t) && HIT_EPS < t < 1.0 - HIT_EPS {
      var u, v, t :| MeetsAt(v0, v1, v2, from, d, u, v, t) && HIT_EPS < t < 1.0 - HIT_EPS;
      MeetsBlocks(v0, v1, v2, from, d, u, v, t);
    }
  }
}
