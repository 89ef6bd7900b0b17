/** Which triangles `Build` keeps, said of their corners alone. */
module LosArea {
  import opened Basics
  import opened Los
  import opened LosBuild

  function From(a: Vec, b: Vec): Vec { Vec3(b.x - a.x, b.y - a.y, b.z - a.z) }

  predicate Multiple(f: Vec, k: real, e: Vec) {
    f.x == k * e.x && f.y == k * e.y && f.z == k * e.z
  }

  /** The three points are on one line. */
  ghost predicate OnOneLine(a: Vec, b: Vec, c: Vec) {
    a == b || exists k: real :: Multiple(From(a, c), k, From(a, b))
  }

  /** `foot` is on the line through `a` and `b`, and `c` stands upright over it. */
  ghost predicate Foot(a: Vec, b: Vec, c: Vec, foot: Vec) {
    && (exists k: real :: Multiple(From(a, foot), k, From(a, b)))
    && (c.x - foot.x) * (b.x - a.x) + (c.y - foot.y) * (b.y - a.y) + (c.z - foot.z) * (b.z - a.z) == 0.0
  }

  function Square(v: Vec): real { v.x * v.x + v.y * v.y + v.z * v.z }

  // ---- Arithmetic ---------------------------------------------------------------------

  lemma SumZero(x: real, y: real, z: real)
    requires x >= 0.0 && y >= 0.0 && z >= 0.0
    ensures x + y + z >= 0.0 && (x + y + z == 0.0 <==> x == 0.0 && y == 0.0 && z == 0.0)
  {
  }

  lemma SquareZero(v: Vec)
    ensures Square(v) >= 0.0 && (Square(v) == 0.0 <==> v == Vec3(0.0, 0.0, 0.0))
  {
    RealSquare(v.x);
    RealSquare(v.y);
    RealSquare(v.z);
    SumZero(v.x * v.x, v.y * v.y, v.z * v.z);
  }

  /** One coordinate of a cross product in which one factor is moved along the other. */
  lemma Sheared(x: real, y: real, k: real, p: real, q: real, u: real, v: real)
    requires u == k * x + p && v == k * y + q
    ensures x * v - y * u == x * q - y * p
  {
    assert x * (k * y) == y * (k * x);
    assert x * (k * y + q) == x * (k * y) + x * q;
    assert y * (k * x + p) == y * (k * x) + y * p;
  }

  lemma CrossSheared(e: Vec, k: real, h: Vec, f: Vec)
    requires f.x == k * e.x + h.x && f.y == k * e.y + h.y && f.z == k * e.z + h.z
    ensures Cross(e, f) == Cross(e, h)
  {
    Sheared(e.y, e.z, k, h.y, h.z, f.y, f.z);
    Sheared(e.z, e.x, k, h.z, h.x, f.z, f.x);
    Sheared(e.x, e.y, k, h.x, h.y, f.x, f.y);
    var p, q := Cross(e, f), Cross(e, h);
    assert p.x == q.x;
    assert p.y == q.y;
    assert p.z == q.z;
  }

  lemma CrossNothing(e: Vec)
    ensures Cross(e, Vec3(0.0, 0.0, 0.0)) == Vec3(0.0, 0.0, 0.0)
  {
  }

  lemma Proportion(p: real, q: real, r: real, s: real, k: real)
    requires p != 0.0 && k == q / p && p * s == r * q
    ensures q == k * p && s == k * r
  {
    assert k * p == q;
    assert p * (k * r) == r * (k * p);
    assert p * (s - k * r) == 0.0;
  }

  /** Vectors whose cross product vanishes are multiples. */
  lemma CrossZero(e: Vec, f: Vec)
    requires Cross(e, f) == Vec3(0.0, 0.0, 0.0)
    ensures e.y * f.z == e.z * f.y && e.z * f.x == e.x * f.z && e.x * f.y == e.y * f.x
  {
  }

  lemma MultipleOfCross(e: Vec, f: Vec) returns (k: real)
    requires Cross(e, f) == Vec3(0.0, 0.0, 0.0) && e != Vec3(0.0, 0.0, 0.0)
    ensures Multiple(f, k, e)
  {
    hide Cross;
    CrossZero(e, f);
    if e.x != 0.0 {
      k := f.x / e.x;
      Proportion(e.x, f.x, e.y, f.y, k);
      Proportion(e.x, f.x, e.z, f.z, k);
    } else if e.y != 0.0 {
      k := f.y / e.y;
      Proportion(e.y, f.y, e.x, f.x, k);
      Proportion(e.y, f.y, e.z, f.z, k);
    } else {
      k := f.z / e.z;
      Proportion(e.z, f.z, e.x, f.x, k);
      Proportion(e.z, f.z, e.y, f.y, k);
    }
  }

  lemma Lagrange(e: Vec, h: Vec)
    requires h.x * e.x + h.y * e.y + h.z * e.z == 0.0
    ensures Square(Cross(e, h)) == Square(e) * Square(h)
  {
    var dot := h.x * e.x + h.y * e.y + h.z * e.z;
    assert Square(Cross(e, h)) + dot * dot == Square(e) * Square(h);
  }

  // ---- What is kept ---------------------------------------------------------------------

  lemma AreaIsSquare(a: Vec, b: Vec, c: Vec)
    ensures DoubleAreaSquared(a, b, c) == Square(Cross(From(a, b), From(a, c)))
  {
  }

  /** Without a threshold, the triangles kept are those whose corners are not on one line. */
  lemma KeptIffNotOnLine(m: Mesh, i: int)
    requires 0 <= i < |m.triangles| && IndicesOk(m, i)
    ensures var t := m.triangles[i];
      Keeps(m, 0.0, i) <==> !OnOneLine(m.vertices[t.a], m.vertices[t.b], m.vertices[t.c])
  {
    CornersAre(m, i);
    hide Square, Cross, DoubleAreaSquared, MeshCorner, Multiple;
    var a, b, c := MeshCorner(m, i, 0), MeshCorner(m, i, 1), MeshCorner(m, i, 2);
    var e, f := From(a, b), From(a, c);
    AreaIsSquare(a, b, c);
    SquareZero(Cross(e, f));
    if Cross(e, f) == Vec3(0.0, 0.0, 0.0) && e != Vec3(0.0, 0.0, 0.0) {
      var k := MultipleOfCross(e, f);
    }
    if OnOneLine(a, b, c) {
      LineHasNoArea(a, b, c);
    }
  }

  lemma LineHasNoArea(a: Vec, b: Vec, c: Vec)
    requires OnOneLine(a, b, c)
    ensures Cross(From(a, b), From(a, c)) == Vec3(0.0, 0.0, 0.0)
  {
    if a != b {
      var k: real :| Multiple(From(a, c), k, From(a, b));
      var nothing := Vec3(0.0, 0.0, 0.0);
      CrossSheared(From(a, b), k, nothing, From(a, c));
      CrossNothing(From(a, b));
    }
  }

  lemma AreaOverFoot(a: Vec, b: Vec, c: Vec, foot: Vec)
    requires Foot(a, b, c, foot)
    ensures DoubleAreaSquared(a, b, c) == Square(From(a, b)) * Square(From(foot, c))
  {
    hide Cross, DoubleAreaSquared, Square;
    var e, f, h := From(a, b), From(a, c), From(foot, c);
    var k: real :| Multiple(From(a, foot), k, e);
    AreaIsSquare(a, b, c);
    assert f.x == k * e.x + h.x && f.y == k * e.y + h.y && f.z == k * e.z + h.z;
    CrossSheared(e, k, h, f);
    Lagrange(e, h);
  }

  lemma AreaReaches(square: real, area: real)
    requires area > 0.0
    ensures square > 0.0 && !(square < 4.0 * area * area) <==> square / 4.0 >= area * area
  {
    RealSquare(area);
    FourTimes(area, area * area);
  }

  lemma FourTimes(area: real, q: real)
    requires q == area * area
    ensures 4.0 * area * area == 4.0 * q
  {
    assert 4.0 * area * area == 4.0 * (area * area);
  }

  /** With a threshold, those whose area, half of base times height, reaches it; all in squares. */
  lemma KeptIffLarge(m: Mesh, minArea: real, i: int, foot: Vec)
    requires 0 <= i < |m.triangles| && IndicesOk(m, i) && minArea > 0.0
    requires var t := m.triangles[i]; Foot(m.vertices[t.a], m.vertices[t.b], m.vertices[t.c], foot)
    ensures var t := m.triangles[i];
      var base, height := From(m.vertices[t.a], m.vertices[t.b]), From(foot, m.vertices[t.c]);
      Keeps(m, minArea, i) <==> Square(base) * Square(height) / 4.0 >= minArea * minArea
  {
    CornersAre(m, i);
    hide Square, DoubleAreaSquared, MeshCorner, Foot;
    AreaOverFoot(MeshCorner(m, i, 0), MeshCorner(m, i, 1), MeshCorner(m, i, 2), foot);
    AreaReaches(DoubleAreaSquared(MeshCorner(m, i, 0), MeshCorner(m, i, 1), MeshCorner(m, i, 2)), minArea);
  }

  lemma CornersAre(m: Mesh, i: int)
    requires 0 <= i < |m.triangles| && IndicesOk(m, i)
    ensures var t := m.triangles[i];
      && MeshCorner(m, i, 0) == m.vertices[t.a] && MeshCorner(m, i, 1) == m.vertices[t.b]
      && MeshCorner(m, i, 2) == m.vertices[t.c]
  {
  }

  /** A triangle whose base is no point has such a foot. */
  lemma FootExists(a: Vec, b: Vec, c: Vec) returns (foot: Vec)
    requires a != b
    ensures Foot(a, b, c, foot)
  {
    hide Square, DotOf;
    var e, f := From(a, b), From(a, c);
    SquareZero(e);
    var k := DotOf(f, e) / Square(e);
    Quotient(DotOf(f, e), Square(e));
    foot := Vec3(a.x + k * e.x, a.y + k * e.y, a.z + k * e.z);
    var h := Vec3(f.x - k * e.x, f.y - k * e.y, f.z - k * e.z);
    UprightFoot(e, f, k, h);
    assert h == From(foot, c);
    assert Multiple(From(a, foot), k, e);
    FootOf(a, b, c, foot, k);
  }

  lemma FootOf(a: Vec, b: Vec, c: Vec, foot: Vec, k: real)
    requires Multiple(From(a, foot), k, From(a, b)) && DotOf(From(foot, c), From(a, b)) == 0.0
    ensures Foot(a, b, c, foot)
  {
    hide Multiple;
  }

  function DotOf(f: Vec, e: Vec): real { f.x * e.x + f.y * e.y + f.z * e.z }

  lemma Quotient(p: real, q: real)
    requires q != 0.0
    ensures p / q * q == p
  {
  }

  lemma UprightFoot(e: Vec, f: Vec, k: real, h: Vec)
    requires h.x == f.x - k * e.x && h.y == f.y - k * e.y && h.z == f.z - k * e.z && k * Square(e) == DotOf(f, e)
    ensures DotOf(h, e) == 0.0
  {
    Spread(f.x, k, e.x, h.x);
    Spread(f.y, k, e.y, h.y);
    Spread(f.z, k, e.z, h.z);
    var x, y, z := e.x * e.x, e.y * e.y, e.z * e.z;
    assert k * (x + y + z) == k * x + k * y + k * z;
  }

  lemma Spread(f: real, k: real, e: real, h: real)
    requires h == f - k * e
    ensures h * e == f * e - k * (e * e)
  {
  }
}
