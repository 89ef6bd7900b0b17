/** The Euclidean distance is a metric, so `Search` may be used with it. */
module AStarMetric {
  import opened Basics
  import opened AStar

  /** The graph's distances are the Euclidean ones: not negative, and with the right squares. */
  ghost predicate Euclidean(gr: Graph) {
    forall a, b :: IsDistance(a, b, gr.dist(a, b))
  }

  predicate IsDistance(a: Waypoint, b: Waypoint, d: real) {
    d >= 0.0 && d * d == (a.x - b.x) * (a.x - b.x) + (a.y - b.y) * (a.y - b.y) + (a.z - b.z) * (a.z - b.z)
  }

  /** Of numbers that are not negative, the one with the larger square is the larger. */
  lemma Root(x: real, y: real)
    requires y >= 0.0 && x * x <= y * y
    ensures x <= y
  {
    if x > y {
      Difference(x, y);
      PositiveProduct(x - y, x + y, x * x - y * y);
    }
  }

  lemma Difference(x: real, y: real)
    ensures (x - y) * (x + y) == x * x - y * y
  {
  }

  function Inner(a: real, b: real, c: real, p: real, q: real, r: real): real { a * p + b * q + c * r }

  /** Lagrange's identity. */
  lemma Lagrange(a: real, b: real, c: real, p: real, q: real, r: real)
    ensures Inner(a, b, c, a, b, c) * Inner(p, q, r, p, q, r)
            == Inner(a, b, c, p, q, r) * Inner(a, b, c, p, q, r)
             + (b * r - c * q) * (b * r - c * q) + (c * p - a * r) * (c * p - a * r) + (a * q - b * p) * (a * q - b * p)
  {
  }

  lemma ProductOfSquares(x: real, y: real)
    ensures (x * y) * (x * y) == (x * x) * (y * y)
  {
  }

  /** Cauchy and Schwarz. */
  lemma InnerAtMost(a: real, b: real, c: real, p: real, q: real, r: real, x: real, y: real)
    requires x >= 0.0 && y >= 0.0 && x * x == Inner(a, b, c, a, b, c) && y * y == Inner(p, q, r, p, q, r)
    ensures Inner(a, b, c, p, q, r) <= x * y
  {
    Lagrange(a, b, c, p, q, r);
    RealSquare(b * r - c * q);
    RealSquare(c * p - a * r);
    RealSquare(a * q - b * p);
    ProductOfSquares(x, y);
    assert x * y >= 0.0 by { if x > 0.0 && y > 0.0 { PositiveProduct(x, y, x * y); } }
    hide Inner;
    Root(Inner(a, b, c, p, q, r), x * y);
  }

  /** The square of a sum of vectors. */
  lemma SumSquare(a: real, b: real, c: real, p: real, q: real, r: real)
    ensures Inner(a + p, b + q, c + r, a + p, b + q, c + r)
            == Inner(a, b, c, a, b, c) + 2.0 * Inner(a, b, c, p, q, r) + Inner(p, q, r, p, q, r)
  {
  }

  lemma DistanceInner(a: Waypoint, b: Waypoint, d: real)
    requires IsDistance(a, b, d)
    ensures d >= 0.0 && d * d == Inner(a.x - b.x, a.y - b.y, a.z - b.z, a.x - b.x, a.y - b.y, a.z - b.z)
  {
  }

  lemma Triangle(a: Waypoint, b: Waypoint, c: Waypoint, x: real, y: real, z: real)
    requires IsDistance(a, b, x) && IsDistance(b, c, y) && IsDistance(a, c, z)
    ensures z <= x + y
  {
    DistanceInner(a, b, x);
    DistanceInner(b, c, y);
    DistanceInner(a, c, z);
    hide IsDistance, Inner;
    InnerAtMost(a.x - b.x, a.y - b.y, a.z - b.z, b.x - c.x, b.y - c.y, b.z - c.z, x, y);
    SumSquare(a.x - b.x, a.y - b.y, a.z - b.z, b.x - c.x, b.y - c.y, b.z - c.z);
    assert (x + y) * (x + y) == x * x + 2.0 * (x * y) + y * y;
    Root(z, x + y);
  }

  lemma NoDistance(a: Waypoint, b: Waypoint, d: real)
    requires IsDistance(a, b, d)
    ensures d == 0.0 <==> a == b
  {
    RealSquare(d);
    RealSquare(a.x - b.x);
    RealSquare(a.y - b.y);
    RealSquare(a.z - b.z);
  }

  /** What `Search` asks of the distances holds of the ones that the program uses. */
  lemma EuclideanIsMetric(gr: Graph)
    requires Euclidean(gr)
    ensures gr.Metric()
  {
    hide IsDistance;
    forall a, b
      ensures gr.dist(a, b) >= 0.0 && (gr.dist(a, b) == 0.0 <==> a == b)
    {
      assert IsDistance(a, b, gr.dist(a, b));
      NoDistance(a, b, gr.dist(a, b));
      DistanceInner(a, b, gr.dist(a, b));
    }
    forall a, b, c
      ensures gr.dist(a, c) <= gr.dist(a, b) + gr.dist(b, c)
    {
      assert IsDistance(a, b, gr.dist(a, b)) && IsDistance(b, c, gr.dist(b, c)) && IsDistance(a, c, gr.dist(a, c));
      Triangle(a, b, c, gr.dist(a, b), gr.dist(b, c), gr.dist(a, c));
    }
  }
}
