/** What several components share. */
module Basics {

  datatype Option<+T> = None | Some(value: T)

  /** Times are in nanoseconds. */
  const SECOND: int := 1_000_000_000

  /** Half away from zero. */
  function Round(r: real): int {
    if r >= 0.0 then (r + 0.5).Floor else -((-r + 0.5).Floor)
  }

  /** To the nearest whole number; of two, to the one further from zero. */
  lemma RoundNear(r: real)
    ensures -0.5 <= Round(r) as real - r <= 0.5
    ensures Round(r) as real - r == 0.5 ==> r > 0.0
    ensures Round(r) as real - r == -0.5 ==> r < 0.0
  {
  }

  lemma SomeMember<T>(s: set<T>) returns (x: T)
    requires s != {}
    ensures x in s
  {
    x :| x in s;
  }

  lemma RealSquare(x: real)
    ensures x * x >= 0.0 && (x == 0.0 <==> x * x == 0.0)
  {
    if x > 0.0 {
      PositiveProduct(x, x, x * x);
    } else if x < 0.0 {
      PositiveProduct(-x, -x, x * x);
    }
  }

  lemma PositiveProduct(x: real, y: real, p: real)
    requires x > 0.0 && y > 0.0 && p == x * y
    ensures p > 0.0
  {
  }
}
