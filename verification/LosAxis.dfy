/** One horizontal axis of the occluder grid seen along a segment: position in cells, clipping, exits. */
module LosAxis {
  import opened Basics

  function ClampCell(f: real, n: int): int {
    var c := f.Floor;
    if c < 0 then 0 else if c >= n then n - 1 else c
  }

  /** The nearest of the cells 0 to n - 1. */
  lemma ClampIsNearest(f: real, n: int)
    requires n >= 1
    ensures var c := ClampCell(f, n); 0 <= c < n && (c < f.Floor ==> c == n - 1) && (c > f.Floor ==> c == 0)
  {
  }

  /** The segment starts at `p` and runs `d`; the grid has `n` cells of size `cell` from `lo` and ends by `hi`. */
  datatype Axis = Axis(p: real, d: real, lo: real, hi: real, cell: real, n: int) {

    ghost predicate Valid() {
      cell > 0.0 && n >= 1 && lo <= hi && hi - lo <= n as real * cell
    }

    function At(s: real): real { p + d * s }

    /** The position at parameter `s`, in cells from `lo`. */
    function Pos(s: real): real
      requires cell != 0.0
    {
      (At(s) - lo) / cell
    }

    function Cell(s: real): int
      requires cell != 0.0
    {
      ClampCell(Pos(s), n)
    }

    predicate Inside(s: real) { lo <= At(s) <= hi }

    function Step(): int { if d > 0.0 then 1 else if d < 0.0 then -1 else 0 }

    /** The parameter at which the segment leaves column `c`; `None` stands for the code's +Inf. */
    function Exit(c: int): Option<real> {
      if d == 0.0 then None else
      Some(Reach(Border(c + if Step() > 0 then 1 else 0)))
    }

    /** The coordinate of border `k`. */
    function Border(k: int): real { lo + k as real * cell }

    /** The parameter at which the segment is at coordinate `x`. */
    function Reach(x: real): real
      requires d != 0.0
    {
      (x - p) / d
    }

    /** The parameter distance between two column borders. */
    function Delta(): Option<real> {
      if d == 0.0 then None else Some(cell / (if d < 0.0 then -d else d))
    }

    /** Intersects [t0, t1] with the parameters inside the bounds of this axis. */
    function Clip(t0: real, t1: real): Option<(real, real)> {
      if d == 0.0 then
        if p < lo || p > hi then None else Some((t0, t1))
      else
        var inv := 1.0 / d;
        var ta := (lo - p) * inv;
        var tb := (hi - p) * inv;
        var (ta, tb) := if ta > tb then (tb, ta) else (ta, tb);
        Some((if ta > t0 then ta else t0, if tb < t1 then tb else t1))
    }
  }

  function Advance(t: Option<real>, delta: Option<real>): Option<real> {
    if t.Some? && delta.Some? then Some(t.value + delta.value) else None
  }

  predicate Earlier(a: Option<real>, b: Option<real>) {
    a.Some? && (b.None? || a.value < b.value)
  }

  // ---- Real arithmetic, kept away from the walk -------------------------------

  lemma MulCancel(a: real, b: real, d: real)
    requires d > 0.0
    ensures d * a < d * b <==> a < b
    ensures d * a == d * b <==> a == b
  {
    if a < b {
      assert d * (b - a) > 0.0;
    } else if b < a {
      assert d * (a - b) > 0.0;
    }
  }

  lemma DivMul(a: real, d: real)
    requires d != 0.0
    ensures d * (a / d) == a
  {
  }

  /** Positions in cells are ordered like positions. */
  lemma PosOrder(a: Axis, s: real, t: real)
    requires a.cell > 0.0
    ensures a.Pos(s) < a.Pos(t) <==> a.At(s) < a.At(t)
  {
    DivMul(a.At(s) - a.lo, a.cell);
    DivMul(a.At(t) - a.lo, a.cell);
    MulCancel(a.Pos(s), a.Pos(t), a.cell);
  }

  lemma SignMul(d: real, x: real)
    ensures d > 0.0 ==> (d * x > 0.0 <==> x > 0.0)
    ensures d < 0.0 ==> (d * x > 0.0 <==> x < 0.0)
    ensures d == 0.0 ==> d * x == 0.0
  {
    if d > 0.0 {
      MulCancel(x, 0.0, d);
      MulCancel(0.0, x, d);
    } else if d < 0.0 {
      MulCancel(x, 0.0, -d);
      MulCancel(0.0, x, -d);
      assert -d * x == -(d * x);
    }
  }

  lemma AtOrder(a: Axis, s: real, t: real)
    ensures a.d > 0.0 ==> (a.At(s) < a.At(t) <==> s < t)
    ensures a.d < 0.0 ==> (a.At(s) < a.At(t) <==> t < s)
    ensures a.d == 0.0 ==> a.At(s) == a.At(t)
  {
    assert a.At(t) - a.At(s) == a.d * (t - s);
    SignMul(a.d, t - s);
  }

  lemma PosInGrid(a: Axis, s: real)
    requires a.Valid() && a.Inside(s)
    ensures 0.0 <= a.Pos(s) <= a.n as real
  {
    DivMul(a.At(s) - a.lo, a.cell);
    MulCancel(a.Pos(s), 0.0, a.cell);
    MulCancel(a.n as real, a.Pos(s), a.cell);
  }

  lemma AtReach(a: Axis, x: real)
    requires a.d != 0.0
    ensures a.At(a.Reach(x)) == x
  {
    DivMul(x - a.p, a.d);
  }

  lemma PosBorder(a: Axis, t: real, k: int)
    requires a.cell > 0.0 && a.At(t) == a.Border(k)
    ensures a.Pos(t) == k as real
  {
    DivMul(a.At(t) - a.lo, a.cell);
    MulCancel(a.Pos(t), k as real, a.cell);
  }

  /** At its exit parameter the segment is exactly on the border it leaves by. */
  lemma ExitOnBorder(a: Axis, c: int)
    requires a.cell > 0.0 && a.d != 0.0
    ensures a.Pos(a.Exit(c).value) == (c + if a.Step() > 0 then 1 else 0) as real
  {
    var k := c + if a.Step() > 0 then 1 else 0;
    AtReach(a, a.Border(k));
    PosBorder(a, a.Exit(c).value, k);
  }

  lemma BorderStep(a: Axis, k: int)
    ensures a.Border(k + 1) - a.Border(k) == a.cell
  {
  }

  lemma ReachDiff(a: Axis, x: real, y: real)
    requires a.d != 0.0
    ensures a.Reach(x) - a.Reach(y) == (x - y) / a.d
  {
    DivMul(x - a.p, a.d);
    DivMul(y - a.p, a.d);
    DivMul(x - y, a.d);
    assert a.d * (a.Reach(x) - a.Reach(y) - (x - y) / a.d) == 0.0;
  }

  lemma NegatedDivisor(x: real, d: real)
    requires d != 0.0
    ensures x / -d == (-x) / d
  {
    DivMul(x, -d);
    DivMul(-x, d);
    assert d * (x / -d - (-x) / d) == 0.0;
  }

  /** Adding one border distance moves the exit to the next column. */
  lemma ExitNext(a: Axis, c: int)
    requires a.cell > 0.0 && a.d != 0.0
    ensures Advance(a.Exit(c), a.Delta()) == a.Exit(c + a.Step())
  {
    var k := c + if a.Step() > 0 then 1 else 0;
    BorderStep(a, k);
    BorderStep(a, k - 1);
    ReachDiff(a, a.Border(k + a.Step()), a.Border(k));
    NegatedDivisor(a.cell, a.d);
    hide Axis.Border, Axis.Reach;
    assert k + a.Step() == (c + a.Step()) + if a.Step() > 0 then 1 else 0;
  }

  // ---- What the walk needs ----------------------------------------------------

  lemma CellOf(a: Axis, s: real)
    requires a.Valid() && a.Inside(s)
    ensures 0 <= a.Cell(s) < a.n
    ensures a.Cell(s) as real <= a.Pos(s)
    ensures a.Pos(s) < (a.Cell(s) + 1) as real || (a.Cell(s) == a.n - 1 && a.Pos(s) == a.n as real)
  {
    PosInGrid(a, s);
  }

  lemma CellMonotone(a: Axis, s: real, t: real)
    requires a.Valid() && a.Inside(s) && a.Inside(t) && s <= t
    ensures a.d >= 0.0 ==> a.Cell(s) <= a.Cell(t)
    ensures a.d <= 0.0 ==> a.Cell(s) >= a.Cell(t)
  {
    AtOrder(a, s, t);
    AtOrder(a, t, s);
    PosOrder(a, s, t);
    PosOrder(a, t, s);
  }

  /** Moving up: the segment is beyond column `c` from its exit on, the outer border of the grid apart. */
  lemma ExitUp(a: Axis, c: int, s: real)
    requires a.Valid() && a.Inside(s) && 0 <= c < a.n && a.d > 0.0
    ensures a.Cell(s) > c ==> a.Exit(c).value <= s
    ensures a.Exit(c).value < s ==> a.Cell(s) > c
    ensures a.Exit(c).value == s ==> a.Pos(s) == (c + 1) as real
    ensures a.Exit(c).value == s && c + 1 < a.n ==> a.Cell(s) == c + 1
  {
    var t := a.Exit(c).value;
    ExitOnBorder(a, c);
    CellOf(a, s);
    hide *;
    ExitUpOrder(a, t, s);
  }

  lemma ExitUpOrder(a: Axis, t: real, s: real)
    requires a.cell > 0.0 && a.d > 0.0
    ensures t < s <==> a.Pos(t) < a.Pos(s)
    ensures s < t <==> a.Pos(s) < a.Pos(t)
  {
    AtOrder(a, s, t);
    AtOrder(a, t, s);
    PosOrder(a, s, t);
    PosOrder(a, t, s);
  }

  /** Moving down: the segment is beyond column `c` strictly after its exit. */
  lemma ExitDown(a: Axis, c: int, s: real)
    requires a.Valid() && a.Inside(s) && 0 <= c < a.n && a.d < 0.0
    ensures a.Cell(s) < c <==> a.Exit(c).value < s
    ensures a.Exit(c).value == s ==> a.Pos(s) == c as real
  {
    var t := a.Exit(c).value;
    ExitOnBorder(a, c);
    CellOf(a, s);
    AtOrder(a, s, t);
    AtOrder(a, t, s);
    PosOrder(a, s, t);
    PosOrder(a, t, s);
  }

  /** Clipping keeps exactly the parameters inside the bounds. */
  lemma ClipExact(a: Axis, t0: real, t1: real, s: real)
    requires a.lo <= a.hi
    ensures a.Clip(t0, t1).None? ==> !a.Inside(s)
    ensures a.Clip(t0, t1).Some? ==>
              var (u0, u1) := a.Clip(t0, t1).value;
              u0 <= s <= u1 <==> t0 <= s <= t1 && a.Inside(s)
  {
    if a.d != 0.0 {
      var inv := 1.0 / a.d;
      var ta := (a.lo - a.p) * inv;
      var tb := (a.hi - a.p) * inv;
      assert inv * a.d == 1.0;
      Reciprocal(a.lo - a.p, inv, a.d);
      Reciprocal(a.hi - a.p, inv, a.d);
      BorderOrder(a, ta, a.lo, s);
      BorderOrder(a, tb, a.hi, s);
      AtOrder(a, tb, ta);
      AtOrder(a, ta, tb);
      hide Axis.At;
    }
  }

  /** With `t` the parameter of coordinate `x`, comparing coordinates is comparing parameters. */
  lemma BorderOrder(a: Axis, t: real, x: real, s: real)
    requires a.d != 0.0 && a.At(t) == x
    ensures a.d > 0.0 ==> (a.At(s) < x <==> s < t) && (x < a.At(s) <==> t < s)
    ensures a.d < 0.0 ==> (a.At(s) < x <==> t < s) && (x < a.At(s) <==> s < t)
  {
    AtOrder(a, s, t);
    AtOrder(a, t, s);
  }

  lemma Reciprocal(x: real, inv: real, d: real)
    requires inv * d == 1.0
    ensures d * (x * inv) == x
  {
    assert d * (x * inv) == x * (inv * d);
  }
}
