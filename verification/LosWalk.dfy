/** The grid walk of `SegmentBlocked`: which cells it visits, and what that finds. */
module LosWalk {
  import opened LosAxis

  type Cell = (int, int)

  /** A segment over the grid, clipped to parameters [t0, t1]. */
  datatype Ray = Ray(x: Axis, z: Axis, t0: real, t1: real) {

    /** What any accepted occluder gives: the walk is defined and stays in the grid. */
    predicate Walkable() { x.cell > 0.0 && z.cell > 0.0 && x.n >= 1 && z.n >= 1 }

    /** The grid reaches over the bounds, and [t0, t1] lies inside them. */
    ghost predicate Valid() {
      && x.Valid() && z.Valid() && t0 <= t1
      && (forall s :: t0 <= s <= t1 ==> x.Inside(s))
      && (forall s :: t0 <= s <= t1 ==> z.Inside(s))
    }

    ghost predicate Moves() { x.d != 0.0 || z.d != 0.0 }

    predicate InGrid(cx: int, cz: int) { 0 <= cx < x.n && 0 <= cz < z.n }

    function CellAt(s: real): Cell
      requires x.cell != 0.0 && z.cell != 0.0
    {
      (x.Cell(s), z.Cell(s))
    }

    /** How many columns and rows still lie ahead; every step uses up one. */
    function Remaining(cx: int, cz: int): nat
      requires InGrid(cx, cz)
    {
      Ahead(x, cx) + Ahead(z, cz)
    }

    static function Ahead(a: Axis, c: int): nat
      requires 0 <= c < a.n
    {
      if a.d > 0.0 then a.n - c else if a.d < 0.0 then c + 1 else 0
    }

    /** The cells the loop tests from (cx, cz) on when nothing blocks; a tie of exits steps Z. */
    ghost function Walk(cx: int, cz: int): seq<Cell>
      requires Walkable() && Moves() && InGrid(cx, cz)
      decreases Remaining(cx, cz)
    {
      [(cx, cz)] +
      if (cx, cz) == CellAt(t1) then []
      else if Earlier(x.Exit(cx), z.Exit(cz)) then
        if InGrid(cx + x.Step(), cz) then Walk(cx + x.Step(), cz) else []
      else
        if InGrid(cx, cz + z.Step()) then Walk(cx, cz + z.Step()) else []
    }

    /** Every cell tested for a segment that nothing blocks. */
    ghost function Trace(): seq<Cell>
      requires Walkable()
    {
      if Moves() then Walk(x.Cell(t0), z.Cell(t0)) else [CellAt(t0)]
    }

    /**
     * A point whose cell the walk steps around: an exact border of two columns, reached moving
     * up in X, where the row also changes by moving down, or the row has no upper neighbour.
     */
    ghost predicate Skips(s: real)
      requires x.cell != 0.0 && z.cell != 0.0
    {
      && t0 < s <= t1 && x.d > 0.0 && x.Pos(s) == x.Cell(s) as real
      && ( (z.d < 0.0 && z.Pos(s) == z.Cell(s) as real)
        || (z.d > 0.0 && z.Pos(s) == z.n as real))
    }

    /** The cell of `s` has not been passed on either axis. */
    ghost predicate NotPassed(a: Axis, c: int, s: real)
      requires a.cell != 0.0
    {
      && (a.d > 0.0 ==> c <= a.Cell(s))
      && (a.d < 0.0 ==> c >= a.Cell(s))
      && (a.d == 0.0 ==> c == a.Cell(s))
    }
  }

  /** Leaving column `c` first cannot leave the column of `s` behind: X steps. */
  lemma StepXKeeps(r: Ray, cx: int, cz: int, s: real)
    requires r.Valid() && r.InGrid(cx, cz) && r.t0 <= s <= r.t1
    requires r.NotPassed(r.x, cx, s) && r.NotPassed(r.z, cz, s)
    requires (cx, cz) != r.CellAt(s)
    requires Earlier(r.x.Exit(cx), r.z.Exit(cz))
    ensures cx != r.x.Cell(s)
    ensures r.InGrid(cx + r.x.Step(), cz) && r.NotPassed(r.x, cx + r.x.Step(), s)
    ensures r.Remaining(cx + r.x.Step(), cz) == r.Remaining(cx, cz) - 1
  {
    if r.x.d > 0.0 { ExitUp(r.x, cx, s); } else { ExitDown(r.x, cx, s); }
    if r.z.d > 0.0 { ExitUp(r.z, cz, s); } else if r.z.d < 0.0 { ExitDown(r.z, cz, s); }
    CellOf(r.x, s);
    CellOf(r.z, s);
    hide Axis.Exit, Axis.Pos, Axis.Cell;
  }

  /** At the end cell nothing not yet passed is left. */
  lemma EndIsLast(r: Ray, cx: int, cz: int, s: real)
    requires r.Valid() && r.t0 <= s <= r.t1
    requires r.NotPassed(r.x, cx, s) && r.NotPassed(r.z, cz, s)
    requires (cx, cz) == r.CellAt(r.t1)
    ensures (cx, cz) == r.CellAt(s)
  {
    CellMonotone(r.x, s, r.t1);
    CellMonotone(r.z, s, r.t1);
  }

  lemma StepZKeeps(r: Ray, cx: int, cz: int, s: real)
    requires r.Valid() && r.Moves() && r.InGrid(cx, cz) && r.t0 <= s <= r.t1
    requires r.NotPassed(r.x, cx, s) && r.NotPassed(r.z, cz, s) && r.NotPassed(r.x, r.x.Cell(r.t0), r.t0)
    requires r.x.d > 0.0 ==> r.x.Cell(r.t0) <= cx
    requires (cx, cz) != r.CellAt(s)
    requires !Earlier(r.x.Exit(cx), r.z.Exit(cz))
    requires !r.Skips(s)
    ensures cz != r.z.Cell(s)
    ensures r.InGrid(cx, cz + r.z.Step()) && r.NotPassed(r.z, cz + r.z.Step(), s)
    ensures r.Remaining(cx, cz + r.z.Step()) == r.Remaining(cx, cz) - 1
  {
    if r.x.d > 0.0 { ExitUp(r.x, cx, s); } else if r.x.d < 0.0 { ExitDown(r.x, cx, s); }
    if r.z.d > 0.0 { ExitUp(r.z, cz, s); } else if r.z.d < 0.0 { ExitDown(r.z, cz, s); }
    CellOf(r.x, s);
    CellOf(r.z, s);
    CellOf(r.x, r.t0);
    hide Axis.Cell;
  }

  /** From any state of the walk, the cell of `s` is still visited unless `s` is skipped. */
  lemma {:induction false} WalkCovers(r: Ray, cx: int, cz: int, s: real)
    requires r.Valid() && r.Moves() && r.InGrid(cx, cz) && r.t0 <= s <= r.t1
    requires r.NotPassed(r.x, cx, s) && r.NotPassed(r.z, cz, s)
    requires r.x.d > 0.0 ==> r.x.Cell(r.t0) <= cx
    requires !r.Skips(s)
    ensures r.CellAt(s) in r.Walk(cx, cz)
    decreases r.Remaining(cx, cz)
  {
    hide Axis.Cell, Axis.Pos, Axis.Exit, Ray.Skips, Earlier, Ray.Remaining;
    if (cx, cz) == r.CellAt(s) {
    } else if (cx, cz) == r.CellAt(r.t1) {
      EndIsLast(r, cx, cz, s);
    } else if Earlier(r.x.Exit(cx), r.z.Exit(cz)) {
      StepXKeeps(r, cx, cz, s);
      WalkCovers(r, cx + r.x.Step(), cz, s);
    } else {
      StepZKeeps(r, cx, cz, s);
      WalkCovers(r, cx, cz + r.z.Step(), s);
    }
  }

  /** Rows only decrease when the segment moves down in Z. */
  lemma {:induction false} WalkRowsFall(r: Ray, cx: int, cz: int, c: Cell)
    requires r.Valid() && r.Moves() && r.InGrid(cx, cz) && r.z.d < 0.0 && cz < c.1
    ensures c !in r.Walk(cx, cz)
    decreases r.Remaining(cx, cz)
  {
    if (cx, cz) == r.CellAt(r.t1) {
    } else if Earlier(r.x.Exit(cx), r.z.Exit(cz)) {
      if r.InGrid(cx + r.x.Step(), cz) { WalkRowsFall(r, cx + r.x.Step(), cz, c); }
    } else {
      if r.InGrid(cx, cz + r.z.Step()) { WalkRowsFall(r, cx, cz + r.z.Step(), c); }
    }
  }

  /** While the column of a skipped point is next, its row is left first. */
  lemma SkipLeavesRowFirst(r: Ray, cx: int, cz: int, s: real)
    requires r.Valid() && r.InGrid(cx, cz) && r.t0 <= s <= r.t1 && r.Skips(s)
    requires cx + 1 == r.x.Cell(s) && (r.z.d < 0.0 ==> r.z.Cell(s) <= cz)
    ensures !Earlier(r.x.Exit(cx), r.z.Exit(cz))
  {
    ExitOnBorder(r.x, cx);
    ExitOnBorder(r.z, cz);
    var tx, tz := r.x.Exit(cx).value, r.z.Exit(cz).value;
    PosSame(r.x, tx, s);
    PosOrder(r.z, s, tz);
    AtOrder(r.z, s, tz);
    PosOrder(r.z, tz, s);
    AtOrder(r.z, tz, s);
  }

  lemma PosSame(a: Axis, s: real, t: real)
    requires a.cell > 0.0 && a.d != 0.0 && a.Pos(s) == a.Pos(t)
    ensures s == t
  {
    PosOrder(a, s, t);
    PosOrder(a, t, s);
    AtOrder(a, s, t);
    AtOrder(a, t, s);
  }

  lemma {:induction false} WalkMisses(r: Ray, cx: int, cz: int, s: real)
    requires r.Valid() && r.Moves() && r.InGrid(cx, cz) && r.t0 <= s <= r.t1 && r.Skips(s)
    requires cx < r.x.Cell(s) && (r.z.d < 0.0 ==> r.z.Cell(s) <= cz)
    ensures r.CellAt(s) !in r.Walk(cx, cz)
    decreases r.Remaining(cx, cz)
  {
    if (cx, cz) == r.CellAt(r.t1) {
    } else if Earlier(r.x.Exit(cx), r.z.Exit(cz)) {
      if cx + 1 == r.x.Cell(s) { SkipLeavesRowFirst(r, cx, cz, s); }
      if r.InGrid(cx + 1, cz) { WalkMisses(r, cx + 1, cz, s); }
    } else if r.InGrid(cx, cz + r.z.Step()) {
      if r.z.d < 0.0 && cz == r.z.Cell(s) {
        WalkRowsFall(r, cx, cz - 1, r.CellAt(s));
      } else {
        WalkMisses(r, cx, cz + r.z.Step(), s);
      }
    }
  }

  /** The walk visits the cell of an in-bounds point exactly when the point is not skipped. */
  lemma TraceVisitsIff(r: Ray, s: real)
    requires r.Valid() && r.t0 <= s <= r.t1
    ensures r.CellAt(s) in r.Trace() <==> !r.Skips(s)
  {
    CellOf(r.x, r.t0);
    CellOf(r.z, r.t0);
    if !r.Moves() {
      AtOrder(r.x, r.t0, s);
      AtOrder(r.z, r.t0, s);
    } else if r.Skips(s) {
      PosOrder(r.x, r.t0, s);
      AtOrder(r.x, r.t0, s);
      CellMonotone(r.z, r.t0, s);
      WalkMisses(r, r.x.Cell(r.t0), r.z.Cell(r.t0), s);
    } else {
      CellMonotone(r.x, r.t0, s);
      CellMonotone(r.z, r.t0, s);
      WalkCovers(r, r.x.Cell(r.t0), r.z.Cell(r.t0), s);
    }
  }

  /** So the walk misses no in-bounds point exactly when it meets no corner it steps around. */
  lemma TraceCompleteIff(r: Ray)
    requires r.Valid()
    ensures (forall s :: r.t0 <= s <= r.t1 ==> r.CellAt(s) in r.Trace())
            <==> (forall s :: r.t0 <= s <= r.t1 ==> !r.Skips(s))
  {
    forall s | r.t0 <= s <= r.t1
      ensures r.CellAt(s) in r.Trace() <==> !r.Skips(s)
    {
      TraceVisitsIff(r, s);
    }
  }
}
