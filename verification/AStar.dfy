/** The path search of `internal/ai/pathfinding.go`. */
module AStar {
  import opened Basics

  datatype Waypoint = Waypoint(x: real, y: real, z: real)

  type PointKey = (int, int, int)

  const SCALE: real := 1000.0
  const MAX_ITERATIONS: int := 5000

  function KeyOf(w: Waypoint): PointKey {
    (Round(w.x * SCALE), Round(w.y * SCALE), Round(w.z * SCALE))
  }

  /** `dist` stands for the Euclidean `heuristic`, which is also the edge cost. */
  datatype Graph = Graph(next: Waypoint -> seq<Waypoint>, dist: (Waypoint, Waypoint) -> real)
  {
    ghost predicate Metric() {
      && (forall a, b :: dist(a, b) >= 0.0)
      && (forall a :: dist(a, a) == 0.0)
      && (forall a, b :: dist(a, b) == 0.0 ==> a == b)
      && (forall a, b, c :: dist(a, c) <= dist(a, b) + dist(b, c))
    }

    ghost predicate IsPath(p: seq<Waypoint>) {
      |p| >= 1 && forall i :: 0 <= i < |p| - 1 ==> p[i + 1] in next(p[i])
    }

    ghost function Cost(p: seq<Waypoint>): real {
      if |p| <= 1 then 0.0 else Cost(p[..|p| - 1]) + dist(p[|p| - 2], p[|p| - 1])
    }

    ghost predicate PathTo(p: seq<Waypoint>, start: Waypoint, w: Waypoint) {
      IsPath(p) && p[0] == start && p[|p| - 1] == w
    }

    ghost predicate Reach(start: Waypoint, w: Waypoint) {
      exists p :: PathTo(p, start, w)
    }

    /** No two waypoints that the search can meet round to one key. */
    ghost predicate Separate(start: Waypoint) {
      forall a, b :: Reach(start, a) && Reach(start, b) && KeyOf(a) == KeyOf(b) ==> a == b
    }
  }

  // ---- What a key tells ---------------------------------------------------------------

  /** No more than a millimetre apart on any axis. */
  predicate Close(a: Waypoint, b: Waypoint) {
    -0.001 <= a.x - b.x <= 0.001 && -0.001 <= a.y - b.y <= 0.001 && -0.001 <= a.z - b.z <= 0.001
  }

  /** Waypoints of one key are close, on all three axes. */
  lemma SameKeyIsClose(a: Waypoint, b: Waypoint)
    requires KeyOf(a) == KeyOf(b)
    ensures Close(a, b)
  {
    RoundNear(a.x * SCALE);
    RoundNear(b.x * SCALE);
    RoundNear(a.y * SCALE);
    RoundNear(b.y * SCALE);
    RoundNear(a.z * SCALE);
    RoundNear(b.z * SCALE);
    hide Round;
  }

  /** A whole millimetre apart on one axis, and no further, waypoints have keys one apart there. */
  lemma NextKey(a: Waypoint, i: int, j: int, k: int)
    requires a == Waypoint(i as real / 1000.0, j as real / 1000.0, k as real / 1000.0)
    ensures KeyOf(a) == (i, j, k)
  {
    assert i as real / 1000.0 * SCALE == i as real && j as real / 1000.0 * SCALE == j as real;
    assert k as real / 1000.0 * SCALE == k as real;
  }

  /** Where reachable waypoints are further apart than that, the search tells them all apart. */
  lemma ApartIsSeparate(gr: Graph, start: Waypoint)
    requires forall a, b :: gr.Reach(start, a) && gr.Reach(start, b) && a != b ==> !Close(a, b)
    ensures gr.Separate(start)
  {
    hide KeyOf, Graph.Reach, Close;
    forall a, b | gr.Reach(start, a) && gr.Reach(start, b) && KeyOf(a) == KeyOf(b)
      ensures a == b
    {
      SameKeyIsClose(a, b);
    }
  }

  // ---- The metric -----------------------------------------------------------------------

  lemma NonNegative(gr: Graph, a: Waypoint, b: Waypoint)
    requires gr.Metric()
    ensures gr.dist(a, b) >= 0.0 && (gr.dist(a, b) == 0.0 ==> a == b)
  {
  }

  lemma Triangle(gr: Graph, a: Waypoint, b: Waypoint, c: Waypoint)
    requires gr.Metric()
    ensures gr.dist(a, c) <= gr.dist(a, b) + gr.dist(b, c)
  {
  }

  lemma OnePerKey(gr: Graph, start: Waypoint, a: Waypoint, b: Waypoint)
    requires gr.Separate(start) && gr.Reach(start, a) && gr.Reach(start, b) && KeyOf(a) == KeyOf(b)
    ensures a == b
  {
  }

  lemma ReachStart(gr: Graph, start: Waypoint)
    ensures gr.Reach(start, start)
  {
    assert gr.PathTo([start], start, start);
  }

  lemma ReachStep(gr: Graph, start: Waypoint, w: Waypoint, n: Waypoint)
    requires gr.Reach(start, w) && n in gr.next(w)
    ensures gr.Reach(start, n)
  {
    var p :| gr.PathTo(p, start, w);
    assert gr.PathTo(p + [n], start, n);
  }

  // ---- The queue ---------------------------------------------------------------------

  datatype Item = Item(value: Waypoint, priority: real)

  /** Takes out some item of least priority, as the heap does. */
  method PopMin(pq: seq<Item>) returns (item: Item, rest: seq<Item>)
    requires pq != []
    ensures item in pq && forall it :: it in pq ==> item.priority <= it.priority
    ensures forall it :: it in rest ==> it in pq
    ensures forall it :: it in pq && it != item ==> it in rest
    ensures |rest| == |pq| - 1
  {
    var best := 0;
    for i := 1 to |pq|
      invariant 0 <= best < |pq|
      invariant forall j :: 0 <= j < i ==> pq[best].priority <= pq[j].priority
    {
      if pq[i].priority < pq[best].priority {
        best := i;
      }
    }
    item := pq[best];
    rest := pq[..best] + pq[best + 1..];
    forall it | it in pq && it != item
      ensures it in rest
    {
      var j :| 0 <= j < |pq| && pq[j] == it;
      assert rest[if j < best then j else j - 1] == it;
    }
  }

  // ---- What the tables mean -------------------------------------------------------------

  /** The `cameFrom`, `waypointMap` and `gScore` maps. */
  datatype Tables = Tables(cameFrom: map<PointKey, Waypoint>, at: map<PointKey, Waypoint>, g: map<PointKey, real>)
  {
    function Parent(k: PointKey): PointKey
      requires k in cameFrom
    {
      KeyOf(cameFrom[k])
    }

    /** The entry of a key other than the start: its parent has a neighbour there, at no higher score. */
    ghost predicate Linked(gr: Graph, start: Waypoint, k: PointKey)
      requires k in g && k in at && k in cameFrom
    {
      && gr.Reach(start, cameFrom[k]) && at[k] in gr.next(cameFrom[k])
      && Parent(k) != k && Parent(k) in g
      && g[Parent(k)] + gr.dist(cameFrom[k], at[k]) <= g[k]
    }

    ghost predicate Valid(gr: Graph, start: Waypoint) {
      && cameFrom.Keys == at.Keys == g.Keys
      && KeyOf(start) in g && g[KeyOf(start)] == 0.0 && at[KeyOf(start)] == start
      && (forall k :: k in g ==> g[k] >= 0.0 && KeyOf(at[k]) == k && gr.Reach(start, at[k]))
      && (forall k :: k in g && k != KeyOf(start) ==> Linked(gr, start, k))
    }

    /** The neighbours of `k` are all scored through `k` or better. */
    ghost predicate Closed(gr: Graph, k: PointKey)
      requires k in g && k in at
    {
      forall n :: n in gr.next(at[k]) ==> Relaxed(gr, k, n)
    }

    ghost predicate Relaxed(gr: Graph, k: PointKey, n: Waypoint)
      requires k in g && k in at
    {
      KeyOf(n) in g && g[KeyOf(n)] <= g[k] + gr.dist(at[k], n)
    }

    /** The current score of `k` waits in the queue. */
    ghost predicate Open(gr: Graph, goal: Waypoint, pq: seq<Item>, k: PointKey)
      requires k in g && k in at
    {
      exists it :: it in pq && it.value == at[k] && it.priority <= g[k] + gr.dist(at[k], goal)
    }

    /** Every scored key waits or is expanded; `busy` is the one being expanded. */
    ghost predicate Frontier(gr: Graph, goal: Waypoint, pq: seq<Item>, busy: Option<PointKey>)
      requires at.Keys == g.Keys
    {
      forall k :: k in g && Some(k) != busy ==> Open(gr, goal, pq, k) || Closed(gr, k)
    }

    /** Queued entries are reachable and no better than the current score of their key. */
    ghost predicate Queued(gr: Graph, start: Waypoint, goal: Waypoint, pq: seq<Item>) {
      forall it :: it in pq ==>
        && gr.Reach(start, it.value) && KeyOf(it.value) in g
        && (KeyOf(it.value) == KeyOf(start) || g[KeyOf(it.value)] + gr.dist(it.value, goal) <= it.priority)
    }

    /** A scored goal stays queued until it is taken out. */
    ghost predicate GoalWaits(goal: Waypoint, pq: seq<Item>) {
      KeyOf(goal) in g ==> exists it :: it in pq && KeyOf(it.value) == KeyOf(goal)
    }

    /** `Frontier` is kept when keys stand for single waypoints. */
    ghost predicate Searching(gr: Graph, start: Waypoint, goal: Waypoint, pq: seq<Item>, busy: Option<PointKey>) {
      && Valid(gr, start) && Queued(gr, start, goal, pq)
      && (gr.Separate(start) ==> Frontier(gr, goal, pq, busy))
    }

    function Update(k: PointKey, current: Waypoint, next: Waypoint, score: real): Tables {
      Tables(cameFrom[k := current], at[k := next], g[k := score])
    }
  }

  // ---- One improvement ---------------------------------------------------------------------

  ghost predicate Improves(gr: Graph, t: Tables, current: Waypoint, next: Waypoint)
    requires KeyOf(current) in t.g
  {
    KeyOf(next) !in t.g || t.g[KeyOf(current)] + gr.dist(current, next) < t.g[KeyOf(next)]
  }

  ghost function Improved(gr: Graph, t: Tables, current: Waypoint, next: Waypoint): Tables
    requires KeyOf(current) in t.g
  {
    t.Update(KeyOf(next), current, next, t.g[KeyOf(current)] + gr.dist(current, next))
  }

  lemma ImproveValid(gr: Graph, start: Waypoint, t: Tables, current: Waypoint, next: Waypoint)
    requires gr.Metric() && t.Valid(gr, start) && KeyOf(current) in t.g && Improves(gr, t, current, next)
    requires gr.Reach(start, current) && next in gr.next(current)
    ensures Improved(gr, t, current, next).Valid(gr, start)
    ensures KeyOf(next) != KeyOf(current) && KeyOf(next) != KeyOf(start)
  {
    hide KeyOf, Graph.Metric, Graph.Reach, Graph.Separate;
    var t' := Improved(gr, t, current, next);
    ReachStep(gr, start, current, next);
    NonNegative(gr, current, next);
    forall k | k in t'.g && k != KeyOf(start)
      ensures t'.Linked(gr, start, k)
    {
      if k != KeyOf(next) {
        assert t.Linked(gr, start, k);
      }
    }
  }

  /** The improved entry waits; every other entry waits or is expanded as before. */
  lemma ImproveFrontier(gr: Graph, goal: Waypoint, t: Tables, pq: seq<Item>, busy: Option<PointKey>, current: Waypoint,
      next: Waypoint)
    requires t.at.Keys == t.g.Keys && KeyOf(current) in t.g && Improves(gr, t, current, next)
    requires t.Frontier(gr, goal, pq, busy)
    ensures var t' := Improved(gr, t, current, next);
            t'.Frontier(gr, goal, pq + [Item(next, t'.g[KeyOf(next)] + gr.dist(next, goal))], busy)
  {
    hide KeyOf, Graph.Reach;
    var t' := Improved(gr, t, current, next);
    var item := Item(next, t'.g[KeyOf(next)] + gr.dist(next, goal));
    var pq' := pq + [item];
    forall k | k in t'.g && Some(k) != busy
      ensures t'.Open(gr, goal, pq', k) || t'.Closed(gr, k)
    {
      if k == KeyOf(next) {
        assert item in pq';
      } else if t.Open(gr, goal, pq, k) {
        var it :| it in pq && it.value == t.at[k] && it.priority <= t.g[k] + gr.dist(t.at[k], goal);
        assert it in pq';
      } else {
        ImproveClosed(gr, t, current, next, k);
      }
    }
  }

  lemma ImproveClosed(gr: Graph, t: Tables, current: Waypoint, next: Waypoint, k: PointKey)
    requires t.at.Keys == t.g.Keys && KeyOf(current) in t.g && Improves(gr, t, current, next)
    requires k in t.g && k != KeyOf(next) && t.Closed(gr, k)
    ensures Improved(gr, t, current, next).Closed(gr, k)
  {
    hide KeyOf, Graph.Reach;
    var t' := Improved(gr, t, current, next);
    forall n | n in gr.next(t'.at[k])
      ensures t'.Relaxed(gr, k, n)
    {
      assert t.Relaxed(gr, k, n);
    }
  }

  lemma ImproveQueued(gr: Graph, start: Waypoint, goal: Waypoint, t: Tables, pq: seq<Item>, current: Waypoint,
      next: Waypoint)
    requires KeyOf(current) in t.g && Improves(gr, t, current, next)
    requires t.Queued(gr, start, goal, pq) && gr.Reach(start, next) && t.GoalWaits(goal, pq) 
    ensures var t' := Improved(gr, t, current, next);
            var pq' := pq + [Item(next, t'.g[KeyOf(next)] + gr.dist(next, goal))];
            t'.Queued(gr, start, goal, pq') && t'.GoalWaits(goal, pq')
  {
    hide KeyOf, Graph.Reach;
    var t' := Improved(gr, t, current, next);
    var item := Item(next, t'.g[KeyOf(next)] + gr.dist(next, goal));
    var pq' := pq + [item];
    assert item in pq';
    if KeyOf(goal) in t.g {
      var it :| it in pq && KeyOf(it.value) == KeyOf(goal);
      assert it in pq';
    }
  }

  // ---- Taking an item out ---------------------------------------------------------------------

  /** Under separation, only the popped key itself stops waiting. */
  lemma PopFrontier(gr: Graph, start: Waypoint, goal: Waypoint, t: Tables, pq: seq<Item>, rest: seq<Item>, item: Item)
    requires gr.Separate(start) && t.Valid(gr, start) && t.Queued(gr, start, goal, pq) && item in pq
    requires forall it :: it in pq && it != item ==> it in rest
    requires t.Frontier(gr, goal, pq, None)
    ensures t.at[KeyOf(item.value)] == item.value
    ensures t.Frontier(gr, goal, rest, Some(KeyOf(item.value)))
  {
    hide KeyOf, Graph.Metric, Graph.Reach, Graph.Separate;
    var key := KeyOf(item.value);
    OnePerKey(gr, start, t.at[key], item.value);
    forall k | k in t.g && k != key
      ensures t.Open(gr, goal, rest, k) || t.Closed(gr, k)
    {
      if t.Open(gr, goal, pq, k) {
        var it :| it in pq && it.value == t.at[k] && it.priority <= t.g[k] + gr.dist(t.at[k], goal);
        assert it in rest;
      }
    }
  }

  // ---- Optimality -------------------------------------------------------------------------------

  /** Along a path the cost is at least the drop of the distance to the goal. */
  lemma {:induction false} CostBoundsHeuristic(gr: Graph, goal: Waypoint, p: seq<Waypoint>, j: nat)
    requires gr.Metric() && j < |p|
    ensures gr.Cost(p[..j + 1]) + gr.dist(p[j], goal) <= gr.Cost(p) + gr.dist(p[|p| - 1], goal)
    decreases |p|
  {
    hide Graph.Metric;
    if j + 1 == |p| {
      assert p[..j + 1] == p;
    } else {
      var q := p[..|p| - 1];
      CostBoundsHeuristic(gr, goal, q, j);
      assert q[..j + 1] == p[..j + 1];
      var a, b := p[|p| - 2], p[|p| - 1];
      Triangle(gr, a, b, goal);
    }
  }

  lemma PathPrefix(gr: Graph, p: seq<Waypoint>, start: Waypoint, j: nat)
    requires gr.IsPath(p) && p[0] == start && j < |p|
    ensures gr.Reach(start, p[j])
  {
    assert gr.PathTo(p[..j + 1], start, p[j]);
  }

  /** On any path from the start, either some point waits no dearer than the path, or the end is scored no dearer. */
  lemma {:induction false} Follow(gr: Graph, start: Waypoint, goal: Waypoint, t: Tables, pq: seq<Item>,
      p: seq<Waypoint>, j: nat)
    returns (i: nat, open: bool)
    requires gr.Metric() && gr.Separate(start) && t.Valid(gr, start) && t.Frontier(gr, goal, pq, None)
    requires gr.IsPath(p) && p[0] == start && j < |p|
    requires KeyOf(p[j]) in t.g && t.g[KeyOf(p[j])] <= gr.Cost(p[..j + 1])
    ensures i < |p| && KeyOf(p[i]) in t.g && t.at[KeyOf(p[i])] == p[i] && t.g[KeyOf(p[i])] <= gr.Cost(p[..i + 1])
    ensures if open then t.Open(gr, goal, pq, KeyOf(p[i])) else i == |p| - 1
    decreases |p| - j
  {
    hide KeyOf, Graph.Metric, Graph.Reach, Graph.Separate;
    var k := KeyOf(p[j]);
    PathPrefix(gr, p, start, j);
    OnePerKey(gr, start, t.at[k], p[j]);
    if t.Open(gr, goal, pq, k) {
      return j, true;
    }
    if j == |p| - 1 {
      return j, false;
    }
    assert p[j + 1] in gr.next(t.at[k]);
    assert t.Relaxed(gr, k, p[j + 1]);
    assert p[..j + 2][..j + 1] == p[..j + 1];
    i, open := Follow(gr, start, goal, t, pq, p, j + 1);
  }

  lemma FollowFromStart(gr: Graph, start: Waypoint, goal: Waypoint, t: Tables, pq: seq<Item>, p: seq<Waypoint>)
    returns (i: nat, open: bool)
    requires gr.Metric() && gr.Separate(start) && t.Valid(gr, start) && t.Frontier(gr, goal, pq, None)
    requires gr.IsPath(p) && p[0] == start
    ensures i < |p| && KeyOf(p[i]) in t.g && t.at[KeyOf(p[i])] == p[i] && t.g[KeyOf(p[i])] <= gr.Cost(p[..i + 1])
    ensures if open then t.Open(gr, goal, pq, KeyOf(p[i])) else i == |p| - 1
  {
    hide KeyOf, Graph.Metric, Graph.Reach, Graph.Separate;
    assert gr.Cost(p[..1]) == 0.0;
    i, open := Follow(gr, start, goal, t, pq, p, 0);
  }

  /** A least item of the queue is for a waypoint whose score is the least cost of any path to it. */
  lemma PopOptimal(gr: Graph, start: Waypoint, goal: Waypoint, t: Tables, pq: seq<Item>, item: Item, p: seq<Waypoint>)
    requires gr.Metric() && gr.Separate(start) && t.Searching(gr, start, goal, pq, None)
    requires item in pq && forall it :: it in pq ==> item.priority <= it.priority
    requires gr.PathTo(p, start, item.value)
    ensures KeyOf(item.value) in t.g && t.g[KeyOf(item.value)] <= gr.Cost(p)
  {
    hide KeyOf, Graph.Metric, Graph.Reach, Graph.Separate;
    CostNonNeg(gr, p);
    if KeyOf(item.value) != KeyOf(start) {
      var i, open := FollowFromStart(gr, start, goal, t, pq, p);
      if open {
        var it :| it in pq && it.value == p[i] && it.priority <= t.g[KeyOf(p[i])] + gr.dist(p[i], goal);
        CostBoundsHeuristic(gr, goal, p, i);
      } else {
        assert p[..|p|] == p;
      }
    }
  }

  /** So when the goal is taken out, no path to it is cheaper than its score. */
  lemma GoalOptimal(gr: Graph, start: Waypoint, goal: Waypoint, t: Tables, pq: seq<Item>, item: Item, p: seq<Waypoint>)
    requires gr.Metric() && gr.Separate(start) && t.Searching(gr, start, goal, pq, None)
    requires item in pq && KeyOf(item.value) == KeyOf(goal) && forall it :: it in pq ==> item.priority <= it.priority
    requires gr.IsPath(p) && p[0] == start && KeyOf(p[|p| - 1]) == KeyOf(goal)
    ensures KeyOf(goal) in t.g && t.g[KeyOf(goal)] <= gr.Cost(p)
  {
    hide KeyOf, Graph.Metric, Graph.Reach, Graph.Separate;
    PathPrefix(gr, p, start, |p| - 1);
    OnePerKey(gr, start, p[|p| - 1], item.value);
    PopOptimal(gr, start, goal, t, pq, item, p);
  }

  lemma {:induction false} CostNonNeg(gr: Graph, p: seq<Waypoint>)
    requires gr.Metric()
    ensures gr.Cost(p) >= 0.0
  {
    hide Graph.Metric;
    if |p| > 1 {
      CostNonNeg(gr, p[..|p| - 1]);
      NonNegative(gr, p[|p| - 2], p[|p| - 1]);
    }
  }

  /** With nothing left in the queue, every reachable waypoint has been scored. */
  lemma ExhaustedScoresAll(gr: Graph, start: Waypoint, goal: Waypoint, t: Tables, p: seq<Waypoint>)
    requires gr.Metric() && gr.Separate(start) && t.Searching(gr, start, goal, [], None)
    requires gr.IsPath(p) && p[0] == start
    ensures KeyOf(p[|p| - 1]) in t.g
  {
    hide KeyOf, Graph.Metric, Graph.Reach, Graph.Separate;
    var i, open := FollowFromStart(gr, start, goal, t, [], p);
  }

  // ---- The chain of parents ------------------------------------------------------------------------

  /** The keys that score strictly better than `k`. */
  ghost function Better(t: Tables, k: PointKey): set<PointKey>
    requires k in t.g
  {
    set k' | k' in t.g && t.g[k'] < t.g[k]
  }

  lemma ParentBetter(gr: Graph, start: Waypoint, t: Tables, k: PointKey)
    requires gr.Metric() && t.Valid(gr, start) && k in t.g && k != KeyOf(start)
    ensures t.Parent(k) in t.g && t.g[t.Parent(k)] < t.g[k]
    ensures Better(t, t.Parent(k)) < Better(t, k)
  {
    hide KeyOf, Graph.Metric, Graph.Reach, Graph.Separate;
    assert t.Linked(gr, start, k);
    NonNegative(gr, t.cameFrom[k], t.at[k]);
    assert t.Parent(k) in Better(t, k) && t.Parent(k) !in Better(t, t.Parent(k));
  }

  /** The waypoints from the start to `k`, following parents backwards. */
  ghost function Chain(gr: Graph, start: Waypoint, t: Tables, k: PointKey): seq<Waypoint>
    requires gr.Metric() && t.Valid(gr, start) && k in t.g
    decreases Better(t, k)
  {
    if k == KeyOf(start) then [start]
    else ParentBetter(gr, start, t, k); Chain(gr, start, t, t.Parent(k)) + [t.at[k]]
  }

  /** The chain starts at the start and ends at the key, with scores strictly rising. */
  lemma {:induction false} ChainEnds(gr: Graph, start: Waypoint, t: Tables, k: PointKey)
    requires gr.Metric() && t.Valid(gr, start) && k in t.g
    ensures var c := Chain(gr, start, t, k);
            && |c| >= 1 && c[0] == start && c[|c| - 1] == t.at[k]
            && (forall i :: 0 <= i < |c| ==> KeyOf(c[i]) in t.g && t.g[KeyOf(c[i])] <= t.g[k])
            && (forall i, j :: 0 <= i < j < |c| ==> t.g[KeyOf(c[i])] < t.g[KeyOf(c[j])])
    decreases Better(t, k)
  {
    hide KeyOf, Graph.Metric, Graph.Reach, Graph.Separate;
    if k != KeyOf(start) {
      ParentBetter(gr, start, t, k);
      ChainEnds(gr, start, t, t.Parent(k));
    }
  }

  /** Under separation the chain is a path of the graph, no dearer than the score. */
  lemma {:induction false} ChainIsPath(gr: Graph, start: Waypoint, t: Tables, k: PointKey)
    requires gr.Metric() && gr.Separate(start) && t.Valid(gr, start) && k in t.g
    ensures var c := Chain(gr, start, t, k);
            gr.IsPath(c) && c[|c| - 1] == t.at[k] && gr.Cost(c) <= t.g[k]
    decreases Better(t, k)
  {
    hide KeyOf, Graph.Metric, Graph.Reach, Graph.Separate;
    if k != KeyOf(start) {
      ParentBetter(gr, start, t, k);
      var c := Chain(gr, start, t, t.Parent(k));
      ChainIsPath(gr, start, t, t.Parent(k));
      assert t.Linked(gr, start, k);
      OnePerKey(gr, start, t.at[t.Parent(k)], t.cameFrom[k]);
      assert (c + [t.at[k]])[..|c|] == c;
    }
  }

  // ---- Expanded waypoints ------------------------------------------------------------------------------

  /** No path to `w` is cheaper than its score. */
  ghost predicate Best(gr: Graph, start: Waypoint, t: Tables, w: Waypoint)
    requires KeyOf(w) in t.g
  {
    forall p :: gr.PathTo(p, start, w) ==> t.g[KeyOf(w)] <= gr.Cost(p)
  }

  /** `w` has its final score, and so have, or better, its neighbours through it. */
  ghost predicate Settled(gr: Graph, start: Waypoint, t: Tables, w: Waypoint) {
    && gr.Reach(start, w) && KeyOf(w) in t.g && KeyOf(w) in t.at && t.at[KeyOf(w)] == w
    && Best(gr, start, t, w) && t.Closed(gr, KeyOf(w))
  }

  /** A better score for a waypoint would be a cheaper path to it. */
  lemma BestNotImproved(gr: Graph, start: Waypoint, t: Tables, current: Waypoint, next: Waypoint)
    requires gr.Metric() && gr.Separate(start) && t.Valid(gr, start)
    requires KeyOf(current) in t.g && t.at[KeyOf(current)] == current && next in gr.next(current)
    requires KeyOf(next) in t.g && Best(gr, start, t, next)
    ensures !Improves(gr, t, current, next)
  {
    hide KeyOf, Graph.Metric, Graph.Reach, Graph.Separate, Chain, Tables.Valid;
    var k := KeyOf(current);
    var c := Chain(gr, start, t, k);
    ChainIsPath(gr, start, t, k);
    ChainEnds(gr, start, t, k);
    var p := c + [next];
    assert p[..|p| - 1] == c;
    assert gr.PathTo(p, start, next);
  }

  lemma SettledStays(gr: Graph, start: Waypoint, t: Tables, current: Waypoint, next: Waypoint, w: Waypoint)
    requires gr.Metric() && gr.Separate(start) && t.Valid(gr, start) && gr.Reach(start, current)
    requires KeyOf(current) in t.g && t.at[KeyOf(current)] == current && next in gr.next(current)
    requires Improves(gr, t, current, next) && Settled(gr, start, t, w)
    ensures Settled(gr, start, Improved(gr, t, current, next), w)
  {
    hide KeyOf, Graph.Metric, Graph.Reach, Graph.Separate;
    ReachStep(gr, start, current, next);
    if KeyOf(next) == KeyOf(w) {
      OnePerKey(gr, start, next, w);
      BestNotImproved(gr, start, t, current, next);
    }
    ImproveClosed(gr, t, current, next, KeyOf(w));
  }

  /** Neighbours of the waypoints in `nodes`. */
  ghost function Edges(gr: Graph, nodes: seq<Waypoint>): nat {
    if nodes == [] then 0 else Edges(gr, nodes[..|nodes| - 1]) + |gr.next(nodes[|nodes| - 1])|
  }

  ghost predicate ListsAll(gr: Graph, start: Waypoint, nodes: seq<Waypoint>) {
    forall w :: gr.Reach(start, w) ==> w in nodes
  }

  lemma {:induction false} EdgesAppend(gr: Graph, a: seq<Waypoint>, b: seq<Waypoint>)
    ensures Edges(gr, a + b) == Edges(gr, a) + Edges(gr, b)
  {
    if b == [] {
      assert a + b == a;
    } else {
      assert (a + b)[..|a + b| - 1] == a + b[..|b| - 1];
      EdgesAppend(gr, a, b[..|b| - 1]);
    }
  }

  ghost predicate Distinct(s: seq<Waypoint>) {
    forall i, j :: 0 <= i < j < |s| ==> s[i] != s[j]
  }

  lemma EdgesWithout(gr: Graph, nodes: seq<Waypoint>, i: nat)
    requires i < |nodes|
    ensures Edges(gr, nodes) == Edges(gr, nodes[..i] + nodes[i + 1..]) + |gr.next(nodes[i])|
  {
    EdgesAppend(gr, nodes[..i], nodes[i + 1..]);
    EdgesAppend(gr, nodes[..i], [nodes[i]]);
    EdgesAppend(gr, nodes[..i] + [nodes[i]], nodes[i + 1..]);
    EdgesOne(gr, nodes[i]);
    hide Edges;
    assert nodes == nodes[..i] + [nodes[i]] + nodes[i + 1..];
  }

  lemma EdgesOne(gr: Graph, w: Waypoint)
    ensures Edges(gr, [w]) == |gr.next(w)|
  {
    assert [w][..0] == [];
  }

  lemma StillThere(nodes: seq<Waypoint>, i: nat, v: Waypoint)
    requires i < |nodes| && v in nodes && v != nodes[i]
    ensures v in nodes[..i] + nodes[i + 1..]
  {
    var j :| 0 <= j < |nodes| && nodes[j] == v;
    assert (nodes[..i] + nodes[i + 1..])[if j < i then j else j - 1] == v;
  }

  /** Distinct waypoints of a list have no more neighbours than the whole list. */
  lemma {:induction false} EdgesAtMost(gr: Graph, done: seq<Waypoint>, nodes: seq<Waypoint>)
    requires Distinct(done) && forall w :: w in done ==> w in nodes
    ensures Edges(gr, done) <= Edges(gr, nodes)
    decreases |done|
  {
    if done != [] {
      var w, front := done[|done| - 1], done[..|done| - 1];
      assert w in done;
      var i :| 0 <= i < |nodes| && nodes[i] == w;
      var others := nodes[..i] + nodes[i + 1..];
      forall v | v in front
        ensures v in others
      {
        assert v in done;
        StillThere(nodes, i, v);
      }
      EdgesWithout(gr, nodes, i);
      EdgesAtMost(gr, front, others);
    }
  }

  /** The waypoints expanded so far, each counted once; every queue entry was made by one of their neighbours. */
  ghost predicate Accounted(gr: Graph, start: Waypoint, t: Tables, done: seq<Waypoint>, made: nat) {
    && Distinct(done) && (forall w :: w in done ==> Settled(gr, start, t, w))
    && made <= 1 + Edges(gr, done)
  }

  /** An expansion adds entries only for a waypoint that has not been expanded before. */
  lemma ExpansionAccounted(gr: Graph, start: Waypoint, t: Tables, t': Tables, done: seq<Waypoint>, current: Waypoint,
      made: nat, added: nat)
    returns (done': seq<Waypoint>)
    requires Accounted(gr, start, t, done, made)
    requires forall w :: Settled(gr, start, t, w) ==> Settled(gr, start, t', w)
    requires Settled(gr, start, t', current)
    requires added <= |gr.next(current)| && (Settled(gr, start, t, current) ==> added == 0)
    ensures Accounted(gr, start, t', done', made + added)
  {
    hide Settled;
    if current in done {
      done' := done;
    } else {
      done' := done + [current];
      assert done'[..|done|] == done;
    }
  }

  // ---- The search ------------------------------------------------------------------------------------

  ghost predicate NoRepeats(p: seq<Waypoint>) {
    forall i, j :: 0 <= i < j < |p| ==> KeyOf(p[i]) != KeyOf(p[j])
  }

  /** A path of the graph from the start to the key of the goal, none cheaper. */
  ghost predicate Shortest(gr: Graph, start: Waypoint, goal: Waypoint, p: seq<Waypoint>) {
    && gr.IsPath(p) && p[0] == start && KeyOf(p[|p| - 1]) == KeyOf(goal)
    && forall q :: gr.IsPath(q) && q[0] == start && KeyOf(q[|q| - 1]) == KeyOf(goal) ==> gr.Cost(p) <= gr.Cost(q)
  }

  ghost predicate Unreachable(gr: Graph, start: Waypoint, goal: Waypoint) {
    forall q :: gr.IsPath(q) && q[0] == start ==> KeyOf(q[|q| - 1]) != KeyOf(goal)
  }

  /** What holds while `current` is being expanded, its first `i` neighbours done. */
  ghost predicate Expanding(gr: Graph, start: Waypoint, goal: Waypoint, t: Tables, pq: seq<Item>, current: Waypoint,
      i: nat)
    requires i <= |gr.next(current)|
  {
    && KeyOf(current) in t.g && t.Searching(gr, start, goal, pq, Some(KeyOf(current))) && t.GoalWaits(goal, pq)
    && (gr.Separate(start) ==>
          && t.at[KeyOf(current)] == current
          && forall j :: 0 <= j < i ==> t.Relaxed(gr, KeyOf(current), gr.next(current)[j]))
  }

  lemma ExpandingImproves(gr: Graph, start: Waypoint, goal: Waypoint, t: Tables, pq: seq<Item>, current: Waypoint,
      i: nat)
    requires gr.Metric() && gr.Reach(start, current) && i < |gr.next(current)|
    requires Expanding(gr, start, goal, t, pq, current, i) && Improves(gr, t, current, gr.next(current)[i])
    ensures var next := gr.next(current)[i]; var t' := Improved(gr, t, current, next);
            Expanding(gr, start, goal, t', pq + [Item(next, t'.g[KeyOf(next)] + gr.dist(next, goal))], current, i + 1)
  {
    hide KeyOf, Graph.Metric, Graph.Reach, Graph.Separate, Tables.Queued, Tables.GoalWaits, Tables.Linked;
    var next := gr.next(current)[i];
    ReachStep(gr, start, current, next);
    ImproveValid(gr, start, t, current, next);
    ImproveQueued(gr, start, goal, t, pq, current, next);
    var t' := Improved(gr, t, current, next);
    if gr.Separate(start) {
      ImproveFrontier(gr, goal, t, pq, Some(KeyOf(current)), current, next);
      hide Tables.Frontier;
      forall j | 0 <= j < i + 1
        ensures t'.Relaxed(gr, KeyOf(current), gr.next(current)[j])
      {
        if j < i { assert t.Relaxed(gr, KeyOf(current), gr.next(current)[j]); }
      }
    }
  }

  lemma ExpandingSkips(gr: Graph, start: Waypoint, goal: Waypoint, t: Tables, pq: seq<Item>, current: Waypoint, i: nat)
    requires i < |gr.next(current)|
    requires Expanding(gr, start, goal, t, pq, current, i) && !Improves(gr, t, current, gr.next(current)[i])
    ensures Expanding(gr, start, goal, t, pq, current, i + 1)
  {
    hide KeyOf, Graph.Separate, Tables.Searching, Tables.GoalWaits;
  }

  lemma ExpandingDone(gr: Graph, start: Waypoint, goal: Waypoint, t: Tables, pq: seq<Item>, current: Waypoint)
    requires Expanding(gr, start, goal, t, pq, current, |gr.next(current)|)
    ensures t.Searching(gr, start, goal, pq, None) && t.GoalWaits(goal, pq)
  {
    hide KeyOf, Graph.Separate, Tables.Queued, Tables.GoalWaits, Tables.Linked;
    assert gr.Separate(start) ==> t.Closed(gr, KeyOf(current));
  }

  /** What `i` tried neighbours have done to scores, expanded waypoints and the queue. */
  ghost predicate Progress(gr: Graph, start: Waypoint, current: Waypoint, t0: Tables, pq0: seq<Item>, t: Tables,
      pq: seq<Item>, i: nat) {
    && KeyOf(current) in t0.g && KeyOf(current) in t.g && t.g[KeyOf(current)] == t0.g[KeyOf(current)]
    && |pq0| <= |pq| <= |pq0| + i
    && (gr.Separate(start) ==>
          && (forall w :: Settled(gr, start, t0, w) ==> Settled(gr, start, t, w))
          && (Settled(gr, start, t0, current) ==> |pq| == |pq0|))
  }

  lemma ClosedNotImproved(gr: Graph, start: Waypoint, t: Tables, current: Waypoint, next: Waypoint)
    requires KeyOf(current) in t.g && Settled(gr, start, t, current) && next in gr.next(current)
    ensures !Improves(gr, t, current, next)
  {
    hide KeyOf, Graph.Reach;
    assert t.Relaxed(gr, KeyOf(current), next);
  }

  lemma ProgressImproves(gr: Graph, start: Waypoint, goal: Waypoint, current: Waypoint, t0: Tables, pq0: seq<Item>,
      t: Tables, pq: seq<Item>, i: nat, item: Item)
    requires gr.Metric() && gr.Reach(start, current) && i < |gr.next(current)|
    requires Expanding(gr, start, goal, t, pq, current, i) && Progress(gr, start, current, t0, pq0, t, pq, i)
    requires Improves(gr, t, current, gr.next(current)[i])
    ensures Progress(gr, start, current, t0, pq0, Improved(gr, t, current, gr.next(current)[i]), pq + [item], i + 1)
  {
    hide KeyOf, Graph.Metric, Graph.Reach, Graph.Separate, Settled, Improves, Tables.Queued, Tables.GoalWaits,
         Tables.Frontier;
    var next := gr.next(current)[i];
    ImproveValid(gr, start, t, current, next);
    if gr.Separate(start) {
      forall w | Settled(gr, start, t0, w)
        ensures Settled(gr, start, Improved(gr, t, current, next), w)
      {
        SettledStays(gr, start, t, current, next, w);
      }
      if Settled(gr, start, t0, current) {
        ClosedNotImproved(gr, start, t, current, next);
      }
    }
  }

  lemma ProgressDone(gr: Graph, start: Waypoint, goal: Waypoint, current: Waypoint, t0: Tables, pq0: seq<Item>,
      t: Tables, pq: seq<Item>)
    requires gr.Reach(start, current) && gr.Separate(start)
        && Expanding(gr, start, goal, t, pq, current, |gr.next(current)|)
    requires Progress(gr, start, current, t0, pq0, t, pq, |gr.next(current)|) && Best(gr, start, t0, current)
    ensures Settled(gr, start, t, current)
  {
    hide KeyOf, Graph.Reach, Graph.Separate, Tables.Queued, Tables.GoalWaits, Tables.Frontier, Tables.Linked;
    assert t.Closed(gr, KeyOf(current));
  }

  /** Tries the neighbours of the popped waypoint. */
  method Expand(gr: Graph, ghost start: Waypoint, goal: Waypoint, current: Waypoint,
                t0: Tables, pq0: seq<Item>)
    returns (t: Tables, pq: seq<Item>)
    requires gr.Metric() && gr.Reach(start, current) && Expanding(gr, start, goal, t0, pq0, current, 0)
    ensures t.Searching(gr, start, goal, pq, None) && t.GoalWaits(goal, pq)
    ensures gr.Separate(start) ==> forall w :: Settled(gr, start, t0, w) ==> Settled(gr, start, t, w)
    ensures gr.Separate(start) && Best(gr, start, t0, current) ==> Settled(gr, start, t, current)
    ensures |pq0| <= |pq| <= |pq0| + |gr.next(current)|
    ensures gr.Separate(start) && Settled(gr, start, t0, current) ==> |pq| == |pq0|
    ensures ParentsKept(t0, t, current)
  {
    hide KeyOf, Graph.Metric, Graph.Reach, Tables.Searching, Tables.GoalWaits, Settled, Best, Graph.Separate;
    var cameFrom, waypointMap, gScore := t0.cameFrom, t0.at, t0.g;
    pq := pq0;
    var currentKey := KeyOf(current);
    var neighbours := gr.next(current);
    for i := 0 to |neighbours|
      invariant Expanding(gr, start, goal, Tables(cameFrom, waypointMap, gScore), pq, current, i)
      invariant Progress(gr, start, current, t0, pq0, Tables(cameFrom, waypointMap, gScore), pq, i)
      invariant ParentsKept(t0, Tables(cameFrom, waypointMap, gScore), current)
    {
      ghost var was := Tables(cameFrom, waypointMap, gScore);
      var next := neighbours[i];
      var nextKey := KeyOf(next);
      var tentative := gScore[currentKey] + gr.dist(current, next);
      if nextKey !in gScore || tentative < gScore[nextKey] {
        ExpandingImproves(gr, start, goal, was, pq, current, i);
        ProgressImproves(gr, start, goal, current, t0, pq0, was, pq, i, Item(next, tentative + gr.dist(next, goal)));
        cameFrom := cameFrom[nextKey := current];
        waypointMap := waypointMap[nextKey := next];
        gScore := gScore[nextKey := tentative];
        pq := pq + [Item(next, tentative + gr.dist(next, goal))];
        assert Tables(cameFrom, waypointMap, gScore) == Improved(gr, was, current, next);
      } else {
        ExpandingSkips(gr, start, goal, was, pq, current, i);
      }
    }
    t := Tables(cameFrom, waypointMap, gScore);
    ExpandingDone(gr, start, goal, t, pq, current);
    if gr.Separate(start) && Best(gr, start, t0, current) {
      ProgressDone(gr, start, goal, current, t0, pq0, t, pq);
    }
  }

  // ---- How long a path can be -------------------------------------------------------------------

  /** A parent is what it was, or the waypoint being expanded. */
  ghost predicate ParentsKept(t0: Tables, t: Tables, current: Waypoint) {
    forall k :: k in t.cameFrom ==> t.cameFrom[k] == current || (k in t0.cameFrom && t.cameFrom[k] == t0.cameFrom[k])
  }

  ghost predicate ParentsIn(start: Waypoint, t: Tables, expanded: set<PointKey>) {
    forall k :: k in t.cameFrom && k != KeyOf(start) ==> t.Parent(k) in expanded
  }

  lemma ParentsStay(start: Waypoint, t0: Tables, t: Tables, current: Waypoint, expanded: set<PointKey>)
    requires ParentsIn(start, t0, expanded) && ParentsKept(t0, t, current)
    ensures ParentsIn(start, t, expanded + {KeyOf(current)})
  {
    hide KeyOf;
  }

  lemma {:induction false} ChainExpanded(gr: Graph, start: Waypoint, t: Tables, k: PointKey, expanded: set<PointKey>)
    requires gr.Metric() && t.Valid(gr, start) && k in t.g && ParentsIn(start, t, expanded)
    ensures var c := Chain(gr, start, t, k);
            |c| >= 1 && c[|c| - 1] == t.at[k] && forall i :: 0 <= i < |c| - 1 ==> KeyOf(c[i]) in expanded
    decreases Better(t, k)
  {
    hide KeyOf, Graph.Metric, Graph.Reach, Graph.Separate;
    if k != KeyOf(start) {
      ParentBetter(gr, start, t, k);
      ChainExpanded(gr, start, t, t.Parent(k), expanded);
      assert KeyOf(t.at[t.Parent(k)]) == t.Parent(k);
    }
  }

  lemma {:induction false} DistinctKeys(c: seq<Waypoint>, keys: set<PointKey>)
    requires NoRepeats(c) && forall i :: 0 <= i < |c| ==> KeyOf(c[i]) in keys
    ensures |c| <= |keys|
  {
    hide KeyOf;
    if c != [] {
      var n := |c| - 1;
      DistinctKeys(c[..n], keys - {KeyOf(c[n])});
    }
  }

  /** No path is longer than the waypoints expanded, and the goal. */
  lemma PathBound(gr: Graph, start: Waypoint, t: Tables, k: PointKey, expanded: set<PointKey>)
    requires gr.Metric() && t.Valid(gr, start) && k in t.g && ParentsIn(start, t, expanded)
    requires NoRepeats(Chain(gr, start, t, k))
    ensures |Chain(gr, start, t, k)| <= |expanded| + 1
  {
    hide KeyOf, Chain, Tables.Valid, Graph.Metric;
    ChainExpanded(gr, start, t, k, expanded);
    var c := Chain(gr, start, t, k);
    DistinctKeys(c[..|c| - 1], expanded);
  }

  lemma PopBest(gr: Graph, start: Waypoint, goal: Waypoint, t: Tables, pq: seq<Item>, item: Item)
    requires gr.Metric() && gr.Separate(start) && t.Searching(gr, start, goal, pq, None)
    requires item in pq && forall it :: it in pq ==> item.priority <= it.priority
    ensures KeyOf(item.value) in t.g && Best(gr, start, t, item.value)
  {
    hide KeyOf, Graph.Metric, Graph.Reach, Graph.Separate, Tables.Valid, Tables.Frontier;
    forall p | gr.PathTo(p, start, item.value)
      ensures t.g[KeyOf(item.value)] <= gr.Cost(p)
    {
      PopOptimal(gr, start, goal, t, pq, item, p);
    }
  }

  /** That many queue entries need that many edges, among the edges of all reachable waypoints. */
  lemma ManyEdges(gr: Graph, start: Waypoint, t: Tables, done: seq<Waypoint>, made: nat)
    requires Accounted(gr, start, t, done, made)
    ensures forall nodes :: ListsAll(gr, start, nodes) ==> Edges(gr, nodes) + 1 >= made
  {
    hide Edges;
    forall nodes | ListsAll(gr, start, nodes)
      ensures Edges(gr, nodes) + 1 >= made
    {
      EdgesAtMost(gr, done, nodes);
    }
  }

  // ---- The turns of the search --------------------------------------------------------------------

  lemma Begins(gr: Graph, start: Waypoint, goal: Waypoint, t: Tables, pq: seq<Item>)
    requires gr.Metric() && pq == [Item(start, 0.0)]
    requires t == Tables(map[KeyOf(start) := start], map[KeyOf(start) := start], map[KeyOf(start) := 0.0])
    ensures t.Searching(gr, start, goal, pq, None) && t.GoalWaits(goal, pq)
    ensures Accounted(gr, start, t, [], 1) && ParentsIn(start, t, {})
  {
    hide KeyOf, Graph.Metric, Graph.Reach, Graph.Separate, Settled;
    ReachStart(gr, start);
    assert Item(start, 0.0) in pq;
    NonNegative(gr, start, goal);
    assert t.Open(gr, goal, pq, KeyOf(start));
  }

  /** What is taken out can be expanded, unless it is the goal. */
  lemma PopExpanding(gr: Graph, start: Waypoint, goal: Waypoint, t: Tables, pq: seq<Item>, rest: seq<Item>, item: Item)
    requires gr.Metric() && t.Searching(gr, start, goal, pq, None) && t.GoalWaits(goal, pq) && item in pq
    requires (forall it :: it in rest ==> it in pq) && (forall it :: it in pq && it != item ==> it in rest)
    ensures gr.Reach(start, item.value) && KeyOf(item.value) in t.g
    ensures KeyOf(item.value) != KeyOf(goal) ==> Expanding(gr, start, goal, t, rest, item.value, 0)
  {
    hide KeyOf, Graph.Metric, Graph.Reach, Graph.Separate, Tables.Valid, Tables.Frontier;
    if gr.Separate(start) {
      PopFrontier(gr, start, goal, t, pq, rest, item);
    }
  }

  lemma SearchingTables(gr: Graph, start: Waypoint, goal: Waypoint, t: Tables, pq: seq<Item>)
    requires t.Searching(gr, start, goal, pq, None) && t.GoalWaits(goal, pq)
    ensures t.Valid(gr, start) && t.cameFrom.Keys == t.g.Keys
    ensures pq == [] ==> KeyOf(goal) !in t.g
  {
    hide KeyOf, Graph.Reach, Graph.Separate, Tables.Linked, Tables.Frontier;
  }

  /**
   * `None` is the iteration limit, which a graph with fewer edges than iterations does not reach. Whatever the graph,
   * a path starts at the start, has the goal's key at its end and never repeats a key. When no two reachable
   * waypoints share a key, a path is a shortest one, and the empty path means that the goal cannot be reached.
   */
  method Search(start: Waypoint, goal: Waypoint, gr: Graph) returns (r: Option<seq<Waypoint>>)
    requires gr.Metric()
    ensures r.Some? && r.value != [] ==>
              r.value[0] == start && KeyOf(r.value[|r.value| - 1]) == KeyOf(goal) && NoRepeats(r.value)
    ensures r.Some? && r.value != [] ==> Close(r.value[|r.value| - 1], goal) && |r.value| <= 5000
    ensures gr.Separate(start) && r.Some? && r.value != [] ==> Shortest(gr, start, goal, r.value)
    ensures gr.Separate(start) && r == Some([]) ==> Unreachable(gr, start, goal)
    ensures gr.Separate(start) ==>
              forall nodes :: ListsAll(gr, start, nodes) && Edges(gr, nodes) < 5000 ==> r.Some?
  {
    hide KeyOf, Graph.Metric, Graph.Reach, Graph.Separate, Chain, Close, Shortest, Unreachable, NoneCheaper,
         ParentsIn, ParentsKept, NoRepeats, Tables.Searching, Tables.GoalWaits, Tables.Valid, Expanding, Accounted,
         Settled, Best, ListsAll, Edges;
    var startKey, goalKey := KeyOf(start), KeyOf(goal);
    var pq := [Item(start, 0.0)];
    var t := Tables(map[startKey := start], map[startKey := start], map[startKey := 0.0]);
    Begins(gr, start, goal, t, pq);
    var iterations := 0;
    ghost var found := false;
    ghost var expanded: set<PointKey> := {};
    ghost var done: seq<Waypoint> := [];
    while |pq| > 0
      invariant t.Searching(gr, start, goal, pq, None) && t.GoalWaits(goal, pq)
      invariant gr.Separate(start) ==> Accounted(gr, start, t, done, iterations + |pq|)
      invariant !found
      invariant ParentsIn(start, t, expanded) && |expanded| <= iterations
      decreases MAX_ITERATIONS - iterations
    {
      iterations := iterations + 1;
      if iterations > MAX_ITERATIONS {
        if gr.Separate(start) {
          ManyEdges(gr, start, t, done, iterations - 1 + |pq|);
        }
        return None;
      }
      var item, rest := PopMin(pq);
      var current := item.value;
      var currentKey := KeyOf(current);
      PopExpanding(gr, start, goal, t, pq, rest, item);
      if currentKey == goalKey {
        found := true;
        if gr.Separate(start) {
          GoalBest(gr, start, goal, t, pq, item);
        }
        break;
      }
      if gr.Separate(start) {
        PopBest(gr, start, goal, t, pq, item);
      }
      ghost var was := t;
      t, pq := Expand(gr, start, goal, current, t, rest);
      ParentsStay(start, was, t, current, expanded);
      expanded := expanded + {currentKey};
      if gr.Separate(start) {
        done := ExpansionAccounted(gr, start, was, t, done, current, iterations + |rest|, |pq| - |rest|);
      }
    }
    SearchingTables(gr, start, goal, t, pq);
    if goalKey !in t.cameFrom {
      if gr.Separate(start) {
        Exhausted(gr, start, goal, t, pq);
      }
      return Some([]);
    }
    assert found;
    var path := WalkBack(gr, start, goalKey, t);
    FoundPath(gr, start, goal, t, expanded);
    return Some(path);
  }

  /** The score of the goal is the least cost of a path to its key. */
  ghost predicate NoneCheaper(gr: Graph, start: Waypoint, goal: Waypoint, t: Tables) {
    KeyOf(goal) in t.g
    && forall q :: gr.IsPath(q) && q[0] == start && KeyOf(q[|q| - 1]) == KeyOf(goal) ==> t.g[KeyOf(goal)] <= gr.Cost(q)
  }

  lemma GoalBest(gr: Graph, start: Waypoint, goal: Waypoint, t: Tables, pq: seq<Item>, item: Item)
    requires gr.Metric() && gr.Separate(start) && t.Searching(gr, start, goal, pq, None)
    requires item in pq && KeyOf(item.value) == KeyOf(goal) && forall it :: it in pq ==> item.priority <= it.priority
    ensures NoneCheaper(gr, start, goal, t)
  {
    hide KeyOf, Graph.Metric, Graph.Separate, Tables.Valid, Tables.Frontier;
    forall q | gr.IsPath(q) && q[0] == start && KeyOf(q[|q| - 1]) == KeyOf(goal)
      ensures KeyOf(goal) in t.g && t.g[KeyOf(goal)] <= gr.Cost(q)
    {
      GoalOptimal(gr, start, goal, t, pq, item, q);
    }
  }

  lemma Exhausted(gr: Graph, start: Waypoint, goal: Waypoint, t: Tables, pq: seq<Item>)
    requires gr.Metric() && gr.Separate(start) && t.Searching(gr, start, goal, pq, None) && pq == []
    requires KeyOf(goal) !in t.g
    ensures Unreachable(gr, start, goal)
  {
    hide KeyOf, Graph.Metric, Graph.Separate;
    forall q | gr.IsPath(q) && q[0] == start
      ensures KeyOf(q[|q| - 1]) != KeyOf(goal)
    {
      ExhaustedScoresAll(gr, start, goal, t, q);
    }
  }

  /** What the chain to the key of the goal is worth. */
  lemma FoundPath(gr: Graph, start: Waypoint, goal: Waypoint, t: Tables, expanded: set<PointKey>)
    requires gr.Metric() && t.Valid(gr, start) && KeyOf(goal) in t.g && ParentsIn(start, t, expanded)
    ensures var c := Chain(gr, start, t, KeyOf(goal));
      && |c| >= 1 && c[0] == start && KeyOf(c[|c| - 1]) == KeyOf(goal) && Close(c[|c| - 1], goal) && NoRepeats(c)
      && |c| <= |expanded| + 1
      && (gr.Separate(start) && NoneCheaper(gr, start, goal, t) ==> Shortest(gr, start, goal, c))
  {
    hide KeyOf, Graph.Metric, Graph.Reach, Graph.Separate, Chain, Close;
    var k := KeyOf(goal);
    var c := Chain(gr, start, t, k);
    ChainEnds(gr, start, t, k);
    SameKeyIsClose(c[|c| - 1], goal);
    PathBound(gr, start, t, k, expanded);
    if gr.Separate(start) {
      ChainIsPath(gr, start, t, k);
    }
  }

  ghost function Reversed(s: seq<Waypoint>): seq<Waypoint> {
    seq(|s|, i requires 0 <= i < |s| => s[|s| - 1 - i])
  }

  /** The parent walk, then the reversal by swapping ends. */
  method WalkBack(gr: Graph, start: Waypoint, goalKey: PointKey, t: Tables) returns (path: seq<Waypoint>)
    requires gr.Metric() && t.Valid(gr, start) && goalKey in t.g
    ensures path == Chain(gr, start, t, goalKey)
  {
    hide KeyOf, Graph.Metric, Tables.Valid, Better, Tables.Linked, Reversed, Chain;
    path := [];
    WalkStarts(gr, start, goalKey, t);
    var currKey := goalKey;
    while currKey != KeyOf(start)
      invariant currKey in t.g && currKey in t.at && currKey in t.cameFrom
      invariant Chain(gr, start, t, goalKey) == Chain(gr, start, t, currKey) + Reversed(path)
      decreases Better(t, currKey)
    {
      ParentBetter(gr, start, t, currKey);
      ParentStep(gr, start, t, currKey, path);
      path := path + [t.at[currKey]];
      currKey := t.Parent(currKey);
    }
    StartStep(gr, start, t, path);
    path := path + [start];
    path := ReverseBySwaps(path);
  }

  lemma WalkStarts(gr: Graph, start: Waypoint, key: PointKey, t: Tables)
    requires gr.Metric() && t.Valid(gr, start) && key in t.g
    ensures key in t.at && key in t.cameFrom && Chain(gr, start, t, key) == Chain(gr, start, t, key) + Reversed([])
  {
    hide Chain;
    assert t.cameFrom.Keys == t.at.Keys == t.g.Keys;
    assert Reversed([]) == [];
  }

  lemma ParentStep(gr: Graph, start: Waypoint, t: Tables, key: PointKey, path: seq<Waypoint>)
    requires t.Valid(gr, start) && key in t.g && key in t.at && key in t.cameFrom && key != KeyOf(start)
    requires gr.Metric()
    ensures t.Parent(key) in t.g && t.Parent(key) in t.at && t.Parent(key) in t.cameFrom
    ensures Chain(gr, start, t, key) + Reversed(path)
            == Chain(gr, start, t, t.Parent(key)) + Reversed(path + [t.at[key]])
  {
    hide Reversed;
    ParentBetter(gr, start, t, key);
    PrependStep(Chain(gr, start, t, t.Parent(key)), t.at[key], path);
  }

  lemma StartStep(gr: Graph, start: Waypoint, t: Tables, path: seq<Waypoint>)
    requires gr.Metric() && t.Valid(gr, start) && KeyOf(start) in t.g
    ensures Chain(gr, start, t, KeyOf(start)) + Reversed(path) == Reversed(path + [start])
  {
    hide Reversed;
    PrependStep([], start, path);
    assert [] + [start] == [start] && [] + Reversed(path + [start]) == Reversed(path + [start]);
  }

  lemma PrependStep(c: seq<Waypoint>, w: Waypoint, path: seq<Waypoint>)
    ensures (c + [w]) + Reversed(path) == c + Reversed(path + [w])
  {
    assert Reversed(path + [w]) == [w] + Reversed(path);
  }

  method ReverseBySwaps(p: seq<Waypoint>) returns (path: seq<Waypoint>)
    ensures path == Reversed(p)
  {
    path := p;
    var i, j := 0, |p| - 1;
    while i < j
      invariant |path| == |p| && 0 <= i && j == |p| - 1 - i && i <= j + 1
      invariant forall k :: 0 <= k < i ==> path[k] == p[|p| - 1 - k]
      invariant forall k :: j < k < |p| ==> path[k] == p[|p| - 1 - k]
      invariant forall k :: i <= k <= j ==> path[k] == p[k]
    {
      var a, b := path[i], path[j];
      path := path[i := b][j := a];
      i, j := i + 1, j - 1;
    }
  }
}
