/** Runs of one session over the four opcodes that share the floor and the rate limit of its item ledger. */
module ItemRuns {
  import opened Basics
  import opened ItemLedger

  /** The opcodes beside the item actions; each has a ring of its own. */
  datatype Kind = Container | Stash | Trade

  /** An item action; the database is whatever it is when the packet arrives. */
  datatype Event = Event(packet: Packet, session: Session, now: int, db: Economy.State)

  /** `known` tells whether the opcode knows the action asked for. */
  datatype Arrival =
    | Item(event: Event)
    | Other(kind: Kind, actionId: nat, known: bool, now: int)
  {
    function Id(): nat { if Item? then event.packet.id else actionId }

    function At(): int { if Item? then event.now else now }
  }

  /** The ledger of the item actions, and the ids recorded by each other opcode. */
  datatype Shared = Shared(items: Ledger, others: map<Kind, seq<nat>>)
  {
    function Ids(kind: Kind): seq<nat> { if kind in others then others[kind] else [] }
  }

  const START: Shared := Shared(Ledger(None, [], []), map[])

  predicate Echoed(sh: Shared, kind: Kind, id: nat) {
    var ids := sh.Ids(kind);
    id in if |ids| > CACHE then ids[|ids| - CACHE..] else ids
  }

  /** Every outcome but an echo is recorded, rejections of stale and unknown actions included. */
  predicate OtherRecords(sh: Shared, a: Arrival)
    requires a.Other?
  {
    !(a.known && Echoed(sh, a.kind, a.actionId))
  }

  /** The gate of the other opcodes, and whether the action reaches its transaction. */
  ghost function HandleOther(cfg: Config, sh: Shared, a: Arrival): (Shared, bool)
    requires a.Other?
  {
    if !OtherRecords(sh, a) then (sh, false)
    else
      var noted := sh.(items := sh.items.(floor := Some(a.actionId)),
          others := sh.others[a.kind := sh.Ids(a.kind) + [a.actionId]]);
      if !a.known || Stale(sh.items.floor, a.actionId) then (noted, false)
      else
        var (grant, rate) := W.Charge(sh.items.rate, W.ActionLimit(cfg.maxPerS) as real, SECOND, a.now, 1.0);
        (noted.(items := noted.items.(rate := rate)), grant.Some?)
  }

  ghost function HandleItem(cfg: Config, l: Ledger, e: Event): (Ledger, Outcome) {
    Handle(cfg, l, e.db, e.session, e.packet, e.now)
  }

  ghost function After(cfg: Config, sh: Shared, a: Arrival): Shared {
    if a.Item? then sh.(items := HandleItem(cfg, sh.items, a.event).0) else HandleOther(cfg, sh, a).0
  }

  /** The item action changes the database, or the other action reaches its transaction. */
  ghost predicate Applies(cfg: Config, sh: Shared, a: Arrival) {
    if a.Item? then HandleItem(cfg, sh.items, a.event).1.db != a.event.db else HandleOther(cfg, sh, a).1
  }

  ghost function At(cfg: Config, sh: Shared, run: seq<Arrival>, n: nat): Shared
    requires n <= |run|
  {
    if n == 0 then sh else After(cfg, At(cfg, sh, run, n - 1), run[n - 1])
  }

  // ---- Replays ----------------------------------------------------------------------------------

  ghost predicate ItemRecorded(cfg: Config, sh: Shared, a: Arrival) {
    a.Item? && HandleItem(cfg, sh.items, a.event).1.recorded
  }

  lemma StepHistory(cfg: Config, sh: Shared, a: Arrival)
    requires Spaced(sh.items.history)
    ensures Spaced(After(cfg, sh, a).items.history)
    ensures After(cfg, sh, a).items.history == sh.items.history +
              if ItemRecorded(cfg, sh, a) then [Entry(a.Id(), HandleItem(cfg, sh.items, a.event).1.response.update)]
              else []
  {
    hide Handle, Spaced, W.Charge, W.ActionLimit, Echoed;
    if a.Item? {
      StepSpaced(cfg, sh.items, a.event.db, a.event.session, a.event.packet, a.event.now);
    }
  }

  /** Over any run the ids in the ring stay distinct, and results are only added. */
  lemma {:induction false} RunSpaced(cfg: Config, sh: Shared, run: seq<Arrival>, n: nat, m: nat)
    requires Spaced(sh.items.history) && n <= m <= |run|
    ensures Spaced(At(cfg, sh, run, n).items.history) && Spaced(At(cfg, sh, run, m).items.history)
    ensures At(cfg, sh, run, n).items.history <= At(cfg, sh, run, m).items.history
    decreases m
  {
    hide After, Spaced;
    if m > 0 {
      RunSpaced(cfg, sh, run, if n < m then n else 0, m - 1);
      StepHistory(cfg, At(cfg, sh, run, m - 1), run[m - 1]);
    }
  }

  /** Between steps `n` and `m`, no result of `id` is recorded. */
  ghost predicate NotRecorded(cfg: Config, sh: Shared, run: seq<Arrival>, n: nat, m: nat, id: nat)
    requires m <= |run|
  {
    forall q: nat :: n <= q < m && run[q].Id() == id ==> !ItemRecorded(cfg, At(cfg, sh, run, q), run[q])
  }

  lemma {:induction false} NoneSince(cfg: Config, sh: Shared, run: seq<Arrival>, n: nat, m: nat, id: nat)
    requires Spaced(sh.items.history) && n <= m <= |run| && NotRecorded(cfg, sh, run, n, m, id)
    ensures |At(cfg, sh, run, n).items.history| <= |At(cfg, sh, run, m).items.history|
    ensures forall q :: |At(cfg, sh, run, n).items.history| <= q < |At(cfg, sh, run, m).items.history|
              ==> At(cfg, sh, run, m).items.history[q].id != id
    decreases m
  {
    hide After, Spaced, ItemRecorded, HandleItem;
    if n < m {
      RunSpaced(cfg, sh, run, 0, m - 1);
      NoneSince(cfg, sh, run, n, m - 1, id);
      StepHistory(cfg, At(cfg, sh, run, m - 1), run[m - 1]);
    }
  }

  /**
   * What a recorded item action meets when it comes again, whatever the session sent in between: its result while
   * fewer than 256 others have been recorded; then a rejection while the floor is not below its id; and otherwise,
   * the rate allowing, the transaction a second time.
   */
  lemma ReplayExact(cfg: Config, sh: Shared, run: seq<Arrival>, i: nat, j: nat)
    requires Spaced(sh.items.history) && i < j < |run| && run[j].Item? && !run[j].event.packet.action.Unknown?
    requires ItemRecorded(cfg, At(cfg, sh, run, i), run[i]) && run[j].Id() == run[i].Id()
    requires NotRecorded(cfg, sh, run, i + 1, j, run[i].Id())
    ensures var l, e := At(cfg, sh, run, j).items, run[j].event;
      var k := |At(cfg, sh, run, i).items.history|;
      var original := HandleItem(cfg, At(cfg, sh, run, i).items, run[i].event).1.response.update;
      var again := HandleItem(cfg, l, e);
      && k < |l.history| && l.history[k] == Entry(e.packet.id, original)
      && (if |l.history| - 256 <= k then
            Inert(l, e.db, again) && again.1.response == Response(original, false, false)
          else if Stale(l.floor, e.packet.id) then
            Inert(l, e.db, again) && again.1.response == Response(Rejection(e.packet), false, true)
          else Granted(cfg, l, e.now) ==> again.1 == Perform(cfg, e.db, e.session, e.packet, e.now))
  {
    hide Handle, Spaced, After, Perform, Inert, Granted;
    var l, e := At(cfg, sh, run, j).items, run[j].event;
    var k := |At(cfg, sh, run, i).items.history|;
    RunSpaced(cfg, sh, run, 0, i);
    RunSpaced(cfg, sh, run, i + 1, j);
    StepHistory(cfg, At(cfg, sh, run, i), run[i]);
    assert At(cfg, sh, run, i + 1).items.history[k].id == e.packet.id;
    NoneSince(cfg, sh, run, i + 1, j, e.packet.id);
    GateExact(cfg, l, e.db, e.session, e.packet, e.now);
    if |l.history| - CACHE <= k {
      assert CachedAt(l.history, e.packet.id, k);
    } else {
      forall q
        ensures !CachedAt(l.history, e.packet.id, q)
      {
      }
    }
  }

  // ---- At most once -------------------------------------------------------------------------------

  /** Another opcode records an id below the floor: its rejection of a stale or an unknown action. */
  ghost predicate Lowers(sh: Shared, a: Arrival) {
    a.Other? && OtherRecords(sh, a) && sh.items.floor.Some? && a.actionId < sh.items.floor.value
  }

  ghost predicate KeepsFloor(cfg: Config, sh: Shared, run: seq<Arrival>, n: nat, m: nat)
    requires m <= |run|
  {
    forall q: nat :: n <= q < m ==> !Lowers(At(cfg, sh, run, q), run[q])
  }

  /** Only an action above the floor applies, and its id becomes the floor. */
  lemma AppliedIsFloor(cfg: Config, sh: Shared, a: Arrival)
    ensures Applies(cfg, sh, a) ==> !Stale(sh.items.floor, a.Id()) && After(cfg, sh, a).items.floor == Some(a.Id())
  {
    hide Perform, W.Charge, W.ActionLimit, Find, Newest, Echoed;
    if a.Item? && Applies(cfg, sh, a) {
      ChangeIsRecorded(cfg, sh.items, a.event.db, a.event.session, a.event.packet, a.event.now);
    }
  }

  lemma FloorRises(cfg: Config, sh: Shared, a: Arrival, id: nat)
    requires Stale(sh.items.floor, id) && !Lowers(sh, a)
    ensures Stale(After(cfg, sh, a).items.floor, id)
  {
    hide Perform, W.Charge, W.ActionLimit, Find, Newest, Echoed;
  }

  lemma {:induction false} StaysStale(cfg: Config, sh: Shared, run: seq<Arrival>, n: nat, m: nat, id: nat)
    requires n <= m <= |run| && Stale(At(cfg, sh, run, n).items.floor, id) && KeepsFloor(cfg, sh, run, n, m)
    ensures Stale(At(cfg, sh, run, m).items.floor, id)
    decreases m
  {
    hide After, Lowers;
    if n < m {
      StaysStale(cfg, sh, run, n, m - 1, id);
      FloorRises(cfg, At(cfg, sh, run, m - 1), run[m - 1], id);
    }
  }

  /**
   * While no other opcode lowers the floor, no action id applies twice: not of one opcode and not of two,
   * whatever others do to the database in between.
   */
  lemma AtMostOnce(cfg: Config, sh: Shared, run: seq<Arrival>, i: nat, j: nat)
    requires i < j < |run| && run[i].Id() == run[j].Id() && KeepsFloor(cfg, sh, run, i + 1, j)
    requires Applies(cfg, At(cfg, sh, run, i), run[i])
    ensures !Applies(cfg, At(cfg, sh, run, j), run[j])
  {
    hide After, Applies, Lowers;
    AppliedIsFloor(cfg, At(cfg, sh, run, i), run[i]);
    StaysStale(cfg, sh, run, i + 1, j, run[i].Id());
    AppliedIsFloor(cfg, At(cfg, sh, run, j), run[j]);
  }

  /** Item actions never lower the floor, so among themselves they need no proviso. */
  lemma ItemsAtMostOnce(cfg: Config, sh: Shared, run: seq<Arrival>, i: nat, j: nat)
    requires i < j < |run| && run[i].Id() == run[j].Id() && forall q :: i < q < j ==> run[q].Item?
    requires Applies(cfg, At(cfg, sh, run, i), run[i])
    ensures !Applies(cfg, At(cfg, sh, run, j), run[j])
  {
    hide After, Applies;
    AtMostOnce(cfg, sh, run, i, j);
  }

  // ---- Runs that keep the floor ------------------------------------------------------------------------

  /**
   * While the floor is not lowered, a recorded item action that comes again gets its result while fewer than 256
   * others have been recorded, and a rejection as stale from then on; nothing changes and nothing is charged.
   */
  lemma ReplayKept(cfg: Config, sh: Shared, run: seq<Arrival>, i: nat, j: nat)
    requires Spaced(sh.items.history) && i < j < |run| && run[j].Item? && !run[j].event.packet.action.Unknown?
    requires ItemRecorded(cfg, At(cfg, sh, run, i), run[i]) && run[j].Id() == run[i].Id()
    requires KeepsFloor(cfg, sh, run, i + 1, j)
    ensures var l, e := At(cfg, sh, run, j).items, run[j].event;
      var k := |At(cfg, sh, run, i).items.history|;
      var original := HandleItem(cfg, At(cfg, sh, run, i).items, run[i].event).1.response.update;
      var again := HandleItem(cfg, l, e);
      && k < |l.history| && l.history[k] == Entry(e.packet.id, original)
      && Inert(l, e.db, again)
      && again.1.response == if |l.history| - 256 <= k then Response(original, false, false)
                             else Response(Rejection(e.packet), false, true)
  {
    hide Handle, Spaced, Perform, Inert, Granted, Lowers;
    var id := run[i].Id();
    RunSpaced(cfg, sh, run, 0, i);
    RecordedIsNew(cfg, At(cfg, sh, run, i), run[i]);
    forall q: nat | i + 1 <= q < j && run[q].Id() == id
      ensures !ItemRecorded(cfg, At(cfg, sh, run, q), run[q])
    {
      RunSpaced(cfg, sh, run, 0, q);
      StaysStale(cfg, sh, run, i + 1, q, id);
      RecordedIsNew(cfg, At(cfg, sh, run, q), run[q]);
    }
    StaysStale(cfg, sh, run, i + 1, j, id);
    ReplayExact(cfg, sh, run, i, j);
  }

  lemma RecordedIsNew(cfg: Config, sh: Shared, a: Arrival)
    requires Spaced(sh.items.history)
    ensures ItemRecorded(cfg, sh, a) ==> !Stale(sh.items.floor, a.Id()) && After(cfg, sh, a).items.floor == Some(a.Id())
  {
    hide Handle, Spaced;
    if a.Item? {
      StepSpaced(cfg, sh.items, a.event.db, a.event.session, a.event.packet, a.event.now);
    }
  }

  /** The recorded ids increase, and the floor is the last of them. */
  ghost predicate Ordered(l: Ledger) {
    && (forall i, j :: 0 <= i < j < |l.history| ==> l.history[i].id < l.history[j].id)
    && l.floor == if l.history == [] then None else Some(l.history[|l.history| - 1].id)
  }

  lemma StepOrdered(cfg: Config, l: Ledger, e: Event)
    requires Ordered(l)
    ensures Ordered(HandleItem(cfg, l, e).0)
  {
    hide Handle;
    StepSpaced(cfg, l, e.db, e.session, e.packet, e.now);
    var (after, done) := HandleItem(cfg, l, e);
    if done.recorded {
      forall i | 0 <= i < |l.history|
        ensures l.history[i].id < e.packet.id
      {
        assert l.history[i].id <= l.history[|l.history| - 1].id;
      }
    } else {
      StepLedger(cfg, l, e);
    }
  }

  /** Only a recorded result changes history and floor. */
  lemma StepLedger(cfg: Config, l: Ledger, e: Event)
    requires Spaced(l.history)
    ensures var (after, done) := HandleItem(cfg, l, e);
      !done.recorded ==> after.history == l.history && after.floor == l.floor
  {
    hide Handle, Spaced;
    StepSpaced(cfg, l, e.db, e.session, e.packet, e.now);
    assert l.history + [] == l.history;
  }

  /** Over a run of item actions the recorded ids strictly increase, with the floor at the last one. */
  lemma {:induction false} ItemsIncrease(cfg: Config, sh: Shared, run: seq<Arrival>, n: nat)
    requires Ordered(sh.items) && n <= |run| && forall q :: 0 <= q < n ==> run[q].Item?
    ensures Ordered(At(cfg, sh, run, n).items)
  {
    hide HandleItem, Ordered;
    if n > 0 {
      ItemsIncrease(cfg, sh, run, n - 1);
      StepOrdered(cfg, At(cfg, sh, run, n - 1).items, run[n - 1].event);
    }
  }

  // ---- The rate of changes --------------------------------------------------------------------------

  predicate InOrder(run: seq<Arrival>) {
    forall i, j :: 0 <= i < j < |run| ==> run[i].At() <= run[j].At()
  }

  /** Steps among the first `n`, at times in (t - 1 s, t], that applied. */
  ghost function Changes(cfg: Config, sh: Shared, run: seq<Arrival>, n: nat, t: int): nat
    requires n <= |run|
  {
    if n == 0 then 0
    else
      var a := run[n - 1];
      Changes(cfg, sh, run, n - 1, t)
        + if Applies(cfg, At(cfg, sh, run, n - 1), a) && t - SECOND < a.At() <= t then 1 else 0
  }

  /** The rate log is what the window still needs of `granted`. */
  ghost predicate Rated(cfg: Config, l: Ledger, granted: seq<W.Spend>, now: int) {
    && W.Sound(granted, W.ActionLimit(cfg.maxPerS) as real, SECOND) && W.Past(granted, now) && W.Units(granted)
    && exists cutoff :: cutoff <= now - SECOND && l.rate == W.Recent(granted, cutoff)
  }

  lemma RatedLater(cfg: Config, l: Ledger, granted: seq<W.Spend>, now: int, later: int)
    requires Rated(cfg, l, granted, now) && now <= later
    ensures Rated(cfg, l, granted, later)
  {
  }

  /** A step leaves the rate log alone or charges it, and applies only when granted. */
  lemma StepRate(cfg: Config, sh: Shared, a: Arrival)
    ensures var (g, log) := W.Charge(sh.items.rate, W.ActionLimit(cfg.maxPerS) as real, SECOND, a.At(), 1.0);
            var rate := After(cfg, sh, a).items.rate;
            (rate == sh.items.rate && !Applies(cfg, sh, a)) || (rate == log && (Applies(cfg, sh, a) ==> g.Some?))
  {
    hide Find, Newest, Perform, W.ActionLimit, W.Charge, Echoed;
    if a.Item? {
      ItemRate(cfg, sh.items, a.event);
    }
  }

  lemma ItemRate(cfg: Config, l: Ledger, e: Event)
    ensures var (g, log) := W.Charge(l.rate, W.ActionLimit(cfg.maxPerS) as real, SECOND, e.now, 1.0);
            var (after, done) := HandleItem(cfg, l, e);
            (after.rate == l.rate && done.db == e.db) || (after.rate == log && (done.db != e.db ==> g.Some?))
  {
    hide Find, Newest, Perform, W.ActionLimit, W.Charge;
    var (after, done) := HandleItem(cfg, l, e);
    if e.packet.action.Unknown? || Find(Newest(l.history), e.packet.id).Some? || Stale(l.floor, e.packet.id) {
      assert done.db == e.db;
      assert after == l;
    } else {
      var (g, log) := W.Charge(l.rate, W.ActionLimit(cfg.maxPerS) as real, SECOND, e.now, 1.0);
      assert after.rate == log;
      assert g.None? ==> done.db == e.db;
    }
  }

  lemma StepRated(cfg: Config, sh: Shared, granted: seq<W.Spend>, a: Arrival) returns (more: seq<W.Spend>)
    requires Rated(cfg, sh.items, granted, a.At())
    ensures Rated(cfg, After(cfg, sh, a).items, more, a.At())
    ensures more == granted || more == granted + [W.Spend(a.At(), 1.0)]
    ensures Applies(cfg, sh, a) ==> more != granted
  {
    hide After, Applies, W.ActionLimit, W.Charge, W.Sound, W.Recent, W.Within;
    StepRate(cfg, sh, a);
    var limit := W.ActionLimit(cfg.maxPerS);
    var rate := sh.items.rate;
    var cutoff :| cutoff <= a.At() - SECOND && rate == W.Recent(granted, cutoff);
    more := granted;
    if After(cfg, sh, a).items.rate != rate || Applies(cfg, sh, a) {
      W.ChargeUnpruned(rate, granted, limit as real, SECOND, a.At(), 1.0, cutoff);
      W.RecentUnits(granted, cutoff);
      W.UnitCharge(rate, limit, SECOND, a.At());
      var (g, after) := W.Charge(rate, limit as real, SECOND, a.At(), 1.0);
      if g.Some? {
        more := granted + [W.Spend(a.At(), 1.0)];
        assert |more| == |granted| + 1;
        W.GrantKeepsSound(granted, limit as real, SECOND, a.At(), W.Spend(a.At(), 1.0));
      } else {
        assert granted + [] == granted;
      }
      assert after == W.Recent(more, a.At() - SECOND);
    }
  }

  lemma {:induction false} RunRated(cfg: Config, sh: Shared, run: seq<Arrival>, n: nat,
      now: int)
    returns (granted: seq<W.Spend>)
    requires sh.items.rate == [] && InOrder(run) && n <= |run| && forall i :: 0 <= i < n ==> run[i].At() <= now
    ensures Rated(cfg, At(cfg, sh, run, n).items, granted, now)
    ensures forall t :: Changes(cfg, sh, run, n, t) <= W.CountWithin(granted, t - SECOND, t)
  {
    hide After, Applies, Rated, W.CountWithin;
    if n == 0 {
      granted := [];
      NoGrants(cfg, sh.items, now);
    } else {
      var a := run[n - 1];
      var before := RunRated(cfg, sh, run, n - 1, a.At());
      granted := StepRated(cfg, At(cfg, sh, run, n - 1), before, a);
      RatedLater(cfg, At(cfg, sh, run, n).items, granted, a.At(), now);
      forall t
        ensures Changes(cfg, sh, run, n, t) <= W.CountWithin(granted, t - SECOND, t)
      {
        assert Changes(cfg, sh, run, n - 1, t) <= W.CountWithin(before, t - SECOND, t);
        CountSnoc(before, W.Spend(a.At(), 1.0), t - SECOND, t);
      }
    }
  }

  lemma NoGrants(cfg: Config, l: Ledger, now: int)
    requires l.rate == []
    ensures Rated(cfg, l, [], now)
  {
    assert l.rate == W.Recent([], now - SECOND);
    forall t ensures W.Load([], SECOND, t) <= W.ActionLimit(cfg.maxPerS) as real {}
  }

  lemma CountSnoc(s: seq<W.Spend>, e: W.Spend, from: int, until: int)
    ensures W.CountWithin(s + [e], from, until)
            == W.CountWithin(s, from, until) + (if from < e.at <= until then 1 else 0)
  {
    assert (s + [e])[..|s|] == s;
  }

  /** However often packets come, no second sees more than the limit of changes by one session, all opcodes together. */
  lemma ChangesPerSecond(cfg: Config, sh: Shared, run: seq<Arrival>, t: int)
    requires sh.items.rate == [] && InOrder(run)
    ensures Changes(cfg, sh, run, |run|, t) <= W.ActionLimit(cfg.maxPerS)
  {
    hide W.ActionLimit, Changes, At;
    var now := if run == [] then 0 else run[|run| - 1].At();
    var granted := RunRated(cfg, sh, run, |run|, now);
    assert W.Load(granted, SECOND, t) <= W.ActionLimit(cfg.maxPerS) as real;
    W.UnitsWithin(granted, t - SECOND, t);
  }
}
