/** A run in which a lowered floor lets one action id change the database twice. */
module ItemReopened {
  import opened Basics
  import opened ItemLedger
  import opened ItemReplies
  import opened ItemRuns

  // ---- The run --------------------------------------------------------------------------------------

  /** After `first`: consumptions of nothing with the ids that follow, two seconds apart, on what `first` left. */
  function Filler(first: Event, db: Economy.State, q: nat): Arrival {
    var packet := first.packet.(id := first.packet.id + q, count := 0);
    Item(first.(packet := packet, now := first.now + 2 * q * SECOND, db := db))
  }

  function Filled(first: Event, db: Economy.State, n: nat): seq<Arrival> {
    if n == 0 then [Item(first)] else Filled(first, db, n - 1) + [Filler(first, db, n)]
  }

  /** Then a stale action of another opcode, with the id 0, and the item action once more. */
  function Twice(first: Event, db: Economy.State, kind: Kind): seq<Arrival> {
    Filled(first, db, CACHE)
    + [Other(kind, 0, true, first.now + 2 * CACHE * SECOND),
       Item(first.(now := first.now + 2 * (CACHE + 1) * SECOND, db := db))]
  }

  lemma {:induction false} FilledAt(first: Event, db: Economy.State, n: nat)
    ensures |Filled(first, db, n)| == n + 1 && Filled(first, db, n)[0] == Item(first)
    ensures forall q :: 1 <= q <= n ==> Filled(first, db, n)[q] == Filler(first, db, q)
  {
    hide Filler;
    if n > 0 { FilledAt(first, db, n - 1); }
  }

  lemma {:induction false} AtPrefix(cfg: Config, sh: Shared, run: seq<Arrival>, more: seq<Arrival>, n: nat)
    requires n <= |run|
    ensures At(cfg, sh, run + more, n) == At(cfg, sh, run, n)
  {
    hide After;
    if n > 0 { AtPrefix(cfg, sh, run, more, n - 1); }
  }

  // ---- The rate allows it ---------------------------------------------------------------------------

  lemma {:induction false} RecentNone(s: seq<W.Spend>, cutoff: int)
    requires forall i :: 0 <= i < |s| ==> s[i].at <= cutoff
    ensures W.Recent(s, cutoff) == []
  {
    if s != [] { RecentNone(s[..|s| - 1], cutoff); }
  }

  /** When all spends are a second old, one more is granted, and alone in the log. */
  lemma QuietGrants(cfg: Config, l: Ledger, now: int)
    requires forall i :: 0 <= i < |l.rate| ==> l.rate[i].at <= now - SECOND
    ensures W.Charge(l.rate, W.ActionLimit(cfg.maxPerS) as real, SECOND, now, 1.0) == (Some(1.0), [W.Spend(now, 1.0)])
  {
    RecentNone(l.rate, now - SECOND);
    W.EmptyLog(now);
    hide W.ActionLimit, W.Recent, W.Sum;
    assert W.ActionLimit(cfg.maxPerS) as real >= 1.0;
    assert [] + [W.Spend(now, 1.0)] == [W.Spend(now, 1.0)];
  }

  // ---- The ring fills --------------------------------------------------------------------------------

  ghost predicate WellFilled(first: Event, n: nat, sh: Shared) {
    && sh.items.floor == Some(first.packet.id + n) && |sh.items.history| == n + 1 && sh.others == map[]
    && (forall q :: 0 <= q <= n ==> sh.items.history[q].id == first.packet.id + q)
    && sh.items.rate == [W.Spend(first.now + 2 * n * SECOND, 1.0)]
  }

  /** A consumption of something under a positive id, past the checks of account and section, with stock for two. */
  ghost predicate Opens(cfg: Config, first: Event) {
    && first.packet.action.Consume? && first.packet.id > 0 && first.packet.count > 0 && Economy.Good(first.db)
    && first.session.uuid != "" && ValidSection(first.packet.section, cfg.printable)
    && Before(first.db, first.session, first.packet) >= 2 * first.packet.count
  }

  ghost function Left(first: Event): Economy.State {
    PerformConsume(first.db, first.session, first.packet).db
  }

  lemma FirstFills(cfg: Config, first: Event)
    requires Opens(cfg, first)
    ensures WellFilled(first, 0, After(cfg, START, Item(first)))
    ensures HandleItem(cfg, START.items, first).1 == PerformConsume(first.db, first.session, first.packet)
  {
    hide PerformDrop, PerformPickup, PerformConsume, ValidSection, W.ActionLimit, W.Charge, Before, Economy.Good;
    QuietGrants(cfg, START.items, first.now);
    ConsumeReply(first.db, first.session, first.packet);
  }

  lemma FillerFills(cfg: Config, first: Event, db: Economy.State, n: nat, sh: Shared)
    requires Opens(cfg, first) && n > 0 && WellFilled(first, n - 1, sh)
    ensures WellFilled(first, n, After(cfg, sh, Filler(first, db, n)))
  {
    hide PerformDrop, PerformPickup, Find, ValidSection, W.ActionLimit, W.Charge, Before, Economy.Good, Economy.Apply;
    var e := Filler(first, db, n).event;
    forall k
      ensures !CachedAt(sh.items.history, e.packet.id, k)
    {
    }
    FindNotCached(sh.items.history, e.packet.id);
    QuietGrants(cfg, sh.items, e.now);
    assert Perform(cfg, e.db, e.session, e.packet, e.now).recorded;
  }

  /** Consuming nothing changes nothing. */
  lemma FillerKeeps(cfg: Config, sh: Shared, first: Event, db: Economy.State, q: nat)
    requires first.packet.action.Consume?
    ensures !Applies(cfg, sh, Filler(first, db, q))
  {
    hide PerformDrop, PerformPickup, Find, ValidSection, W.ActionLimit, W.Charge, Economy.Apply;
  }

  lemma {:induction false} Fill(cfg: Config, first: Event, db: Economy.State, n: nat)
    requires Opens(cfg, first)
    ensures |Filled(first, db, n)| == n + 1 && WellFilled(first, n, At(cfg, START, Filled(first, db, n), n + 1))
  {
    hide Opens, WellFilled, After, Filler;
    FilledAt(first, db, n);
    if n == 0 {
      FirstFills(cfg, first);
      assert At(cfg, START, Filled(first, db, 0), 0) == START;
    } else {
      FilledAt(first, db, n - 1);
      Fill(cfg, first, db, n - 1);
      AtPrefix(cfg, START, Filled(first, db, n - 1), [Filler(first, db, n)], n);
      FillerFills(cfg, first, db, n, At(cfg, START, Filled(first, db, n), n));
    }
  }

  // ---- The second time -------------------------------------------------------------------------------

  lemma AgainPerformed(cfg: Config, first: Event, again: Event, kind: Kind, now: int, sh: Shared)
    requires Opens(cfg, first) && WellFilled(first, CACHE, sh) && again.packet == first.packet
    requires again.session == first.session && again.now >= first.now + 2 * (CACHE + 1) * SECOND
    ensures HandleItem(cfg, After(cfg, sh, Other(kind, 0, true, now)).items, again).1
            == PerformConsume(again.db, again.session, again.packet)
  {
    hide PerformDrop, PerformPickup, PerformConsume, ValidSection, W.ActionLimit, W.Charge, Find, Before, Economy.Good;
    var l := After(cfg, sh, Other(kind, 0, true, now)).items;
    assert l == sh.items.(floor := Some(0));
    forall k
      ensures !CachedAt(l.history, again.packet.id, k)
    {
    }
    FindNotCached(l.history, again.packet.id);
    QuietGrants(cfg, l, again.now);
  }

  /** Both consumptions take their share of the stock. */
  lemma ConsumedTwice(first: Event)
    requires first.packet.count > 0 && Economy.Good(first.db)
    requires Before(first.db, first.session, first.packet) >= 2 * first.packet.count
    ensures var last := PerformConsume(Left(first), first.session, first.packet);
      && Left(first) != first.db && last.db != Left(first)
      && Before(last.db, first.session, first.packet)
         == Before(first.db, first.session, first.packet) - 2 * first.packet.count
  {
    ConsumeReply(first.db, first.session, first.packet);
    LeftGood(first);
    ConsumeReply(Left(first), first.session, first.packet);
    hide Before, PerformConsume, Economy.Good;
  }

  lemma LeftGood(first: Event)
    requires Economy.Good(first.db)
    ensures Economy.Good(Left(first))
  {
    hide Economy.Good, Economy.Apply, Economy.Holdings;
    var op := Economy.Consume(first.session.uuid, first.packet.section, first.packet.count);
    Economy.StepBalanced(first.db, op, JsonSize, (s: string, b: int) => true);
  }

  /**
   * The proviso of `ItemRuns.AtMostOnce` is needed: from a new session on, a consumption is accepted, 256 others push
   * its result out of the ring, a stale action of another opcode lowers the floor to 0, and the consumption with the
   * same id is accepted again. Every packet meets the database that the one before it left.
   */
  lemma LoweredFloorReopens(cfg: Config, first: Event, kind: Kind)
    requires Opens(cfg, first)
    ensures var run := Twice(first, Left(first), kind);
      && |run| == CACHE + 3 && InOrder(run) && run[0] == Item(first)
      && run[CACHE + 2].Item? && run[CACHE + 2].event.packet == first.packet
      && (forall q :: 0 < q < |run| && run[q].Item? ==> run[q].event.db == HandleItem(cfg, START.items, first).1.db)
      && (forall q :: 0 < q <= CACHE ==> !Applies(cfg, At(cfg, START, run, q), run[q]))
      && Applies(cfg, At(cfg, START, run, 0), run[0])
      && Applies(cfg, At(cfg, START, run, CACHE + 2), run[CACHE + 2])
      && Before(HandleItem(cfg, At(cfg, START, run, CACHE + 2).items, run[CACHE + 2].event).1.db,
                first.session, first.packet)
         == Before(first.db, first.session, first.packet) - 2 * first.packet.count
  {
    hide After, PerformConsume, HandleItem, WellFilled, Filled, Before, Economy.Good, ValidSection;
    var db := Left(first);
    var filled := Filled(first, db, CACHE);
    var run := Twice(first, db, kind);
    FilledAt(first, db, CACHE);
    Fill(cfg, first, db, CACHE);
    FirstFills(cfg, first);
    ConsumedTwice(first);
    var other, again := run[CACHE + 1], run[CACHE + 2];
    AtPrefix(cfg, START, filled, [other, again], CACHE + 1);
    assert run == filled + [other, again];
    assert At(cfg, START, run, CACHE + 2) == After(cfg, At(cfg, START, run, CACHE + 1), other);
    AgainPerformed(cfg, first, again.event, kind, other.now, At(cfg, START, run, CACHE + 1));
    forall q | 0 < q <= CACHE
      ensures !Applies(cfg, At(cfg, START, run, q), run[q])
    {
      assert run[q] == Filler(first, db, q);
      FillerKeeps(cfg, At(cfg, START, run, q), first, db, q);
    }
    assert run[CACHE + 2] == again && At(cfg, START, run, 0) == START;
  }
}
