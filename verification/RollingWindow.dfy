/**
 * The rolling windows behind the damage budget (`internal/game/damage.go`), the item-action limit
 * (`internal/game/item_ledger.go`) and the chat limit (`internal/network/session.go`).
 */
module RollingWindow {
  import opened Basics

  const CHAT_PERIOD: int := 5 * SECOND
  const CHAT_LIMIT: nat := 5
  const DEFAULT_HIT: real := 150.0
  const SANE_HIT: real := 250.0

  /** One accepted event; a bare time stamp is a spend of 1. */
  datatype Spend = Spend(at: int, amount: real)

  function Recent(s: seq<Spend>, cutoff: int): (r: seq<Spend>)
    ensures |r| <= |s|
  {
    if s == [] then []
    else
      var rest := Recent(s[..|s| - 1], cutoff);
      if s[|s| - 1].at > cutoff then rest + [s[|s| - 1]] else rest
  }

  function Sum(s: seq<Spend>): real {
    if s == [] then 0.0 else Sum(s[..|s| - 1]) + s[|s| - 1].amount
  }

  lemma EmptyLog(cutoff: int)
    ensures Recent([], cutoff) == [] && Sum([]) == 0.0
  {
  }

  lemma RecentSnoc(s: seq<Spend>, e: Spend, cutoff: int)
    ensures Recent(s + [e], cutoff) == if e.at > cutoff then Recent(s, cutoff) + [e] else Recent(s, cutoff)
  {
    assert (s + [e])[..|s|] == s;
  }

  lemma SumSnoc(s: seq<Spend>, e: Spend)
    ensures Sum(s + [e]) == Sum(s) + e.amount
  {
    assert (s + [e])[..|s|] == s;
  }

  /** What the window (until - period, until] grants of `amount`, and the log it leaves. */
  function Charge(s: seq<Spend>, budget: real, period: int, now: int, amount: real): (Option<real>, seq<Spend>) {
    var kept := Recent(s, now - period);
    var remaining := budget - Sum(kept);
    if remaining <= 0.0 then (None, kept)
    else
      var granted := if amount > remaining then remaining else amount;
      (Some(granted), kept + [Spend(now, granted)])
  }

  /** A log kept in a buffer that is pruned in place and grows only when it is full. */
  class Window {
    var log: array<Spend>
    var len: nat

    ghost predicate Valid()
      reads this
    {
      len <= log.Length
    }

    ghost function Entries(): seq<Spend>
      reads this, log
      requires Valid()
    {
      log[..len]
    }

    constructor ()
      ensures Valid() && fresh(log) && Entries() == []
    {
      log, len := new Spend[0], 0;
    }

    /** Moves the entries after `cutoff` to the front, reading and writing the same buffer. */
    method Prune(cutoff: int) returns (spent: real)
      requires Valid()
      modifies this`len, log
      ensures Valid() && log == old(log)
      ensures Entries() == Recent(old(Entries()), cutoff) && spent == Sum(Entries())
    {
      hide Recent, Sum;
      ghost var was := log[..len];
      var kept, i := 0, 0;
      spent := 0.0;
      EmptyLog(cutoff);
      while i < len
        invariant 0 <= kept <= i <= len == |was|
        invariant log[i..len] == was[i..]
        invariant log[..kept] == Recent(was[..i], cutoff) && spent == Sum(log[..kept])
      {
        var e := log[i];
        RecentSnoc(was[..i], was[i], cutoff);
        assert was[..i + 1] == was[..i] + [e];
        if e.at > cutoff {
          SumSnoc(log[..kept], e);
          log[kept] := e;
          assert log[..kept + 1] == log[..kept] + [e];
          kept := kept + 1;
          spent := spent + e.amount;
        }
        i := i + 1;
      }
      assert was[..len] == was;
      len := kept;
    }

    method Append(e: Spend)
      requires Valid()
      modifies this, log
      ensures Valid() && (log == old(log) || fresh(log))
      ensures Entries() == old(Entries()) + [e]
    {
      if len == log.Length {
        var bigger := new Spend[2 * len + 1];
        forall i | 0 <= i < len {
          bigger[i] := log[i];
        }
        log := bigger;
      }
      log[len] := e;
      len := len + 1;
    }

    method ChargeBudget(budget: real, now: int, amount: real) returns (r: Option<real>)
      requires Valid()
      modifies this, log
      ensures Valid() && (log == old(log) || fresh(log))
      ensures (r, Entries()) == Charge(old(Entries()), budget, SECOND, now, amount)
    {
      var spent := Prune(now - SECOND);
      var remaining := budget - spent;
      if remaining <= 0.0 {
        return None;
      }
      var granted := if amount > remaining then remaining else amount;
      Append(Spend(now, granted));
      return Some(granted);
    }

    /** At most `limit` stamps a period; a refused event leaves the pruned log. */
    method AllowCount(limit: nat, period: int, now: int) returns (ok: bool)
      requires Valid() && Units(Entries())
      modifies this, log
      ensures Valid() && (log == old(log) || fresh(log)) && Units(Entries())
      ensures (if ok then Some(1.0) else None, Entries()) == Charge(old(Entries()), limit as real, period, now, 1.0)
    {
      var _ := Prune(now - period);
      RecentUnits(old(Entries()), now - period);
      if len >= limit {
        return false;
      }
      Append(Spend(now, 1.0));
      return true;
    }
  }

  ghost predicate Units(s: seq<Spend>) {
    forall i :: 0 <= i < |s| ==> s[i].amount == 1.0
  }

  lemma {:induction false} RecentUnits(s: seq<Spend>, cutoff: int)
    requires Units(s)
    ensures Units(Recent(s, cutoff)) && Sum(Recent(s, cutoff)) == |Recent(s, cutoff)| as real
  {
    if s != [] {
      RecentUnits(s[..|s| - 1], cutoff);
      var r := Recent(s, cutoff);
      if s[|s| - 1].at > cutoff {
        assert r[..|r| - 1] == Recent(s[..|s| - 1], cutoff);
      }
    }
  }

  /** The numbers of the entries after `cutoff`. */
  ghost function LaterThan(s: seq<Spend>, cutoff: int): set<nat> {
    set i: nat | i < |s| && s[i].at > cutoff
  }

  lemma {:induction false} RecentCounts(s: seq<Spend>, cutoff: int)
    ensures |Recent(s, cutoff)| == |LaterThan(s, cutoff)|
  {
    if s != [] {
      var front, last := s[..|s| - 1], |s| - 1;
      RecentCounts(front, cutoff);
      assert LaterThan(s, cutoff) == LaterThan(front, cutoff) + (if s[last].at > cutoff then {last} else {});
    }
  }

  // ---- The callers ----

  /** The per-second limit of the item ledger: whole actions, at least one, five by default. */
  function ActionLimit(configured: real): (n: nat)
    ensures configured <= 0.0 ==> n == 5
    ensures 0.0 < configured < 1.0 ==> n == 1
    ensures configured >= 1.0 ==> n as real <= configured < n as real + 1.0
  {
    var perSecond := if configured <= 0.0 then 5.0 else configured;
    if perSecond.Floor < 1 then 1 else perSecond.Floor
  }

  /** The damage one hit asks the budget for; None when it fails the sanity checks. */
  function HitAmount(damage: real, maxPerHit: real): (r: Option<real>)
    ensures r.Some? <==> 0.0 < damage <= 250.0
    ensures r.Some? ==> 0.0 < r.value <= damage && r.value <= (if maxPerHit <= 0.0 then 150.0 else maxPerHit)
    ensures r.Some? ==> r.value == damage || r.value == (if maxPerHit <= 0.0 then 150.0 else maxPerHit)
  {
    var most := if maxPerHit <= 0.0 then DEFAULT_HIT else maxPerHit;
    if damage <= 0.0 || damage > SANE_HIT then None
    else Some(if damage > most then most else damage)
  }

  /** The end of both damage validators: sanity checks, the cap of one hit, then the budget, if there is one. */
  method AcceptHit(w: Window, budget: real, maxPerHit: real, now: int, damage: real) returns (r: Option<real>)
    requires w.Valid()
    modifies w, w.log
    ensures w.Valid() && (w.log == old(w.log) || fresh(w.log))
    ensures damage <= 0.0 || damage > 250.0 ==> r == None && w.Entries() == old(w.Entries())
    ensures var most := if maxPerHit <= 0.0 then 150.0 else maxPerHit;
      var hit := if damage > most then most else damage;
      0.0 < damage <= 250.0 ==>
        if budget <= 0.0 then r == Some(hit) && w.Entries() == old(w.Entries())
        else (r, w.Entries()) == Charge(old(w.Entries()), budget, 1_000_000_000, now, hit)
    ensures r.Some? ==> r.value > 0.0
  {
    var amount := HitAmount(damage, maxPerHit);
    if amount.None? {
      return None;
    }
    if budget <= 0.0 {
      return amount;
    }
    r := w.ChargeBudget(budget, now, amount.value);
    if r.Some? && r.value <= 0.0 {
      r := None;
    }
  }

  method AllowAction(w: Window, configured: real, now: int) returns (ok: bool)
    requires w.Valid() && Units(w.Entries())
    modifies w, w.log
    ensures w.Valid() && (w.log == old(w.log) || fresh(w.log)) && Units(w.Entries())
    ensures (if ok then Some(1.0) else None, w.Entries())
            == Charge(old(w.Entries()), ActionLimit(configured) as real, SECOND, now, 1.0)
    ensures ok <==> |LaterThan(old(w.Entries()), now - 1_000_000_000)| < ActionLimit(configured)
  {
    UnitCharge(w.Entries(), ActionLimit(configured), SECOND, now);
    RecentCounts(w.Entries(), now - SECOND);
    ok := w.AllowCount(ActionLimit(configured), SECOND, now);
  }

  method AllowChat(w: Window, now: int) returns (ok: bool)
    requires w.Valid() && Units(w.Entries())
    modifies w, w.log
    ensures w.Valid() && (w.log == old(w.log) || fresh(w.log)) && Units(w.Entries())
    ensures (if ok then Some(1.0) else None, w.Entries())
            == Charge(old(w.Entries()), CHAT_LIMIT as real, CHAT_PERIOD, now, 1.0)
    ensures ok <==> |LaterThan(old(w.Entries()), now - 5_000_000_000)| < 5
  {
    UnitCharge(w.Entries(), CHAT_LIMIT, CHAT_PERIOD, now);
    RecentCounts(w.Entries(), now - CHAT_PERIOD);
    ok := w.AllowCount(CHAT_LIMIT, CHAT_PERIOD, now);
  }

  // ---- Runs ----

  /** Everything a run of requests is granted, in order, when the log starts as `s`. */
  function Granted(s: seq<Spend>, budget: real, period: int, run: seq<Spend>): seq<Spend>
    decreases |run|
  {
    if run == [] then []
    else
      var (g, after) := Charge(s, budget, period, run[0].at, run[0].amount);
      (if g.Some? then [Spend(run[0].at, g.value)] else []) + Granted(after, budget, period, run[1..])
  }

  /** The same limiter on a log that is never pruned. */
  function GrantedUnpruned(history: seq<Spend>, budget: real, period: int, run: seq<Spend>): seq<Spend>
    decreases |run|
  {
    if run == [] then []
    else
      var left := budget - Within(history, run[0].at - period, run[0].at);
      if left <= 0.0 then GrantedUnpruned(history, budget, period, run[1..])
      else
        var e := Spend(run[0].at, if run[0].amount > left then left else run[0].amount);
        [e] + GrantedUnpruned(history + [e], budget, period, run[1..])
  }

  predicate Requests(run: seq<Spend>, from: int) {
    run == [] || (run[0].at >= from && run[0].amount > 0.0 && Requests(run[1..], run[0].at))
  }

  /** What `s` spends at times in (from, until]. */
  function Within(s: seq<Spend>, from: int, until: int): real {
    if s == [] then 0.0
    else
      var e := s[|s| - 1];
      Within(s[..|s| - 1], from, until) + (if from < e.at <= until then e.amount else 0.0)
  }

  /** What is spent in the window that ends at `t`. */
  function Load(s: seq<Spend>, period: int, t: int): real {
    Within(s, t - period, t)
  }

  /** Positive spends, never more than `budget` in any window. */
  ghost predicate Sound(history: seq<Spend>, budget: real, period: int) {
    && (forall i :: 0 <= i < |history| ==> history[i].amount > 0.0)
    && (forall t :: Load(history, period, t) <= budget)
  }

  ghost predicate Past(history: seq<Spend>, now: int) {
    forall i :: 0 <= i < |history| ==> history[i].at <= now
  }

  lemma {:induction false} WithinIsRecent(s: seq<Spend>, from: int, until: int)
    requires forall i :: 0 <= i < |s| ==> s[i].at <= until
    ensures Within(s, from, until) == Sum(Recent(s, from))
  {
    if s != [] {
      WithinIsRecent(s[..|s| - 1], from, until);
      var r := Recent(s, from);
      if s[|s| - 1].at > from {
        assert r[..|r| - 1] == Recent(s[..|s| - 1], from);
      }
    }
  }

  lemma {:induction false} RecentAgain(s: seq<Spend>, c: int, d: int)
    requires c <= d
    ensures Recent(Recent(s, c), d) == Recent(s, d)
  {
    if s != [] {
      RecentAgain(s[..|s| - 1], c, d);
      var r := Recent(s, c);
      if s[|s| - 1].at > c {
        assert r[..|r| - 1] == Recent(s[..|s| - 1], c);
      }
    }
  }

  lemma {:induction false} WithinShrinks(s: seq<Spend>, from: int, until: int, from': int, until': int)
    requires forall i :: 0 <= i < |s| ==> s[i].amount > 0.0 && s[i].at <= until
    requires from <= from'
    ensures 0.0 <= Within(s, from', until') <= Within(s, from, until)
  {
    if s != [] {
      WithinShrinks(s[..|s| - 1], from, until, from', until');
    }
  }

  /** A grant that fits the window ending at its own time fits every window. */
  lemma GrantKeepsSound(history: seq<Spend>, budget: real, period: int, now: int, e: Spend)
    requires period > 0 && Sound(history, budget, period) && Past(history, now) && e.at >= now && e.amount > 0.0
    requires e.amount <= budget - Within(history, e.at - period, e.at)
    ensures Sound(history + [e], budget, period) && Past(history + [e], e.at)
  {
    hide Within;
    forall t
      ensures Load(history + [e], period, t) <= budget
    {
      WithinSnoc(history, e, t - period, t);
      assert Load(history, period, t) <= budget;
      if t - period < e.at <= t {
        WithinShrinks(history, e.at - period, e.at, t - period, t);
      }
    }
  }

  lemma WithinSnoc(s: seq<Spend>, e: Spend, from: int, until: int)
    ensures Within(s + [e], from, until) == Within(s, from, until) + (if from < e.at <= until then e.amount else 0.0)
  {
    assert (s + [e])[..|s|] == s;
  }

  /** A log pruned no later than the window needs grants what the whole history would grant. */
  lemma ChargeUnpruned(log: seq<Spend>, history: seq<Spend>, budget: real, period: int, now: int, amount: real,
      cutoff: int)
    requires period > 0 && Past(history, now) && cutoff <= now - period && log == Recent(history, cutoff)
    ensures var (g, after) := Charge(log, budget, period, now, amount);
      var left := budget - Within(history, now - period, now);
      && g == (if left <= 0.0 then None else Some(if amount > left then left else amount))
      && after == Recent(history + (if g.Some? then [Spend(now, g.value)] else []), now - period)
  {
    hide Recent, Sum, Within;
    RecentAgain(history, cutoff, now - period);
    WithinIsRecent(history, now - period, now);
    var g := Charge(log, budget, period, now, amount).0;
    if g.Some? {
      RecentSnoc(history, Spend(now, g.value), now - period);
    } else {
      assert history + [] == history;
    }
  }

  /**
   * A charge is paid as far as the budget of the window goes: spent and granted together are all that is asked for, or
   * the budget, and a window that has spent its budget pays nothing.
   */
  lemma ChargeFills(log: seq<Spend>, history: seq<Spend>, budget: real, period: int, now: int, amount: real)
    requires period > 0 && amount > 0.0 && Past(history, now) && log == Recent(history, now - period)
    ensures var g := Charge(log, budget, period, now, amount).0;
      var spent := Within(history, now - period, now);
      && (g.None? <==> spent >= budget)
      && (g.Some? ==> Within(history + [Spend(now, g.value)], now - period, now)
                      == if spent + amount <= budget then spent + amount else budget)
  {
    hide Recent, Sum, Within;
    ChargeUnpruned(log, history, budget, period, now, amount, now - period);
    var g := Charge(log, budget, period, now, amount).0;
    if g.Some? {
      WithinSnoc(history, Spend(now, g.value), now - period, now);
    }
  }

  /** The pruned log decides as the whole history would, and the history stays within the budget. */
  lemma {:induction false} PrunedRun(log: seq<Spend>, history: seq<Spend>, budget: real, period: int, run: seq<Spend>,
      now: int, cutoff: int)
    requires period > 0 && Sound(history, budget, period) && Past(history, now) && Requests(run, now)
    requires cutoff <= now - period && log == Recent(history, cutoff)
    ensures Granted(log, budget, period, run) == GrantedUnpruned(history, budget, period, run)
    ensures Sound(history + Granted(log, budget, period, run), budget, period)
    decreases |run|
  {
    hide Within, Sum, Recent, Charge, Sound;
    if run == [] {
      assert history + [] == history;
    } else {
      var at := run[0].at;
      ChargeUnpruned(log, history, budget, period, at, run[0].amount, cutoff);
      var (g, after) := Charge(log, budget, period, at, run[0].amount);
      if g.None? {
        assert history + [] == history;
        PrunedRun(after, history, budget, period, run[1..], at, at - period);
        assert Granted(log, budget, period, run) == Granted(after, budget, period, run[1..]);
      } else {
        var e := Spend(at, g.value);
        GrantKeepsSound(history, budget, period, now, e);
        PrunedRun(after, history + [e], budget, period, run[1..], at, at - period);
        assert (history + [e]) + Granted(after, budget, period, run[1..])
            == history + Granted(log, budget, period, run);
      }
    }
  }

  /**
   * On non-decreasing times no window (t - period, t] is ever granted more than the budget, and pruning changes no
   * grant.
   */
  lemma NeverOverBudget(budget: real, period: int, run: seq<Spend>, start: int, t: int)
    requires period > 0 && budget >= 0.0 && Requests(run, start)
    ensures Within(Granted([], budget, period, run), t - period, t) <= budget
    ensures Granted([], budget, period, run) == GrantedUnpruned([], budget, period, run)
  {
    hide Granted, GrantedUnpruned;
    PrunedRun([], [], budget, period, run, start, start - period);
    assert [] + Granted([], budget, period, run) == Granted([], budget, period, run);
    assert Load(Granted([], budget, period, run), period, t) <= budget;
  }

  function CountWithin(s: seq<Spend>, from: int, until: int): nat {
    if s == [] then 0
    else CountWithin(s[..|s| - 1], from, until) + (if from < s[|s| - 1].at <= until then 1 else 0)
  }

  lemma {:induction false} UnitsWithin(s: seq<Spend>, from: int, until: int)
    requires Units(s)
    ensures Within(s, from, until) == CountWithin(s, from, until) as real
  {
    if s != [] {
      UnitsWithin(s[..|s| - 1], from, until);
    }
  }

  /** A unit charge is granted whole or not at all. */
  lemma UnitCharge(s: seq<Spend>, limit: nat, period: int, now: int)
    requires Units(s)
    ensures var (g, after) := Charge(s, limit as real, period, now, 1.0);
      g == (if |Recent(s, now - period)| >= limit then None else Some(1.0)) && Units(after)
  {
    RecentUnits(s, now - period);
  }

  lemma {:induction false} UnitGrants(s: seq<Spend>, limit: nat, period: int, run: seq<Spend>)
    requires Units(s) && Units(run)
    ensures Units(Granted(s, limit as real, period, run))
    decreases |run|
  {
    hide Recent, Sum;
    if run != [] {
      var r := run[0];
      UnitCharge(s, limit, period, r.at);
      UnitGrants(Charge(s, limit as real, period, r.at, 1.0).1, limit, period, run[1..]);
    }
  }

  lemma {:induction false} CountIsSize(s: seq<Spend>, from: int, until: int)
    ensures CountWithin(s, from, until) == |set i: nat | i < |s| && from < s[i].at && s[i].at <= until|
  {
    if s != [] {
      var front, last := s[..|s| - 1], |s| - 1;
      CountIsSize(front, from, until);
      assert (set i: nat | i < |s| && from < s[i].at && s[i].at <= until)
          == (set i: nat | i < |front| && from < front[i].at && front[i].at <= until)
           + (if from < s[last].at <= until then {last} else {});
    }
  }

  /** At most `limit` time stamps are accepted in any window. */
  lemma NeverOverLimit(limit: nat, period: int, run: seq<Spend>, start: int, t: int)
    requires period > 0 && Requests(run, start) && Units(run)
    ensures var g := Granted([], limit as real, period, run);
      |set i: nat | i < |g| && t - period < g[i].at && g[i].at <= t| <= limit
  {
    CountIsSize(Granted([], limit as real, period, run), t - period, t);
    UnitGrants([], limit, period, run);
    UnitsWithin(Granted([], limit as real, period, run), t - period, t);
    NeverOverBudget(limit as real, period, run, start, t);
  }
}
