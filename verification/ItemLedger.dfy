/** Idempotent, rate-limited item actions of one session (`internal/game/item_ledger.go`, `handleItemConsume`). */
module ItemLedger {
  import opened Basics
  import opened Inventory
  import Economy
  import W = RollingWindow

  const CACHE: nat := 256
  const RANGE: real := 3.0
  const BOUND: real := 10000.0
  const INT16_MAX: int := 32767
  const INT16_MIN: int := -32768

  datatype Action = Drop | Pickup | Consume | Unknown(code: int)

  datatype Packet = Packet(id: nat, action: Action, section: string, count: nat, itemId: nat, x: real, y: real, z: real,
      condition: nat)

  datatype Verdict = OK | Rejected | Corrected

  datatype Update = Update(id: nat, verdict: Verdict, action: Action, itemId: int, count: int, section: string, x: real,
      y: real, z: real, condition: int)

  /** The update sent back, whether sessions near the item hear it too, and whether the inventory is sent again. */
  datatype Response = Response(update: Update, broadcast: bool, resync: bool)

  datatype Session = Session(uuid: string, level: string, x: real, y: real, z: real)

  datatype Config = Config(maxPerS: real, maxPerLevel: int, printable: char -> bool)

  datatype Entry = Entry(id: nat, update: Update)

  /** The floor, every result ever recorded, and the log of the rate limit. */
  datatype Ledger = Ledger(floor: Option<nat>, history: seq<Entry>, rate: seq<W.Spend>)

  datatype Outcome = Outcome(db: Economy.State, response: Response, recorded: bool)

  // ---- The gate ----

  function Rejection(p: Packet): Update {
    Update(p.id, Rejected, p.action, 0, 0, p.section, 0.0, 0.0, 0.0, 0)
  }

  /** The results the ring still holds. */
  function Newest(history: seq<Entry>): seq<Entry> {
    if |history| > CACHE then history[|history| - CACHE..] else history
  }

  function Find(entries: seq<Entry>, id: nat): Option<Update> {
    if entries == [] then None
    else if entries[0].id == id then Some(entries[0].update)
    else Find(entries[1..], id)
  }

  predicate Stale(floor: Option<nat>, id: nat) {
    floor.Some? && id <= floor.value
  }

  function Record(l: Ledger, id: nat, update: Update): Ledger {
    l.(floor := Some(id), history := l.history + [Entry(id, update)])
  }

  ghost function Handle(cfg: Config, l: Ledger, db: Economy.State, s: Session, p: Packet, now: int): (Ledger, Outcome) {
    if p.action.Unknown? then (l, Outcome(db, Response(Rejection(p), false, false), false))
    else if Find(Newest(l.history), p.id).Some? then
      (l, Outcome(db, Response(Find(Newest(l.history), p.id).value, false, false), false))
    else if Stale(l.floor, p.id) then (l, Outcome(db, Response(Rejection(p), false, true), false))
    else
      var (grant, rate) := W.Charge(l.rate, W.ActionLimit(cfg.maxPerS) as real, SECOND, now, 1.0);
      var charged := l.(rate := rate);
      if grant.None? then (charged, Outcome(db, Response(Rejection(p), false, false), false))
      else
        var done := Perform(cfg, db, s, p, now);
        (if done.recorded then Record(charged, p.id, done.response.update) else charged, done)
  }

  // ---- The three actions ----

  /** The nearest coordinate of the playable box. */
  function ClampCoord(v: real): (r: real)
    ensures -10000.0 <= r <= 10000.0 && (r < v ==> r == 10000.0) && (r > v ==> r == -10000.0)
  {
    if v > BOUND then BOUND else if v < -BOUND then -BOUND else v
  }

  /** The nearest 16-bit number. */
  function ClampCount(n: int): (r: int)
    ensures -32768 <= r <= 32767 && (r < n ==> r == 32767) && (r > n ==> r == -32768)
  {
    if n > INT16_MAX then INT16_MAX else if n < INT16_MIN then INT16_MIN else n
  }

  predicate ValidSection(section: string, printable: char -> bool) {
    section != "" && |section| <= 63 && forall i :: 0 <= i < |section| ==> printable(section[i])
  }

  function Available(rows: seq<InvRow>, uuid: string, section: string): int {
    Total(Held(rows, uuid, section, -1))
  }

  function JsonSize(items: seq<Economy.StashItem>): int { 0 }

  ghost function Perform(cfg: Config, db: Economy.State, s: Session, p: Packet, now: int): Outcome
    requires !p.action.Unknown?
  {
    if s.uuid == "" then Outcome(db, Response(Rejection(p), false, false), false)
    else if !ValidSection(p.section, cfg.printable) then Outcome(db, Response(Rejection(p), false, true), false)
    else match p.action
      case Drop => PerformDrop(cfg, db, s, p, now)
      case Consume => PerformConsume(db, s, p)
      case Pickup => PerformPickup(db, s, p)
  }

  function DropOp(cfg: Config, s: Session, p: Packet, now: int): Economy.Op {
    Economy.Drop(s.uuid, s.level, p.section, p.count, ClampCoord(p.x), ClampCoord(p.y), ClampCoord(p.z),
                 if p.condition > 100 then 100 else p.condition, cfg.maxPerLevel, now)
  }

  function DropUpdate(p: Packet, reply: Economy.Reply): (Update, bool) {
    match reply
    case Dropped(id, left, condition) =>
      (Update(p.id, OK, Drop, id, ClampCount(-(p.count as int)), p.section, ClampCoord(p.x), ClampCoord(p.y),
          ClampCoord(p.z), WireBucket(condition)), false)
    case Refused(InsufficientItems(held)) => (Rejection(p).(verdict := Corrected, count := ClampCount(-held)), false)
    case _ => (Rejection(p), true)
  }

  ghost function PerformDrop(cfg: Config, db: Economy.State, s: Session, p: Packet, now: int): Outcome {
    if p.count == 0 then Outcome(db, Response(Rejection(p), false, true), false)
    else
      var (after, reply) := Economy.DropSpec(db, DropOp(cfg, s, p, now));
      var (update, resync) := DropUpdate(p, reply);
      Outcome(after, Response(update, reply.Dropped?, resync), true)
  }

  ghost function PerformConsume(db: Economy.State, s: Session, p: Packet): Outcome {
    if p.count == 0 then Outcome(db, Response(Rejection(p), false, true), true)
    else
      var (after, reply) := Economy.Apply(db, Economy.Consume(s.uuid, p.section, p.count), JsonSize);
      var update :=
        if reply.Consumed? then
          Update(p.id, OK, p.action, 0, ClampCount(-(p.count as int)), p.section, 0.0, 0.0, 0.0, p.condition)
        else
          var held := Available(after.inventory, s.uuid, p.section);
          Rejection(p).(verdict := Corrected, count := ClampCount(-held));
      Outcome(after, Response(update, false, false), true)
  }

  predicate InReach(wi: Economy.WorldRow, s: Session) {
    var dx, dy, dz := wi.x - s.x, wi.y - s.y, wi.z - s.z;
    wi.level == s.level && dx * dx + dy * dy + dz * dz <= RANGE * RANGE
  }

  ghost function PerformPickup(db: Economy.State, s: Session, p: Packet): Outcome {
    if p.itemId == 0 then Outcome(db, Response(Rejection(p), false, false), false)
    else
      Economy.FindWorldExact(db.world, p.itemId);
      var f := Economy.FindWorld(db.world, p.itemId);
      if f.None? || !InReach(db.world[f.value], s) then Outcome(db, Response(Rejection(p), false, true), true)
      else
        var (after, reply) := Economy.Apply(db, Economy.Pickup(s.uuid, p.itemId), JsonSize);
        match reply
        case PickedUp(wi) => Outcome(after, Response(PickupUpdate(p, wi), true, false), true)
        case _ => Outcome(after, Response(Rejection(p), false, true), true)
  }

  function PickupUpdate(p: Packet, wi: Economy.WorldRow): Update {
    Update(p.id, OK, Pickup, wi.id, ClampCount(wi.count), wi.section, wi.x, wi.y, wi.z, WireBucket(wi.condition))
  }

  // ---- The per-session state ----

  class SessionLedger {
    var lastActionID: nat
    var hasLast: bool
    var cache: array<Entry>
    var cachePos: nat
    var cacheLen: nat
    const rate: W.Window
    ghost var history: seq<Entry>

    /** The ring holds the newest results, each in the slot of its number. */
    ghost predicate Valid()
      reads this, cache, rate, rate.log
    {
      && rate.Valid() && W.Units(rate.Entries())
      && Ring(cache[..], cachePos, cacheLen, history)
    }

    ghost function Value(): Ledger
      reads this, rate, rate.log
      requires rate.Valid()
    {
      Ledger(if hasLast then Some(lastActionID) else None, history, rate.Entries())
    }

    constructor ()
      ensures Valid() && fresh(cache) && fresh(rate) && fresh(rate.log)
      ensures Value() == Ledger(None, [], [])
    {
      lastActionID, hasLast, cachePos, cacheLen, history := 0, false, 0, 0, [];
      var empty := Entry(0, Update(0, Rejected, Drop, 0, 0, "", 0.0, 0.0, 0.0, 0));
      cache := new Entry[CACHE](_ => empty);
      rate := new W.Window();
    }

    method Lookup(id: nat) returns (r: Option<Update>)
      requires Valid() && Spaced(history)
      ensures r == Find(Newest(history), id)
    {
      hide Find;
      for i := 0 to cacheLen
        invariant forall j :: 0 <= j < i ==> cache[..][j].id != id
      {
        if cache[i].id == id {
          HitInRing(cache[..], cachePos, cacheLen, history, i);
          return Some(cache[i].update);
        }
      }
      MissInRing(cache[..], cachePos, cacheLen, history, id);
      return None;
    }

    method IsStale(id: nat) returns (r: bool)
      requires Valid()
      ensures r == Stale(Value().floor, id)
    {
      return hasLast && id <= lastActionID;
    }

    /** What every recorded result of any opcode does to the shared floor. */
    method RecordFloor(id: nat)
      requires Valid()
      modifies this`lastActionID, this`hasLast
      ensures Valid() && Value() == old(Value()).(floor := Some(id))
    {
      lastActionID, hasLast := id, true;
    }

    method RecordResult(id: nat, update: Update)
      requires Valid()
      modifies this`lastActionID, this`hasLast, this`cachePos, this`cacheLen, this`history, cache
      ensures Valid() && Value() == Record(old(Value()), id, update)
    {
      RingPush(cache[..], cachePos, cacheLen, history, Entry(id, update));
      RecordFloor(id);
      cache[cachePos] := Entry(id, update);
      cachePos := (cachePos + 1) % CACHE;
      if cacheLen < CACHE {
        cacheLen := cacheLen + 1;
      }
      history := history + [Entry(id, update)];
    }

    method HandleItemAction(cfg: Config, db: Economy.Database, s: Session, p: Packet, now: int) returns (r: Response)
      requires Valid() && Spaced(history)
      modifies this, cache, rate, rate.log, db
      ensures Valid() && Spaced(history) && cache == old(cache) && (rate.log == old(rate.log) || fresh(rate.log))
      ensures var (l, done) := Handle(cfg, old(Value()), old(db.Snapshot()), s, p, now);
        Value() == l && db.Snapshot() == done.db && r == done.response
    {
      hide Perform, W.Charge, W.ActionLimit, Ring, Find, W.Units;
      StepSpaced(cfg, Value(), db.Snapshot(), s, p, now);
      if p.action.Unknown? {
        return Response(Rejection(p), false, false);
      }
      var cached := Lookup(p.id);
      if cached.Some? {
        return Response(cached.value, false, false);
      }
      var stale := IsStale(p.id);
      if stale {
        return Response(Rejection(p), false, true);
      }
      var allowed := W.AllowAction(rate, cfg.maxPerS, now);
      if !allowed {
        return Response(Rejection(p), false, false);
      }
      var recorded;
      r, recorded := Dispatch(cfg, db, s, p, now);
      if recorded {
        RecordResult(p.id, r.update);
      }
    }
  }

  /** What follows the gate; the caller records the update of a result that is kept. */
  method Dispatch(cfg: Config, db: Economy.Database, s: Session, p: Packet, now: int)
    returns (r: Response, recorded: bool)
    requires !p.action.Unknown?
    modifies db
    ensures Outcome(db.Snapshot(), r, recorded) == Perform(cfg, old(db.Snapshot()), s, p, now)
  {
    hide PerformDrop, PerformConsume, PerformPickup;
    if s.uuid == "" {
      return Response(Rejection(p), false, false), false;
    }
    if !ValidSection(p.section, cfg.printable) {
      return Response(Rejection(p), false, true), false;
    }
    match p.action
    case Drop => r, recorded := HandleDrop(cfg, db, s, p, now);
    case Consume => r, recorded := HandleConsume(db, s, p);
    case Pickup => r, recorded := HandlePickup(db, s, p);
  }

  method HandleDrop(cfg: Config, db: Economy.Database, s: Session, p: Packet, now: int)
    returns (r: Response, recorded: bool)
    modifies db
    ensures Outcome(db.Snapshot(), r, recorded) == PerformDrop(cfg, old(db.Snapshot()), s, p, now)
  {
    hide WireBucket, Economy.DropSpec;
    if p.count == 0 {
      return Response(Rejection(p), false, true), false;
    }
    var preferred := if p.condition > 100 then 100 else p.condition;
    var reply := db.DropItem(s.uuid, s.level, p.section, p.count, ClampCoord(p.x), ClampCoord(p.y), ClampCoord(p.z),
        preferred, cfg.maxPerLevel, now);
    var (update, resync) := DropUpdate(p, reply);
    return Response(update, reply.Dropped?, resync), true;
  }

  method HandleConsume(db: Economy.Database, s: Session, p: Packet) returns (r: Response, recorded: bool)
    modifies db
    ensures Outcome(db.Snapshot(), r, recorded) == PerformConsume(old(db.Snapshot()), s, p)
  {
    if p.count == 0 {
      return Response(Rejection(p), false, true), true;
    }
    var reply := db.ConsumeItem(s.uuid, p.section, p.count, JsonSize);
    if !reply.Consumed? {
      var held := Available(db.inventory, s.uuid, p.section);
      return Response(Rejection(p).(verdict := Corrected, count := ClampCount(-held)), false, false), true;
    }
    var update := Update(p.id, OK, p.action, 0, ClampCount(-(p.count as int)), p.section, 0.0, 0.0, 0.0, p.condition);
    return Response(update, false, false), true;
  }

  method HandlePickup(db: Economy.Database, s: Session, p: Packet) returns (r: Response, recorded: bool)
    modifies db
    ensures Outcome(db.Snapshot(), r, recorded) == PerformPickup(old(db.Snapshot()), s, p)
  {
    hide WireBucket, InReach;
    if p.itemId == 0 {
      return Response(Rejection(p), false, false), false;
    }
    Economy.FindWorldExact(db.world, p.itemId);
    var f := Economy.FindWorld(db.world, p.itemId);
    if f.None? || !InReach(db.world[f.value], s) {
      return Response(Rejection(p), false, true), true;
    }
    var reply := db.PickupItem(s.uuid, p.itemId, JsonSize);
    if !reply.PickedUp? {
      return Response(Rejection(p), false, true), true;
    }
    return Response(PickupUpdate(p, reply.item), true, false), true;
  }

  // ---- The ring ----

  ghost predicate Ring(cache: seq<Entry>, pos: nat, len: nat, history: seq<Entry>) {
    && |cache| == CACHE
    && pos == |history| % CACHE
    && len == (if |history| < CACHE then |history| else CACHE)
    && forall k :: 0 <= k < |history| && |history| - CACHE <= k ==> cache[k % CACHE] == history[k]
  }

  /** No id stands twice among the results that the ring holds. */
  ghost predicate Spaced(history: seq<Entry>) {
    forall i, j :: 0 <= i < j < |history| && |history| - CACHE <= i ==> history[i].id != history[j].id
  }

  /** Result `k` is of `id`, and among the newest. */
  ghost predicate CachedAt(history: seq<Entry>, id: nat, k: int) {
    0 <= k < |history| && |history| - 256 <= k && history[k].id == id
  }

  ghost predicate Cached(history: seq<Entry>, id: nat) { exists k :: CachedAt(history, id, k) }

  lemma RingPush(cache: seq<Entry>, pos: nat, len: nat, history: seq<Entry>, e: Entry)
    requires Ring(cache, pos, len, history)
    ensures pos < CACHE
    ensures Ring(cache[pos := e], (pos + 1) % CACHE, if len < CACHE then len + 1 else len, history + [e])
  {
    var h := history + [e];
    forall k | 0 <= k < |h| && |h| - CACHE <= k
      ensures cache[pos := e][k % CACHE] == h[k]
    {
    }
  }

  /** The number of the result in slot `i`. */
  lemma SlotNumber(n: nat, len: nat, i: nat) returns (k: nat)
    requires len == (if n < CACHE then n else CACHE) && i < len
    ensures k < n && n - CACHE <= k && k % CACHE == i
  {
    if n < CACHE {
      k := i;
    } else {
      var first := n - CACHE;
      var shift := (i - first) % CACHE;
      k := first + shift;
      assert k % CACHE == i;
    }
  }

  lemma HitInRing(cache: seq<Entry>, pos: nat, len: nat, history: seq<Entry>, i: nat)
    requires Ring(cache, pos, len, history) && Spaced(history) && i < len
    ensures Find(Newest(history), cache[i].id) == Some(cache[i].update)
  {
    var k := SlotNumber(|history|, len, i);
    FindCached(history, cache[i].id, k);
  }

  lemma MissInRing(cache: seq<Entry>, pos: nat, len: nat, history: seq<Entry>, id: nat)
    requires Ring(cache, pos, len, history)
    requires forall j :: 0 <= j < len ==> cache[j].id != id
    ensures Find(Newest(history), id) == None
  {
    forall k | 0 <= k < |history| && |history| - CACHE <= k
      ensures history[k].id != id
    {
      assert history[k] == cache[k % CACHE];
    }
    FindNotCached(history, id);
  }

  lemma {:induction false} FindUnique(entries: seq<Entry>, j: nat)
    requires j < |entries| && forall i :: 0 <= i < j ==> entries[i].id != entries[j].id
    ensures Find(entries, entries[j].id) == Some(entries[j].update)
  {
    if j > 0 {
      FindUnique(entries[1..], j - 1);
    }
  }

  lemma {:induction false} FindNone(entries: seq<Entry>, id: nat)
    requires forall j :: 0 <= j < |entries| ==> entries[j].id != id
    ensures Find(entries, id) == None
  {
    if entries != [] {
      FindNone(entries[1..], id);
    }
  }

  /** The search finds the held result of an id, ... */
  lemma FindCached(history: seq<Entry>, id: nat, k: int)
    requires Spaced(history) && CachedAt(history, id, k)
    ensures Find(Newest(history), id) == Some(history[k].update)
  {
    hide Find;
    var newest := Newest(history);
    var first := |history| - |newest|;
    assert newest[k - first] == history[k];
    forall i | 0 <= i < k - first
      ensures newest[i].id != newest[k - first].id
    {
      assert newest[i] == history[first + i];
    }
    FindUnique(newest, k - first);
  }

  /** ... and nothing when none is held. */
  lemma FindNotCached(history: seq<Entry>, id: nat)
    requires !Cached(history, id)
    ensures Find(Newest(history), id) == None
  {
    hide Find;
    var newest := Newest(history);
    forall j | 0 <= j < |newest|
      ensures newest[j].id != id
    {
      assert newest[j] == history[|history| - |newest| + j];
      assert !CachedAt(history, id, |history| - |newest| + j);
    }
    FindNone(newest, id);
  }

  // ---- The gate, exactly ----

  /** Nothing but the gate's own reply: the database and the ledger stay as they are. */
  ghost predicate Inert(l: Ledger, db: Economy.State, result: (Ledger, Outcome)) {
    result.0 == l && result.1.db == db && !result.1.recorded && !result.1.response.broadcast
  }

  /** A recorded result has an id above the floor that the ring does not hold, and becomes the floor. */
  lemma StepSpaced(cfg: Config, l: Ledger, db: Economy.State, s: Session, p: Packet, now: int)
    requires Spaced(l.history)
    ensures var (after, done) := Handle(cfg, l, db, s, p, now);
      && Spaced(after.history)
      && after.history == l.history + (if done.recorded then [Entry(p.id, done.response.update)] else [])
      && after.floor == (if done.recorded then Some(p.id) else l.floor)
      && (done.recorded ==> !Cached(l.history, p.id) && !Stale(l.floor, p.id))
  {
    hide Perform, W.Charge, W.ActionLimit, Find;
    var (after, done) := Handle(cfg, l, db, s, p, now);
    if done.recorded {
      forall k
        ensures !CachedAt(l.history, p.id, k)
      {
        if CachedAt(l.history, p.id, k) { FindCached(l.history, p.id, k); }
      }
      forall i, j | 0 <= i < j < |after.history| && |after.history| - CACHE <= i
        ensures after.history[i].id != after.history[j].id
      {
        assert i < |l.history| && !CachedAt(l.history, p.id, i);
      }
    }
  }

  /**
   * What a packet meets. Held by the ring: its result again. Otherwise at or below the floor: a rejection with
   * a resync. Both change nothing and cost nothing. Otherwise, if the rate allows: the transaction.
   */
  lemma GateExact(cfg: Config, l: Ledger, db: Economy.State, s: Session, p: Packet, now: int)
    requires Spaced(l.history) && !p.action.Unknown?
    ensures var result := Handle(cfg, l, db, s, p, now);
      && (Cached(l.history, p.id) || Stale(l.floor, p.id) ==> Inert(l, db, result))
      && (forall k :: CachedAt(l.history, p.id, k) ==> result.1.response == Response(l.history[k].update, false, false))
      && (!Cached(l.history, p.id) && Stale(l.floor, p.id) ==> result.1.response == Response(Rejection(p), false, true))
      && (!Cached(l.history, p.id) && !Stale(l.floor, p.id) ==>
            result.1 == if Granted(cfg, l, now) then Perform(cfg, db, s, p, now)
                        else Outcome(db, Response(Rejection(p), false, false), false))
  {
    hide Perform, W.Charge, W.ActionLimit, Find;
    if Cached(l.history, p.id) {
      forall k | CachedAt(l.history, p.id, k)
        ensures Find(Newest(l.history), p.id) == Some(l.history[k].update)
      {
        FindCached(l.history, p.id, k);
      }
    } else {
      FindNotCached(l.history, p.id);
    }
  }

  /** The rate limit lets one more action pass. */
  ghost predicate Granted(cfg: Config, l: Ledger, now: int) {
    W.Charge(l.rate, W.ActionLimit(cfg.maxPerS) as real, SECOND, now, 1.0).0.Some?
  }

  /** That is, as long as fewer than the limit were accepted in the last second. */
  lemma GrantedIff(cfg: Config, l: Ledger, now: int)
    requires W.Units(l.rate)
    ensures Granted(cfg, l, now) <==> |W.LaterThan(l.rate, now - 1_000_000_000)| < W.ActionLimit(cfg.maxPerS)
  {
    hide W.ActionLimit, W.LaterThan;
    W.UnitCharge(l.rate, W.ActionLimit(cfg.maxPerS), SECOND, now);
    W.RecentCounts(l.rate, now - SECOND);
  }

  /** A change of the database comes with a recorded result. */
  lemma ChangeIsRecorded(cfg: Config, l: Ledger, db: Economy.State, s: Session, p: Packet, now: int)
    ensures var (after, done) := Handle(cfg, l, db, s, p, now);
      done.db != db ==> done.recorded && done.response.update.verdict == OK && done.response.update.id == p.id
  {
    hide W.Charge, W.ActionLimit, Find, WireBucket, InReach, Available, ValidSection, Newest;
    if !p.action.Unknown? {
      PerformRecords(cfg, db, s, p, now);
    }
  }

  lemma PerformRecords(cfg: Config, db: Economy.State, s: Session, p: Packet, now: int)
    requires !p.action.Unknown?
    ensures var done := Perform(cfg, db, s, p, now);
      done.db != db ==> done.recorded && done.response.update.verdict == OK && done.response.update.id == p.id
  {
    hide WireBucket, InReach, Available, ValidSection, Inventory.Remove, Inventory.Credit;
    Economy.RefusedChangesNothing(db, DropOp(cfg, s, p, now), JsonSize);
    Economy.RefusedChangesNothing(db, Economy.Consume(s.uuid, p.section, p.count), JsonSize);
    Economy.RefusedChangesNothing(db, Economy.Pickup(s.uuid, p.itemId), JsonSize);
  }
}
