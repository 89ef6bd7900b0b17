/** What the replies to item actions say about the database: verdict, count, broadcast and resync. */
module ItemReplies {
  import opened Basics
  import opened Inventory
  import opened ItemLedger
  import opened EconomyOwners
  import opened EconomyAccepts

  ghost function Before(db: Economy.State, s: Session, p: Packet): int { Available(db.inventory, s.uuid, p.section) }

  lemma AvailableIsCarried(inv: seq<InvRow>, uuid: string, section: string)
    ensures Available(inv, uuid, section) == Carried(inv, uuid, OfSection(section))
  {
    HeldTotal(inv, uuid, section, -1);
  }

  /** The sender's available count of any section moves as the reply of the transaction says. */
  lemma AvailableMoves(db: Economy.State, op: Economy.Op, uuid: string, section: string)
    requires Economy.Good(db) && !op.Expire? && op.uuid == uuid
    ensures var (after, reply) := Economy.Apply(db, op, JsonSize);
            Available(after.inventory, uuid, section)
            == Available(db.inventory, uuid, section) + Intake(op, reply, OfSection(section))
  {
    hide Economy.Good, Economy.Apply, Intake, Carried, Available;
    var after := Economy.Apply(db, op, JsonSize).0;
    AvailableIsCarried(db.inventory, uuid, section);
    AvailableIsCarried(after.inventory, uuid, section);
    StepCarries(db, op, JsonSize, uuid, OfSection(section));
  }

  /** Everything but the inventory of the sender and, with a dropped or picked up item, the world. */
  ghost predicate LeavesTheRest(db: Economy.State, after: Economy.State, uuid: string) {
    && after.stashes == db.stashes && after.rubles == db.rubles
    && RowsOf(after.inventory, AllBut(uuid)) == RowsOf(db.inventory, AllBut(uuid))
  }

  ghost predicate LevelHasRoom(cfg: Config, db: Economy.State, level: string) {
    cfg.maxPerLevel > 0 ==> |RowsOn(db.world, level)| < cfg.maxPerLevel
  }

  // ---- All three ----------------------------------------------------------------------------------

  /** A section is one to 63 printable characters. */
  ghost predicate Nameable(section: string, printable: char -> bool) {
    1 <= |section| <= 63 && forall c :: c in section ==> printable(c)
  }

  /** An unknown sender or an unusable section is declined, unrecorded, before anything is looked up. */
  lemma Unusable(cfg: Config, db: Economy.State, s: Session, p: Packet, now: int)
    requires !p.action.Unknown?
    ensures var done := Perform(cfg, db, s, p, now);
      s.uuid == "" || !Nameable(p.section, cfg.printable) ==>
        && done.db == db && !done.recorded && Declines(p, done.response.update) && !done.response.broadcast
        && (done.response.resync <==> s.uuid != "")
    ensures s.uuid != "" && Nameable(p.section, cfg.printable) ==>
      Perform(cfg, db, s, p, now)
      == if p.action.Drop? then PerformDrop(cfg, db, s, p, now)
         else if p.action.Consume? then PerformConsume(db, s, p)
         else PerformPickup(db, s, p)
  {
    hide PerformDrop, PerformConsume, PerformPickup;
    if c :| c in p.section && !cfg.printable(c) {
      var i :| 0 <= i < |p.section| && p.section[i] == c;
    }
  }

  // ---- Drops ------------------------------------------------------------------------------------

  /** The world row that an accepted drop adds is the item that its update describes. */
  ghost predicate Describes(u: Update, row: Economy.WorldRow) {
    && u.itemId == row.id && u.section == row.section && u.x == row.x && u.y == row.y && u.z == row.z
    && u.condition == Percent(row.condition)
  }

  ghost predicate DropDone(db: Economy.State, s: Session, p: Packet, done: Outcome) {
    var u := done.response.update;
    && |done.db.world| == |db.world| + 1 && done.db.world[..|db.world|] == db.world
    && (var row := done.db.world[|db.world|];
        && Describes(u, row) && row.level == s.level && row.section == p.section && row.count == p.count
        && row.x == ClampCoord(p.x) && row.y == ClampCoord(p.y) && row.z == ClampCoord(p.z)
        && DropsFirst(db, s, p, row)
        && forall i :: 0 <= i < |db.world| ==> db.world[i].id != row.id)
    && u.count == ClampCount(-(p.count as int))
    && Before(done.db, s, p) == Before(db, s, p) - p.count
    && LeavesTheRest(db, done.db, s.uuid)
  }

  /** The dropped item has the condition, held to 0 to 1, of the row that the drop begins with. */
  ghost predicate DropsFirst(db: Economy.State, s: Session, p: Packet, row: Economy.WorldRow) {
    var preferred := if p.condition < 100 then p.condition else 100;
    exists r :: FirstRow(db, s.uuid, p.section, preferred, r)
      && row.condition == if r.condition < 0.0 then 0.0 else if r.condition > 1.0 then 1.0 else r.condition
  }

  /** A refusal names the action and carries nothing else. */
  ghost predicate Declines(p: Packet, u: Update) {
    u == Update(p.id, Rejected, p.action, 0, 0, p.section, 0.0, 0.0, 0.0, 0)
  }

  /** A correction tells what there is. */
  ghost predicate Corrects(p: Packet, u: Update, have: int) {
    u == Update(p.id, Corrected, p.action, 0, ClampCount(-have), p.section, 0.0, 0.0, 0.0, 0)
  }

  /** An accepted drop puts the row that its update describes last. */
  lemma DroppedRow(cfg: Config, db: Economy.State, s: Session, p: Packet, now: int)
    requires Economy.Good(db) && p.count > 0
    requires Economy.DropSpec(db, DropOp(cfg, s, p, now)).1.Dropped?
    ensures var (after, reply) := Economy.DropSpec(db, DropOp(cfg, s, p, now));
      && after.stashes == db.stashes && after.rubles == db.rubles && |after.world| == |db.world| + 1
      && var row := after.world[|db.world|];
         && after.world == db.world + [row] && DropsFirst(db, s, p, row) && row.id == db.nextWorld == reply.id
         && row.level == s.level && row.section == p.section && row.count == p.count
         && row.x == ClampCoord(p.x) && row.y == ClampCoord(p.y) && row.z == ClampCoord(p.z)
         && WireBucket(reply.condition) == Percent(row.condition)
  {
    hide WireBucket, Percent, Economy.DropSpec, Economy.Good, RowsOn, FirstRow, Carried, ClampCoord;
    var op := DropOp(cfg, s, p, now);
    DropIff(db, op);
    var first :| FirstRow(db, s.uuid, p.section, op.preferred, first);
    Economy.ClampedBucket(first.condition);
    BucketIsPercent(Clamp01(first.condition));
  }

  /** A full level is told before a short stock. */
  lemma DropRefusal(db: Economy.State, op: Economy.Op)
    requires op.Drop? && op.count > 0
    ensures var (_, reply) := Economy.DropSpec(db, op);
      var have := Available(db.inventory, op.uuid, op.section);
      reply.Refused? ==>
        if op.maxPerLevel > 0 && |RowsOn(db.world, op.level)| >= op.maxPerLevel then
          reply == Economy.Refused(Economy.WorldItemLimit)
        else have < op.count && reply == Economy.Refused(Economy.InsufficientItems(have))
  {
    hide Held, Drain, Total, Carried, OfSection, RowsOn, Economy.OnLevel;
    OnLevelCounts(db.world, op.level);
    HeldTotal(db.inventory, op.uuid, op.section, op.preferred);
    HeldTotal(db.inventory, op.uuid, op.section, -1);
  }

  lemma NewWorldId(db: Economy.State)
    requires Economy.Good(db)
    ensures forall i :: 0 <= i < |db.world| ==> db.world[i].id != db.nextWorld
  {
  }

  /**
   * A drop is accepted exactly when something is dropped, the level has room and the stock suffices; then the update
   * describes the new world item to sessions near it. A short stock is answered with what there is. Nothing else
   * happens.
   */
  lemma DropReply(cfg: Config, db: Economy.State, s: Session, p: Packet, now: int)
    requires Economy.Good(db)
    ensures var done := PerformDrop(cfg, db, s, p, now);
      var r := done.response;
      var tried := p.count > 0 && LevelHasRoom(cfg, db, s.level);
      && (r.update.verdict == OK <==> tried && Before(db, s, p) >= p.count)
      && (r.update.verdict == Corrected <==> tried && Before(db, s, p) < p.count)
      && (r.update.verdict == OK ==> DropDone(db, s, p, done))
      && r.update.id == p.id
      && (r.update.verdict == OK ==> r.update.action == Drop)
      && (r.update.verdict == Rejected ==> Declines(p, r.update))
      && (r.update.verdict == Corrected ==> Corrects(p, r.update, Before(db, s, p)))
      && (done.db != db <==> r.update.verdict == OK) && (r.broadcast <==> r.update.verdict == OK)
      && (r.resync <==> r.update.verdict == Rejected) && (done.recorded <==> p.count > 0)
  {
    hide WireBucket, Percent, Economy.DropSpec, Economy.Good, Available, RowsOf, RowsOn, Carried, FirstRow, ClampCount,
         ClampCoord, DropsFirst;
    if p.count > 0 {
      var op := DropOp(cfg, s, p, now);
      DropIff(db, op);
      DropRefusal(db, op);
      AvailableIsCarried(db.inventory, s.uuid, p.section);
      AvailableMoves(db, op, s.uuid, p.section);
      OthersKept(db, op, JsonSize, AllBut(s.uuid));
      NewWorldId(db);
      var reply := Economy.DropSpec(db, op).1;
      if reply.Dropped? { DroppedRow(cfg, db, s, p, now); }
    }
  }

  // ---- Consumption ------------------------------------------------------------------------------

  ghost predicate ConsumeDone(db: Economy.State, s: Session, p: Packet, done: Outcome) {
    && done.response.update
       == Update(p.id, OK, p.action, 0, ClampCount(-(p.count as int)), p.section, 0.0, 0.0, 0.0, p.condition)
    && Before(done.db, s, p) == Before(db, s, p) - p.count
    && done.db.world == db.world && LeavesTheRest(db, done.db, s.uuid)
  }

  lemma ConsumeOutcome(db: Economy.State, op: Economy.Op)
    requires op.Consume? && op.count > 0
    ensures var (after, reply) := Economy.Apply(db, op, JsonSize);
      var have := Available(db.inventory, op.uuid, op.section);
      if have < op.count then after == db && reply == Economy.Refused(Economy.InsufficientItems(have))
      else reply.Consumed? && after == db.(inventory := after.inventory)
  {
    hide Held, Drain, Total;
  }

  /** A consumption is accepted exactly when something is consumed and the stock suffices; nobody else hears of it. */
  lemma ConsumeReply(db: Economy.State, s: Session, p: Packet)
    requires Economy.Good(db)
    ensures var done := PerformConsume(db, s, p);
      var r := done.response;
      && (r.update.verdict == OK <==> p.count > 0 && Before(db, s, p) >= p.count)
      && (r.update.verdict == Corrected <==> p.count > 0 && Before(db, s, p) < p.count)
      && (r.update.verdict == OK ==> ConsumeDone(db, s, p, done))
      && (r.update.verdict == Rejected ==> Declines(p, r.update))
      && (r.update.verdict == Corrected ==> Corrects(p, r.update, Before(db, s, p)))
      && (done.db != db <==> r.update.verdict == OK) && !r.broadcast
      && (r.resync <==> r.update.verdict == Rejected) && done.recorded
  {
    hide Economy.Apply, Economy.Good, Available, RowsOf, ClampCount;
    if p.count > 0 {
      var op := Economy.Consume(s.uuid, p.section, p.count);
      ConsumeOutcome(db, op);
      AvailableMoves(db, op, s.uuid, p.section);
      OthersKept(db, op, JsonSize, AllBut(s.uuid));
    }
  }

  // ---- Pickups -----------------------------------------------------------------------------------

  /** The item asked for lies within reach, and the sender can be credited with it. */
  ghost predicate CanPickUp(db: Economy.State, s: Session, p: Packet, i: nat)
    requires i < |db.world|
  {
    var wi := db.world[i];
    && wi.id == p.itemId && wi.level == s.level
    && (wi.x - s.x) * (wi.x - s.x) + (wi.y - s.y) * (wi.y - s.y) + (wi.z - s.z) * (wi.z - s.z) <= 9.0
    && CanHold(db, s.uuid, wi.section, Percent(wi.condition))
  }

  lemma PicksUpIff(db: Economy.State, s: Session, p: Packet, i: nat)
    requires Economy.Good(db) && i < |db.world|
    ensures var wi := db.world[i];
      CanPickUp(db, s, p, i) <==>
        wi.id == p.itemId && InReach(wi, s)
        && Economy.Creditable(db, s.uuid, wi.section, WireBucket(Clamp01(wi.condition)))
  {
    hide WireBucket, Clamp01, Economy.Creditable, CanHold, Percent;
    var wi := db.world[i];
    Economy.ClampedBucket(wi.condition);
    BucketIsPercent(wi.condition);
    CreditableIff(db, s.uuid, wi.section, WireBucket(wi.condition));
  }

  ghost predicate PickupDone(db: Economy.State, s: Session, p: Packet, done: Outcome, i: nat)
    requires i < |db.world|
  {
    var u, wi := done.response.update, db.world[i];
    && Describes(u, wi) && u.count == ClampCount(wi.count) && u.id == p.id && u.action == Pickup
    && done.db.world == db.world[..i] + db.world[i + 1..]
    && Available(done.db.inventory, s.uuid, wi.section) == Available(db.inventory, s.uuid, wi.section) + wi.count
    && LeavesTheRest(db, done.db, s.uuid)
  }

  lemma PickupOutcome(db: Economy.State, op: Economy.Op, i: nat)
    requires Economy.Good(db) && op.Pickup? && i < |db.world| && db.world[i].id == op.id
    ensures var (after, reply) := Economy.Apply(db, op, JsonSize);
      var wi := db.world[i];
      && Economy.FindWorld(db.world, op.id) == Some(i)
      && if Economy.Creditable(db, op.uuid, wi.section, WireBucket(Clamp01(wi.condition))) then
           reply == Economy.PickedUp(wi) && after.world == Economy.Without(db.world, i)
           && after.stashes == db.stashes && after.rubles == db.rubles
         else reply.Refused? && after == db
  {
    hide Rows, NoAmmo, WireBucket, Clamp01, Credit, Economy.Creditable, Economy.Without;
    Economy.FindWorldExact(db.world, op.id);
  }

  /**
   * A pickup is accepted exactly when the item lies in reach on the sender's level and the sender can be credited;
   * then that one row leaves the world and sessions near it hear of it. Counts and conditions are the stored ones.
   */
  lemma PickupReply(db: Economy.State, s: Session, p: Packet)
    requires Economy.Good(db)
    ensures var done := PerformPickup(db, s, p);
      var r := done.response;
      && (r.update.verdict == OK <==> p.itemId != 0 && exists i: nat :: i < |db.world| && CanPickUp(db, s, p, i))
      && r.update.verdict != Corrected && (r.update.verdict == Rejected ==> Declines(p, r.update))
      && (r.update.verdict == OK ==> forall i: nat :: i < |db.world| && CanPickUp(db, s, p, i) ==>
          PickupDone(db, s, p, done, i))
      && (done.db != db <==> r.update.verdict == OK) && (r.broadcast <==> r.update.verdict == OK)
      && (r.resync <==> r.update.verdict == Rejected && p.itemId != 0) && (done.recorded <==> p.itemId != 0)
  {
    hide WireBucket, Clamp01, Economy.Apply, Economy.Good, Economy.FindWorld, Economy.Creditable, Economy.Without,
         Available, RowsOf, ClampCount, InReach;
    Economy.FindWorldExact(db.world, p.itemId);
    var op := Economy.Pickup(s.uuid, p.itemId);
    forall i: nat | i < |db.world| && db.world[i].id == p.itemId
      ensures Economy.FindWorld(db.world, p.itemId) == Some(i)
    {
      PickupOutcome(db, op, i);
    }
    var f := Economy.FindWorld(db.world, p.itemId);
    if p.itemId != 0 && f.Some? {
      PickupEither(db, s, p, f.value);
    }
  }

  lemma PickupEither(db: Economy.State, s: Session, p: Packet, i: nat)
    requires Economy.Good(db) && i < |db.world| && p.itemId != 0 && db.world[i].id == p.itemId
    ensures var done := PerformPickup(db, s, p);
      var r := done.response;
      && done.recorded && r.update.verdict != Corrected
      && (r.update.verdict == Rejected ==> Declines(p, r.update))
      && if CanPickUp(db, s, p, i) then
           r.update.verdict == OK && PickupDone(db, s, p, done, i) && done.db != db && r.broadcast && !r.resync
         else r.update.verdict == Rejected && done.db == db && !r.broadcast && r.resync
  {
    hide WireBucket, Clamp01, Economy.Apply, Economy.Good, Economy.Creditable, Economy.Without, Available, RowsOf,
         ClampCount, InReach, Economy.FindWorld, CanPickUp, Percent;
    PicksUpIff(db, s, p, i);
    var op, wi := Economy.Pickup(s.uuid, p.itemId), db.world[i];
    Economy.FindWorldExact(db.world, p.itemId);
    PickupOutcome(db, op, i);
    AvailableMoves(db, op, s.uuid, wi.section);
    OthersKept(db, op, JsonSize, AllBut(s.uuid));
    Economy.ClampedBucket(wi.condition);
    BucketIsPercent(wi.condition);
    WithoutShorter(db.world, i);
  }

  lemma WithoutShorter<T>(s: seq<T>, i: nat)
    requires i < |s|
    ensures Economy.Without(s, i) == s[..i] + s[i + 1..] != s
  {
    assert |Economy.Without(s, i)| == |s| - 1;
  }
}
