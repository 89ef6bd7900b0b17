/** When each transaction is accepted, and what it then does, said of the tables alone. */
module EconomyAccepts {
  import opened Basics
  import opened Inventory
  import opened Economy
  import opened EconomyOwners

  // ---- What the queries find ----------------------------------------------------------------

  /** Row `i` is the stash of that id. */
  ghost predicate StashAt(stashes: seq<StashRow>, id: int, i: nat) {
    i < |stashes| && stashes[i].id == id && forall k :: 0 <= k < i ==> stashes[k].id != id
  }

  lemma {:induction false} FindStashIff(stashes: seq<StashRow>, id: int, i: nat)
    ensures FindStash(stashes, id) == Some(i) <==> StashAt(stashes, id, i)
  {
    if stashes != [] && stashes[0].id != id {
      if i > 0 { FindStashIff(stashes[1..], id, i - 1); } else { FindStashExact(stashes[1..], id); }
      if i > 0 && StashAt(stashes[1..], id, i - 1) {
        forall k | 0 <= k < i
          ensures stashes[k].id != id
        {
          assert k > 0 ==> stashes[1..][k - 1].id != id;
        }
      }
    }
  }

  /** Entry `j` is the first of the section in the bucket. */
  ghost predicate ItemAt(items: seq<StashItem>, section: string, bucket: int, j: nat) {
    && j < |items| && items[j].section == section && items[j].bucket == bucket
    && forall k :: 0 <= k < j ==> items[k].section != section || items[k].bucket != bucket
  }

  lemma {:induction false} FindItemIff(items: seq<StashItem>, section: string, bucket: int, j: nat)
    ensures FindItem(items, section, bucket) == Some(j) <==> ItemAt(items, section, bucket, j)
  {
    if items != [] && !(items[0].section == section && items[0].bucket == bucket) {
      if j > 0 { FindItemIff(items[1..], section, bucket, j - 1); } else { FindItemExact(items[1..], section, bucket); }
      if j > 0 && ItemAt(items[1..], section, bucket, j - 1) {
        forall k | 0 <= k < j
          ensures items[k].section != section || items[k].bucket != bucket
        {
          assert k > 0 ==> items[1..][k - 1].section != section || items[1..][k - 1].bucket != bucket;
        }
      }
    }
  }

  /** The user can be credited: known, or holding a row that takes the items. */
  ghost predicate CanHold(st: State, uuid: string, section: string, bucket: int) {
    || uuid in st.rubles
    || exists i :: 0 <= i < |st.inventory| && TakesMore(st.inventory[i], uuid, section, bucket)
  }

  /** A row of the section in that hundredth of condition, or one weapon with rounds in it. */
  predicate TakesMore(r: InvRow, uuid: string, section: string, bucket: int) {
    r.uuid == uuid && r.section == section && (Round(100.0 * r.condition) == bucket || (r.ammo > 0 && r.count <= 1))
  }

  lemma {:induction false} FirstInBucketSome(inv: seq<InvRow>, uuid: string, section: string, bucket: int)
    ensures FirstInBucket(inv, uuid, section, bucket).Some? <==>
            exists i :: 0 <= i < |inv| && inv[i].uuid == uuid && inv[i].section == section
                        && Round(100.0 * inv[i].condition) == bucket
  {
    hide Round;
    if inv != [] {
      FirstInBucketSome(inv[1..], uuid, section, bucket);
      assert SqlBucket(inv[0].condition) == Round(100.0 * inv[0].condition);
      if i :| 0 <= i < |inv[1..]| && inv[1..][i].uuid == uuid && inv[1..][i].section == section
              && Round(100.0 * inv[1..][i].condition) == bucket {
        assert inv[i + 1] == inv[1..][i];
      }
      if i :| 0 <= i < |inv| && inv[i].uuid == uuid && inv[i].section == section
              && Round(100.0 * inv[i].condition) == bucket {
        assert i > 0 ==> inv[i] == inv[1..][i - 1];
      }
    }
  }

  lemma {:induction false} FirstWithAmmoSome(inv: seq<InvRow>, uuid: string, section: string)
    ensures FirstWithAmmo(inv, uuid, section).Some? <==>
            exists i :: 0 <= i < |inv| && inv[i].uuid == uuid && inv[i].section == section
                        && inv[i].ammo > 0 && inv[i].count <= 1
  {
    if inv != [] {
      FirstWithAmmoSome(inv[1..], uuid, section);
      if i :| 0 <= i < |inv[1..]| && inv[1..][i].uuid == uuid && inv[1..][i].section == section
              && inv[1..][i].ammo > 0 && inv[1..][i].count <= 1 {
        assert inv[i + 1] == inv[1..][i];
      }
      if i :| 0 <= i < |inv| && inv[i].uuid == uuid && inv[i].section == section
              && inv[i].ammo > 0 && inv[i].count <= 1 {
        assert i > 0 ==> inv[i] == inv[1..][i - 1];
      }
    }
  }

  lemma CreditableIff(st: State, uuid: string, section: string, bucket: int)
    ensures Creditable(st, uuid, section, bucket) <==> CanHold(st, uuid, section, bucket)
  {
    hide FirstInBucket, FirstWithAmmo, Round;
    FirstInBucketSome(st.inventory, uuid, section, bucket);
    FirstWithAmmoSome(st.inventory, uuid, section);
    if i :| 0 <= i < |st.inventory| && TakesMore(st.inventory[i], uuid, section, bucket) {
      assert Creditable(st, uuid, section, bucket);
    }
    if i :| 0 <= i < |st.inventory| && st.inventory[i].uuid == uuid && st.inventory[i].section == section
            && Round(100.0 * st.inventory[i].condition) == bucket {
      assert TakesMore(st.inventory[i], uuid, section, bucket);
    }
    if i :| 0 <= i < |st.inventory| && st.inventory[i].uuid == uuid && st.inventory[i].section == section
            && st.inventory[i].ammo > 0 && st.inventory[i].count <= 1 {
      assert TakesMore(st.inventory[i], uuid, section, bucket);
    }
  }

  // ---- Withdrawals --------------------------------------------------------------------------------

  /** Stash `i`, on the caller's level, holds enough in entry `j`, and the user can be credited. */
  ghost predicate CanWithdraw(st: State, op: Op, i: nat, j: nat)
    requires op.Withdraw?
  {
    && 1 <= op.count <= 65535 && 0 <= op.bucket <= 100
    && StashAt(st.stashes, op.stash, i) && st.stashes[i].level == op.level
    && ItemAt(st.stashes[i].items, op.section, op.bucket, j) && st.stashes[i].items[j].count >= op.count
    && CanHold(st, op.uuid, op.section, op.bucket)
  }

  /** Entry `j` of stash `i` has that many fewer, or is gone, and nothing else is touched but the inventory. */
  ghost predicate TakenOut(st: State, next: State, i: nat, j: nat, count: int)
    requires i < |st.stashes| && j < |st.stashes[i].items|
  {
    var items := st.stashes[i].items;
    && next == st.(inventory := next.inventory, nextInv := next.nextInv, stashes := next.stashes)
    && |next.stashes| == |st.stashes|
    && (forall k :: 0 <= k < |st.stashes| && k != i ==> next.stashes[k] == st.stashes[k])
    && next.stashes[i] == st.stashes[i].(items :=
         if items[j].count == count then items[..j] + items[j + 1..]
         else items[j := StashItem(items[j].section, items[j].count - count, items[j].bucket)])
  }

  /**
   * A withdrawal is accepted exactly when the stash is on the caller's level and holds enough, and the user can be
   * credited. Then that stash loses the items and the user's stock of that section and bucket gains them.
   */
  lemma WithdrawIff(st: State, op: Op, jsonSize: seq<StashItem> -> int)
    requires op.Withdraw?
    ensures var (next, reply) := Apply(st, op, jsonSize);
      && (reply.Withdrawn? <==> exists i: nat, j: nat :: CanWithdraw(st, op, i, j))
      && (forall i: nat, j: nat :: CanWithdraw(st, op, i, j) ==>
            reply == Withdrawn(op.bucket) && TakenOut(st, next, i, j, op.count))
      && (!reply.Withdrawn? ==> reply.Refused? && next == st)
  {
    hide Creditable, CanHold, Credit, FindStash, FindItem;
    FindStashExact(st.stashes, op.stash);
    var f := FindStash(st.stashes, op.stash);
    forall i: nat
      ensures f == Some(i) <==> StashAt(st.stashes, op.stash, i)
    {
      FindStashIff(st.stashes, op.stash, i);
    }
    if f.Some? {
      var items := st.stashes[f.value].items;
      FindItemExact(items, op.section, op.bucket);
      forall j: nat
        ensures FindItem(items, op.section, op.bucket) == Some(j) <==> ItemAt(items, op.section, op.bucket, j)
      {
        FindItemIff(items, op.section, op.bucket, j);
      }
      CreditableIff(st, op.uuid, op.section, op.bucket);
      var g := FindItem(items, op.section, op.bucket);
      if Apply(st, op, jsonSize).1.Withdrawn? {
        assert CanWithdraw(st, op, f.value, g.value);
      }
    }
  }

  // ---- Deposits ------------------------------------------------------------------------------------------

  /** The contents with that many more in the first entry of section and bucket, or in a new last one. */
  ghost predicate PutInto(items: seq<StashItem>, section: string, count: int, bucket: int, after: seq<StashItem>) {
    if exists j: nat :: ItemAt(items, section, bucket, j) then
      exists j: nat :: ItemAt(items, section, bucket, j)
                       && after == items[j := StashItem(section, items[j].count + count, bucket)]
    else after == items + [StashItem(section, count, bucket)]
  }

  lemma AddItemPuts(items: seq<StashItem>, section: string, count: int, bucket: int)
    ensures forall after ::
              PutInto(items, section, count, bucket, after) <==> after == AddItem(items, section, count, bucket)
  {
    hide FindItem;
    FindItemExact(items, section, bucket);
    forall j: nat
      ensures FindItem(items, section, bucket) == Some(j) <==> ItemAt(items, section, bucket, j)
    {
      FindItemIff(items, section, bucket, j);
    }
    hide ItemAt;
    var f := FindItem(items, section, bucket);
    if f.Some? {
      assert ItemAt(items, section, bucket, f.value);
    }
  }

  /** The row that a removal begins with: of the preferred condition if there is one, the oldest of those. */
  ghost predicate FirstRow(st: State, uuid: string, section: string, preferred: int, row: InvRow) {
    && row in st.inventory && row.uuid == uuid && row.section == section
    && forall r :: r in st.inventory && r.uuid == uuid && r.section == section && r != row ==>
         if Chosen(r, preferred) == Chosen(row, preferred) then row.id < r.id else Chosen(row, preferred)
  }

  predicate Chosen(r: InvRow, preferred: int) { preferred >= 0 && Round(100.0 * r.condition) == preferred }

  lemma HeldFirst(inv: seq<InvRow>, nextId: int, uuid: string, section: string, preferred: int, r: InvRow)
    requires Rows(inv, nextId) && r in inv && r.uuid == uuid && r.section == section
    ensures var held := Held(inv, uuid, section, preferred);
      && held != [] && held[0] in inv && held[0].uuid == uuid && held[0].section == section
      && (r != held[0] ==> if Chosen(r, preferred) == Chosen(held[0], preferred) then held[0].id < r.id
                           else Chosen(held[0], preferred))
  {
    hide Rows, Round;
    var a, b := Select(inv, uuid, section, preferred, true), Select(inv, uuid, section, preferred, false);
    var held := a + b;
    SelectExact(inv, uuid, section, preferred, true, r);
    SelectExact(inv, uuid, section, preferred, false, r);
    SelectExact(inv, uuid, section, preferred, true, held[0]);
    SelectExact(inv, uuid, section, preferred, false, held[0]);
    PrefersIsChosen(r, preferred);
    PrefersIsChosen(held[0], preferred);
    SelectOrdered(inv, nextId, uuid, section, preferred, true);
    SelectOrdered(inv, nextId, uuid, section, preferred, false);
    assert held[0] == if a != [] then a[0] else b[0];
    if r in a {
      FirstInRows(a, nextId, r);
    } else {
      FirstInRows(b, nextId, r);
    }
  }

  lemma PrefersIsChosen(r: InvRow, preferred: int)
    ensures Prefers(r, preferred) <==> Chosen(r, preferred)
  {
  }

  lemma FirstInRows(rows: seq<InvRow>, nextId: int, r: InvRow)
    requires Rows(rows, nextId) && r in rows
    ensures rows[0] == r || rows[0].id < r.id
  {
  }

  lemma FirstRowIsHeld(st: State, uuid: string, section: string, preferred: int)
    requires Good(st)
    ensures var held := Held(st.inventory, uuid, section, preferred);
      held != [] ==> FirstRow(st, uuid, section, preferred, held[0])
  {
    hide Held, Chosen, NoAmmo, GoodWorld;
    var held := Held(st.inventory, uuid, section, preferred);
    if held != [] {
      HeldExact(st.inventory, st.nextInv, uuid, section, preferred);
      assert held[0] in held;
      forall r | r in st.inventory && r.uuid == uuid && r.section == section && r != held[0]
        ensures if Chosen(r, preferred) == Chosen(held[0], preferred) then held[0].id < r.id
                else Chosen(held[0], preferred)
      {
        HeldFirst(st.inventory, st.nextInv, uuid, section, preferred, r);
      }
    }
  }

  /** A condition as whole percent, between 0 and 100. */
  function Percent(c: real): int { if c <= 0.0 then 0 else if c >= 1.0 then 100 else (100.0 * c + 0.5).Floor }

  lemma BucketIsPercent(c: real)
    ensures WireBucket(c) == Percent(c)
  {
  }

  /** Carrying enough of the section is what decides a removal; its condition is that of the first row. */
  lemma RemoveIff(st: State, uuid: string, section: string, count: int, preferred: int)
    requires Good(st) && count > 0
    ensures var rm := Remove(st.inventory, uuid, section, count, preferred);
      && (rm.ok <==> Carried(st.inventory, uuid, OfSection(section)) >= count)
      && rm.total == Carried(st.inventory, uuid, OfSection(section))
      && (rm.ok ==> exists row :: FirstRow(st, uuid, section, preferred, row))
      && (rm.ok ==> forall row :: FirstRow(st, uuid, section, preferred, row) ==> rm.condition == row.condition)
  {
    hide Good, Held, Carried, OfSection, FirstRow, Drain;
    HeldTotal(st.inventory, uuid, section, preferred);
    FirstRowIsHeld(st, uuid, section, preferred);
    var held := Held(st.inventory, uuid, section, preferred);
    if held != [] {
      forall row | FirstRow(st, uuid, section, preferred, row)
        ensures row == held[0]
      {
        OneFirstRow(st, uuid, section, preferred, row, held[0]);
      }
    }
  }

  lemma OneFirstRow(st: State, uuid: string, section: string, preferred: int, a: InvRow, b: InvRow)
    requires FirstRow(st, uuid, section, preferred, a) && FirstRow(st, uuid, section, preferred, b)
    ensures a == b
  {
    hide Chosen;
  }

  /** Enough is carried, the stash is on the caller's level, and `after` is what it then holds, within its limits. */
  ghost predicate CanDeposit(st: State, op: Op, jsonSize: seq<StashItem> -> int, i: nat, row: InvRow,
      after: seq<StashItem>)
    requires op.Deposit?
  {
    && 1 <= op.count <= 65535 && 0 <= op.preferred <= 100
    && StashAt(st.stashes, op.stash, i) && st.stashes[i].level == op.level
    && Carried(st.inventory, op.uuid, OfSection(op.section)) >= op.count
    && FirstRow(st, op.uuid, op.section, op.preferred, row)
    && PutInto(st.stashes[i].items, op.section, op.count, Percent(row.condition), after)
    && jsonSize(after) <= 4096 && |after| <= 256
  }

  ghost predicate Deposits(st: State, next: State, op: Op, i: nat, after: seq<StashItem>)
    requires op.Deposit? && i < |st.stashes|
  {
    && next == st.(inventory := next.inventory, stashes := st.stashes[i := st.stashes[i].(items := after)])
    && Carried(next.inventory, op.uuid, OfSection(op.section))
       == Carried(st.inventory, op.uuid, OfSection(op.section)) - op.count
  }

  /** When a deposit is accepted: the condition stored is that of the first row taken, and only that stash changes. */
  lemma DepositIff(st: State, op: Op, jsonSize: seq<StashItem> -> int)
    requires Good(st) && op.Deposit?
    ensures var (next, reply) := Apply(st, op, jsonSize);
      && (reply.Deposited? <==> exists i: nat, row, after :: CanDeposit(st, op, jsonSize, i, row, after))
      && (forall i: nat, row, after :: CanDeposit(st, op, jsonSize, i, row, after) ==>
            reply == Deposited(Percent(row.condition)) && Deposits(st, next, op, i, after))
      && (!reply.Deposited? ==> reply.Refused? && next == st)
  {
    hide Good, Remove, FindStash, AddItem, Carried, WireBucket, Percent, OfSection, PutInto, FirstRow, StashAt;
    FindStashExact(st.stashes, op.stash);
    var f := FindStash(st.stashes, op.stash);
    forall i: nat
      ensures f == Some(i) <==> StashAt(st.stashes, op.stash, i)
    {
      FindStashIff(st.stashes, op.stash, i);
    }
    if op.count > 0 && f.Some? {
      RemoveIff(st, op.uuid, op.section, op.count, op.preferred);
      var rm := Remove(st.inventory, op.uuid, op.section, op.count, op.preferred);
      BucketIsPercent(rm.condition);
      var items := st.stashes[f.value].items;
      AddItemPuts(items, op.section, op.count, WireBucket(rm.condition));
      WantsSection(op.section);
      StepCarries(st, op, jsonSize, op.uuid, OfSection(op.section));
      if Apply(st, op, jsonSize).1.Deposited? {
        var row :| FirstRow(st, op.uuid, op.section, op.preferred, row);
        var after := AddItem(items, op.section, op.count, WireBucket(rm.condition));
        assert CanDeposit(st, op, jsonSize, f.value, row, after);
      }
    }
  }

  lemma WantsSection(section: string)
    ensures BySection(OfSection(section)) && OfSection(section)(section, 0)
  {
  }

  // ---- Purchases and sales ----------------------------------------------------------------------------------

  /** What a user carries of a section in a bucket. */
  ghost function CarriedIn(inv: seq<InvRow>, uuid: string, section: string, bucket: int): int {
    Carried(inv, uuid, Exactly(section, bucket))
  }

  /** A credit gives the user that many of that section and bucket, and nothing else. */
  lemma CreditCarried(st: State, uuid: string, section: string, count: int, bucket: int, s: string, b: int)
    requires Good(st) && count > 0 && 0 <= bucket <= 100
    ensures var out := Credit(st.inventory, st.nextInv, uuid, section, count, bucket).0;
      CarriedIn(out, uuid, s, b)
      == CarriedIn(st.inventory, uuid, s, b) + if s == section && b == bucket then count else 0
  {
    hide Rows, NoAmmo, Credit, Stock, Lots, RowsOf, GoodWorld;
    var out := Credit(st.inventory, st.nextInv, uuid, section, count, bucket).0;
    CreditEffect(st.inventory, st.nextInv, uuid, section, count, bucket, Exactly(s, b));
    CreditKeepsOthers(st.inventory, st.nextInv, uuid, section, count, bucket, AllBut(uuid));
    StockSplits(st.inventory, uuid, Exactly(s, b));
    StockSplits(out, uuid, Exactly(s, b));
  }

  /** A purchase is accepted exactly when the user can pay; it costs the price and brings the items as new as asked. */
  lemma BuyIff(st: State, op: Op, jsonSize: seq<StashItem> -> int, s: string, b: int)
    requires Good(st) && op.Buy?
    ensures var (next, reply) := Apply(st, op, jsonSize);
      && (reply.Bought? <==> op.count > 0 && op.price > 0 && op.uuid in st.rubles && st.rubles[op.uuid] >= op.price)
      && (reply.Bought? ==>
            && next == st.(rubles := st.rubles[op.uuid := st.rubles[op.uuid] - op.price],
                           inventory := next.inventory, nextInv := next.nextInv)
            && (0 <= op.bucket <= 100 ==>
                  CarriedIn(next.inventory, op.uuid, s, b)
                  == CarriedIn(st.inventory, op.uuid, s, b)
                     + if s == op.section && b == op.bucket then op.count else 0))
      && (!reply.Bought? ==> reply.Refused? && next == st)
  {
    hide Good, Credit, CarriedIn;
    if op.count > 0 && 0 <= op.bucket <= 100 {
      CreditCarried(st, op.uuid, op.section, op.count, op.bucket, s, b);
    }
  }

  /** A sale is accepted exactly when a known user carries enough; then the items go and the price is paid. */
  lemma SellIff(st: State, op: Op, jsonSize: seq<StashItem> -> int)
    requires Good(st) && op.Sell?
    ensures var (next, reply) := Apply(st, op, jsonSize);
      var have := Carried(st.inventory, op.uuid, OfSection(op.section));
      && (reply.Sold? <==> op.count > 0 && op.price > 0 && have >= op.count && op.uuid in st.rubles)
      && (reply.Sold? ==>
            && next == st.(rubles := st.rubles[op.uuid := st.rubles[op.uuid] + op.price], inventory := next.inventory)
            && Carried(next.inventory, op.uuid, OfSection(op.section)) == have - op.count
            && forall row :: FirstRow(st, op.uuid, op.section, -1, row) ==> reply == Sold(Percent(row.condition)))
      && (!reply.Sold? ==> reply.Refused? && next == st)
  {
    hide Good, Remove, Carried, WireBucket, Percent, OfSection, FirstRow;
    if op.count > 0 {
      RemoveIff(st, op.uuid, op.section, op.count, -1);
      BucketIsPercent(Remove(st.inventory, op.uuid, op.section, op.count, -1).condition);
      WantsSection(op.section);
      StepCarries(st, op, jsonSize, op.uuid, OfSection(op.section));
    }
  }

  /** What a withdrawal brings, by section and bucket. */
  lemma WithdrawCarries(st: State, op: Op, jsonSize: seq<StashItem> -> int, s: string, b: int)
    requires Good(st) && op.Withdraw? && Apply(st, op, jsonSize).1.Withdrawn?
    ensures CarriedIn(Apply(st, op, jsonSize).0.inventory, op.uuid, s, b)
            == CarriedIn(st.inventory, op.uuid, s, b) + if s == op.section && b == op.bucket then op.count else 0
  {
    hide Good, Credit, CarriedIn, FindStash, FindItem, Creditable;
    FindStashExact(st.stashes, op.stash);
    FindItemExact(st.stashes[FindStash(st.stashes, op.stash).value].items, op.section, op.bucket);
    CreditCarried(st, op.uuid, op.section, op.count, op.bucket, s, b);
  }

  // ---- Drops and pickups -------------------------------------------------------------------------------------

  /** When a drop is accepted, and the row that it adds to the world. */
  lemma DropIff(st: State, op: Op)
    requires Good(st) && op.Drop?
    ensures var (next, reply) := DropSpec(st, op);
      var have := Carried(st.inventory, op.uuid, OfSection(op.section));
      && (reply.Dropped? <==> op.count > 0 && have >= op.count
                              && (op.maxPerLevel > 0 ==> |RowsOn(st.world, op.level)| < op.maxPerLevel))
      && (reply.Dropped? ==> exists row :: FirstRow(st, op.uuid, op.section, op.preferred, row))
      && (forall row :: reply.Dropped? && FirstRow(st, op.uuid, op.section, op.preferred, row) ==>
            var c := if row.condition < 0.0 then 0.0 else if row.condition > 1.0 then 1.0 else row.condition;
            reply == Dropped(st.nextWorld, have - op.count, row.condition) &&
            var row := WorldRow(st.nextWorld, op.level, op.x, op.y, op.z, op.section, op.count, c, op.now);
            && next == st.(inventory := next.inventory, nextWorld := st.nextWorld + 1, world := st.world + [row]))
      && (!reply.Dropped? ==> reply.Refused? && next == st)
  {
    hide Good, Remove, Carried, OfSection, FirstRow, OnLevel, RowsOn;
    OnLevelCounts(st.world, op.level);
    if op.count > 0 {
      RemoveIff(st, op.uuid, op.section, op.count, op.preferred);
    }
  }

  /** When a pickup is accepted; the user then carries the item in the bucket of its condition. */
  lemma PickupIff(st: State, op: Op, jsonSize: seq<StashItem> -> int, i: nat, s: string, b: int)
    requires Good(st) && op.Pickup? && i < |st.world| && st.world[i].id == op.id
    ensures var (next, reply) := Apply(st, op, jsonSize);
      var wi := st.world[i]; var bucket := Percent(wi.condition);
      && (reply.PickedUp? <==> CanHold(st, op.uuid, wi.section, bucket))
      && (reply.PickedUp? ==>
            && reply == PickedUp(wi)
            && next == st.(world := st.world[..i] + st.world[i + 1..],
                           inventory := next.inventory, nextInv := next.nextInv)
            && CarriedIn(next.inventory, op.uuid, s, b)
               == CarriedIn(st.inventory, op.uuid, s, b) + if s == wi.section && b == bucket then wi.count else 0)
      && (!reply.PickedUp? ==> reply.Refused? && next == st)
  {
    hide Rows, NoAmmo, WireBucket, Clamp01, Credit, Creditable, CanHold, Percent, CarriedIn;
    FindWorldExact(st.world, op.id);
    assert FindWorld(st.world, op.id) == Some(i);
    var wi := st.world[i];
    ClampedBucket(wi.condition);
    BucketIsPercent(wi.condition);
    BucketRange(wi.condition);
    CreditableIff(st, op.uuid, wi.section, WireBucket(wi.condition));
    CreditCarried(st, op.uuid, wi.section, wi.count, WireBucket(wi.condition), s, b);
  }

  // ---- Rows ---------------------------------------------------------------------------------------------------

  /** Rows are used up in this order: those of the preferred condition, then the others, older ones first. */
  lemma HeldOrder(inv: seq<InvRow>, nextId: int, uuid: string, section: string, preferred: int, i: nat, j: nat)
    requires Rows(inv, nextId) && i < j < |Held(inv, uuid, section, preferred)|
    ensures var held := Held(inv, uuid, section, preferred);
      if Chosen(held[i], preferred) == Chosen(held[j], preferred) then held[i].id < held[j].id
      else Chosen(held[i], preferred)
  {
    hide Rows, Round;
    var a, b := Select(inv, uuid, section, preferred, true), Select(inv, uuid, section, preferred, false);
    var held := a + b;
    SelectOrdered(inv, nextId, uuid, section, preferred, true);
    SelectOrdered(inv, nextId, uuid, section, preferred, false);
    InOneHalf(inv, uuid, section, preferred, i);
    InOneHalf(inv, uuid, section, preferred, j);
    if j < |a| {
      OrderedPair(a, nextId, i, j);
    } else if i >= |a| {
      OrderedPair(b, nextId, i - |a|, j - |a|);
    }
  }

  lemma InOneHalf(inv: seq<InvRow>, uuid: string, section: string, preferred: int, i: nat)
    requires i < |Held(inv, uuid, section, preferred)|
    ensures Chosen(Held(inv, uuid, section, preferred)[i], preferred) <==>
            i < |Select(inv, uuid, section, preferred, true)|
  {
    hide Round, Select;
    var a, b := Select(inv, uuid, section, preferred, true), Select(inv, uuid, section, preferred, false);
    var r := (a + b)[i];
    SelectExact(inv, uuid, section, preferred, true, r);
    SelectExact(inv, uuid, section, preferred, false, r);
    PrefersIsChosen(r, preferred);
    assert if i < |a| then r in a else r in b;
  }

  lemma OrderedPair(rows: seq<InvRow>, nextId: int, i: nat, j: nat)
    requires Rows(rows, nextId) && i < j < |rows|
    ensures rows[i].id < rows[j].id
  {
  }

  predicate SameCondition(r: InvRow, uuid: string, section: string, bucket: int) {
    r.uuid == uuid && r.section == section && Round(100.0 * r.condition) == bucket
  }

  predicate Loaded(r: InvRow, uuid: string, section: string) {
    r.uuid == uuid && r.section == section && r.ammo > 0 && r.count <= 1
  }

  function WithRounds(r: InvRow, count: int): InvRow {
    r.(ammo := if r.ammo + count < 65535 then r.ammo + count else 65535)
  }

  /** Where a credit goes: the first row of that condition, else the first loaded weapon, else a new row. */
  lemma CreditRow(inv: seq<InvRow>, nextId: int, uuid: string, section: string, count: int, bucket: int, i: nat)
    ensures var (out, next) := Credit(inv, nextId, uuid, section, count, bucket);
      && (i < |inv| && SameCondition(inv[i], uuid, section, bucket)
          && (forall k :: 0 <= k < i ==> !SameCondition(inv[k], uuid, section, bucket)) ==>
            next == nextId
            && out == inv[i := if Loaded(inv[i], uuid, section) then WithRounds(inv[i], count)
                               else inv[i].(count := inv[i].count + count)])
      && (i < |inv| && Loaded(inv[i], uuid, section) && (forall k :: 0 <= k < i ==> !Loaded(inv[k], uuid, section))
          && (forall k :: 0 <= k < |inv| ==> !SameCondition(inv[k], uuid, section, bucket)) ==>
            next == nextId && out == inv[i := WithRounds(inv[i], count)])
      && ((forall k :: 0 <= k < |inv| ==>
             !SameCondition(inv[k], uuid, section, bucket) && !Loaded(inv[k], uuid, section)) ==>
            next == nextId + 1
            && out == inv + [InvRow(nextId, uuid, section, count, bucket as real / 100.0, 0)])
  {
    hide Round, FirstInBucket, FirstWithAmmo;
    FirstInBucketExact(inv, uuid, section, bucket);
    FirstWithAmmoExact(inv, uuid, section);
    FirstInBucketSome(inv, uuid, section, bucket);
    FirstWithAmmoSome(inv, uuid, section);
    if i < |inv| {
      FirstInBucketIs(inv, uuid, section, bucket, i);
      FirstWithAmmoIs(inv, uuid, section, i);
    }
    SameIffExists(inv, uuid, section, bucket);
  }

  lemma SameIffExists(inv: seq<InvRow>, uuid: string, section: string, bucket: int)
    ensures FirstInBucket(inv, uuid, section, bucket).Some? <==>
            exists k :: 0 <= k < |inv| && SameCondition(inv[k], uuid, section, bucket)
    ensures FirstWithAmmo(inv, uuid, section).Some? <==> exists k :: 0 <= k < |inv| && Loaded(inv[k], uuid, section)
  {
    hide Round, FirstInBucket, FirstWithAmmo;
    FirstInBucketSome(inv, uuid, section, bucket);
    FirstWithAmmoSome(inv, uuid, section);
    if FirstInBucket(inv, uuid, section, bucket).Some? {
      var i :| 0 <= i < |inv| && inv[i].uuid == uuid && inv[i].section == section
               && Round(100.0 * inv[i].condition) == bucket;
      assert SameCondition(inv[i], uuid, section, bucket);
    }
    if FirstWithAmmo(inv, uuid, section).Some? {
      var i :| 0 <= i < |inv| && inv[i].uuid == uuid && inv[i].section == section
               && inv[i].ammo > 0 && inv[i].count <= 1;
      assert Loaded(inv[i], uuid, section);
    }
  }

  lemma {:induction false} FirstInBucketIs(inv: seq<InvRow>, uuid: string, section: string, bucket: int, i: nat)
    requires i < |inv|
    ensures SameCondition(inv[i], uuid, section, bucket)
            && (forall k :: 0 <= k < i ==> !SameCondition(inv[k], uuid, section, bucket)) ==>
              FirstInBucket(inv, uuid, section, bucket) == Some(i)
  {
    hide Round;
    assert SqlBucket(inv[0].condition) == Round(100.0 * inv[0].condition);
    if i > 0 { FirstInBucketIs(inv[1..], uuid, section, bucket, i - 1); }
  }

  lemma {:induction false} FirstWithAmmoIs(inv: seq<InvRow>, uuid: string, section: string, i: nat)
    requires i < |inv|
    ensures Loaded(inv[i], uuid, section) && (forall k :: 0 <= k < i ==> !Loaded(inv[k], uuid, section)) ==>
              FirstWithAmmo(inv, uuid, section) == Some(i)
  {
    if i > 0 { FirstWithAmmoIs(inv[1..], uuid, section, i - 1); }
  }

  // ---- The world ----------------------------------------------------------------------------------------------

  /** The items that lie on a level, by row. */
  ghost function RowsOn(world: seq<WorldRow>, level: string): set<int> {
    set i | 0 <= i < |world| && world[i].level == level
  }

  lemma RowsOnCons(row: WorldRow, rest: seq<WorldRow>, level: string, i: int)
    ensures i in RowsOn([row] + rest, level) <==> i - 1 in RowsOn(rest, level) || (i == 0 && row.level == level)
  {
    assert 0 < i <= |rest| ==> ([row] + rest)[i] == rest[i - 1];
  }

  lemma {:induction false} OnLevelCounts(world: seq<WorldRow>, level: string)
    ensures OnLevel(world, level) == |RowsOn(world, level)|
  {
    if world == [] {
      assert RowsOn(world, level) == {};
    } else {
      var rest := world[1..];
      OnLevelCounts(rest, level);
      var shifted := set i | i in RowsOn(rest, level) :: i + 1;
      ShiftSize(RowsOn(rest, level), shifted);
      var first := if world[0].level == level then {0} else {};
      assert world == [world[0]] + rest;
      hide RowsOn;
      forall i
        ensures i in RowsOn(world, level) <==> i in shifted + first
      {
        RowsOnCons(world[0], rest, level, i);
        if i - 1 in RowsOn(rest, level) { assert (i - 1) + 1 in shifted; }
      }
      assert RowsOn(world, level) == shifted + first;
      NotShifted(rest, level);
    }
  }

  lemma NotShifted(rest: seq<WorldRow>, level: string)
    ensures 0 !in (set i | i in RowsOn(rest, level) :: i + 1)
  {
  }

  lemma {:induction false} ShiftSize(s: set<int>, t: set<int>)
    requires t == set i | i in s :: i + 1
    ensures |t| == |s|
  {
    if s != {} {
      var x := SomeMember(s);
      var s', t' := s - {x}, t - {x + 1};
      forall y
        ensures y in t' <==> y in (set i | i in s' :: i + 1)
      {
        if y in t' {
          var i :| i in s && i + 1 == y;
          assert i in s';
        }
      }
      ShiftSize(s', t');
      assert x + 1 in t;
    } else {
      assert t == {};
    }
  }
}
