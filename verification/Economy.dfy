/** Drops, pickups, stashes and trade over the database tables, each one transaction. */
module Economy {
  import opened Basics
  import opened Inventory

  datatype WorldRow = WorldRow(id: int, level: string, x: real, y: real, z: real, section: string, count: int,
      condition: real, created: int)

  datatype StashItem = StashItem(section: string, count: int, bucket: int)

  datatype StashRow = StashRow(id: int, level: string, items: seq<StashItem>)

  datatype State = State(
    rubles: map<string, int>,
    inventory: seq<InvRow>, nextInv: int,
    world: seq<WorldRow>, nextWorld: int,
    stashes: seq<StashRow>)

  datatype Error =
    | InsufficientItems(held: int) | WorldItemLimit | WorldItemNotFound
    | InvalidStashCount | InvalidItemCondition | StashNotFound | StashWrongLevel | StashContentsTooLarge
    | ItemNotFoundStash | InsufficientCount | CharacterNotFound | NotTraded | ForeignKey

  datatype Reply =
    | Refused(error: Error)
    | Dropped(id: int, left: int, condition: real)
    | PickedUp(item: WorldRow)
    | Consumed(left: int)
    | Expired(items: seq<WorldRow>)
    | Deposited(bucket: int)
    | Withdrawn(bucket: int)
    | Bought
    | Sold(bucket: int)

  datatype Op =
    | Drop(uuid: string, level: string, section: string, count: int, x: real, y: real, z: real, preferred: int,
        maxPerLevel: int, now: int)
    | Pickup(uuid: string, id: int)
    | Consume(uuid: string, section: string, count: int)
    | Expire(cutoff: int)
    | Deposit(stash: int, uuid: string, level: string, section: string, count: int, preferred: int)
    | Withdraw(stash: int, uuid: string, level: string, section: string, count: int, bucket: int)
    | Buy(uuid: string, section: string, count: int, bucket: int, price: int)
    | Sell(uuid: string, section: string, count: int, price: int)

  const MAX_JSON: int := 4096
  const MAX_STASH_ITEMS: int := 256

  // ---- Queries ------------------------------------------------------------------------

  function OnLevel(world: seq<WorldRow>, level: string): int {
    if world == [] then 0 else (if world[0].level == level then 1 else 0) + OnLevel(world[1..], level)
  }

  function FindWorld(world: seq<WorldRow>, id: int): Option<nat> {
    if world == [] then None else if world[0].id == id then Some(0)
    else match FindWorld(world[1..], id) case None => None case Some(i) => Some(i + 1)
  }

  function FindStash(stashes: seq<StashRow>, id: int): Option<nat> {
    if stashes == [] then None else if stashes[0].id == id then Some(0)
    else match FindStash(stashes[1..], id) case None => None case Some(i) => Some(i + 1)
  }

  function FindItem(items: seq<StashItem>, section: string, bucket: int): Option<nat> {
    if items == [] then None else if items[0].section == section && items[0].bucket == bucket then Some(0)
    else match FindItem(items[1..], section, bucket) case None => None case Some(i) => Some(i + 1)
  }

  function OlderThan(world: seq<WorldRow>, cutoff: int, old_: bool): seq<WorldRow> {
    if world == [] then []
    else (if (world[0].created <= cutoff) == old_ then [world[0]] else []) + OlderThan(world[1..], cutoff, old_)
  }

  function Without<T>(s: seq<T>, i: nat): seq<T>
    requires i < |s|
  {
    s[..i] + s[i + 1..]
  }

  lemma {:induction false} FindWorldExact(world: seq<WorldRow>, id: int)
    ensures var f := FindWorld(world, id);
            if f.Some? then f.value < |world| && world[f.value].id == id
            else forall i :: 0 <= i < |world| ==> world[i].id != id
  {
    if world != [] { FindWorldExact(world[1..], id); }
  }

  lemma {:induction false} FindStashExact(stashes: seq<StashRow>, id: int)
    ensures var f := FindStash(stashes, id); f.Some? ==> f.value < |stashes| && stashes[f.value].id == id
  {
    if stashes != [] { FindStashExact(stashes[1..], id); }
  }

  lemma {:induction false} FindItemExact(items: seq<StashItem>, section: string, bucket: int)
    ensures var f := FindItem(items, section, bucket);
            f.Some? ==> f.value < |items| && items[f.value].section == section && items[f.value].bucket == bucket
  {
    if items != [] { FindItemExact(items[1..], section, bucket); }
  }

  // ---- Stash contents -----------------------------------------------------------------------

  function AddItem(items: seq<StashItem>, section: string, count: int, bucket: int): seq<StashItem> {
    FindItemExact(items, section, bucket);
    match FindItem(items, section, bucket)
    case Some(i) => items[i := items[i].(count := items[i].count + count)]
    case None => items + [StashItem(section, count, bucket)]
  }

  function TakeItem(items: seq<StashItem>, i: nat, count: int): seq<StashItem>
    requires i < |items|
  {
    if items[i].count - count == 0 then Without(items, i) else items[i := items[i].(count := items[i].count - count)]
  }

  // ---- Operations ------------------------------------------------------------------------------

  ghost function Apply(st: State, op: Op, jsonSize: seq<StashItem> -> int): (State, Reply) {
    match op
    case Drop(uuid, level, section, count, x, y, z, preferred, maxPerLevel, now) => DropSpec(st, op)
    case Pickup(uuid, id) =>
      FindWorldExact(st.world, id);
      var f := FindWorld(st.world, id);
      if f.None? then (st, Refused(WorldItemNotFound)) else
      var wi := st.world[f.value];
      if !Creditable(st, uuid, wi.section, WireBucket(Clamp01(wi.condition))) then (st, Refused(ForeignKey)) else
      var (inv, next) := Credit(st.inventory, st.nextInv, uuid, wi.section, wi.count,
          WireBucket(Clamp01(wi.condition)));
      (st.(world := Without(st.world, f.value), inventory := inv, nextInv := next), PickedUp(wi))
    case Consume(uuid, section, count) =>
      if count <= 0 then (st, Refused(InsufficientItems(0))) else
      var rm := Remove(st.inventory, uuid, section, count, -1);
      if !rm.ok then (st, Refused(InsufficientItems(rm.total)))
      else (st.(inventory := rm.rows), Consumed(rm.total - count))
    case Expire(cutoff) =>
      (st.(world := OlderThan(st.world, cutoff, false)), Expired(OlderThan(st.world, cutoff, true)))
    case Deposit(stash, uuid, level, section, count, preferred) => DepositSpec(st, op, jsonSize)
    case Withdraw(stash, uuid, level, section, count, bucket) => WithdrawSpec(st, op)
    case Buy(uuid, section, count, bucket, price) =>
      if count <= 0 || price <= 0 then (st, Refused(NotTraded))
      else if uuid !in st.rubles then (st, Refused(CharacterNotFound))
      else if st.rubles[uuid] < price then (st, Refused(NotTraded)) else
      var (inv, next) := Credit(st.inventory, st.nextInv, uuid, section, count, bucket);
      (st.(rubles := st.rubles[uuid := st.rubles[uuid] - price], inventory := inv, nextInv := next), Bought)
    case Sell(uuid, section, count, price) =>
      if count <= 0 || price <= 0 then (st, Refused(NotTraded)) else
      var rm := Remove(st.inventory, uuid, section, count, -1);
      if !rm.ok then (st, Refused(NotTraded))
      else if uuid !in st.rubles then (st, Refused(CharacterNotFound))
      else (st.(rubles := st.rubles[uuid := st.rubles[uuid] + price], inventory := rm.rows),
          Sold(WireBucket(rm.condition)))
  }

  /** A credit that has to insert a row needs the character the row refers to. */
  predicate Creditable(st: State, uuid: string, section: string, bucket: int) {
    FirstInBucket(st.inventory, uuid, section, bucket).Some? || FirstWithAmmo(st.inventory, uuid, section).Some?
        || uuid in st.rubles
  }

  ghost function DropSpec(st: State, op: Op): (State, Reply)
    requires op.Drop?
  {
    if op.count <= 0 then (st, Refused(InsufficientItems(0)))
    else if op.maxPerLevel > 0 && OnLevel(st.world, op.level) >= op.maxPerLevel then (st, Refused(WorldItemLimit))
    else
      var rm := Remove(st.inventory, op.uuid, op.section, op.count, op.preferred);
      if !rm.ok then (st, Refused(InsufficientItems(rm.total))) else
      var row := WorldRow(st.nextWorld, op.level, op.x, op.y, op.z, op.section, op.count, Clamp01(rm.condition),
          op.now);
      (st.(inventory := rm.rows, world := st.world + [row], nextWorld := st.nextWorld + 1),
       Dropped(row.id, rm.total - op.count, rm.condition))
  }

  ghost function DepositSpec(st: State, op: Op, jsonSize: seq<StashItem> -> int): (State, Reply)
    requires op.Deposit?
  {
    if op.count < 1 || op.count > 65535 then (st, Refused(InvalidStashCount))
    else if op.preferred < 0 || op.preferred > 100 then (st, Refused(InvalidItemCondition))
    else
      FindStashExact(st.stashes, op.stash);
      var f := FindStash(st.stashes, op.stash);
      if f.None? then (st, Refused(StashNotFound))
      else if st.stashes[f.value].level != op.level then (st, Refused(StashWrongLevel))
      else
        var rm := Remove(st.inventory, op.uuid, op.section, op.count, op.preferred);
        if !rm.ok then (st, Refused(InsufficientItems(rm.total))) else
        var bucket := WireBucket(rm.condition);
        var items := AddItem(st.stashes[f.value].items, op.section, op.count, bucket);
        if jsonSize(items) > MAX_JSON || |items| > MAX_STASH_ITEMS then (st, Refused(StashContentsTooLarge))
        else (st.(inventory := rm.rows, stashes := st.stashes[f.value := st.stashes[f.value].(items := items)]),
            Deposited(bucket))
  }

  ghost function WithdrawSpec(st: State, op: Op): (State, Reply)
    requires op.Withdraw?
  {
    if op.count < 1 || op.count > 65535 then (st, Refused(InvalidStashCount))
    else if op.bucket < 0 || op.bucket > 100 then (st, Refused(InvalidItemCondition))
    else
      FindStashExact(st.stashes, op.stash);
      var f := FindStash(st.stashes, op.stash);
      if f.None? then (st, Refused(StashNotFound))
      else if st.stashes[f.value].level != op.level then (st, Refused(StashWrongLevel))
      else
        var items := st.stashes[f.value].items;
        FindItemExact(items, op.section, op.bucket);
        var i := FindItem(items, op.section, op.bucket);
        if i.None? then (st, Refused(ItemNotFoundStash))
        else if items[i.value].count < op.count then (st, Refused(InsufficientCount))
        else
          if !Creditable(st, op.uuid, op.section, items[i.value].bucket) then (st, Refused(ForeignKey)) else
          var rest := TakeItem(items, i.value, op.count);
          var (inv, next) := Credit(st.inventory, st.nextInv, op.uuid, op.section, op.count, items[i.value].bucket);
          (st.(inventory := inv, nextInv := next,
              stashes := st.stashes[f.value := st.stashes[f.value].(items := rest)]),
           Withdrawn(items[i.value].bucket))
  }

  /** A refused operation has changed nothing. */
  lemma RefusedChangesNothing(st: State, op: Op, jsonSize: seq<StashItem> -> int)
    ensures Apply(st, op, jsonSize).1.Refused? ==> Apply(st, op, jsonSize).0 == st
  {
  }

  // ---- The invariant ---------------------------------------------------------------------------

  ghost predicate GoodItems(items: seq<StashItem>) { forall i :: 0 <= i < |items| ==> items[i].count > 0 }

  ghost predicate GoodWorld(world: seq<WorldRow>, nextWorld: int) {
    && (forall i :: 0 <= i < |world| ==> world[i].id < nextWorld && world[i].count > 0)
    && (forall i, j :: 0 <= i < j < |world| ==> world[i].id < world[j].id)
  }

  /** Positive counts everywhere, no ammunition rows, no debt, ids fresh. */
  ghost predicate Good(st: State) {
    && Rows(st.inventory, st.nextInv) && NoAmmo(st.inventory)
    && GoodWorld(st.world, st.nextWorld)
    && (forall i :: 0 <= i < |st.stashes| ==> GoodItems(st.stashes[i].items))
    && (forall u :: u in st.rubles ==> st.rubles[u] >= 0)
  }

  ghost function WorldLots(world: seq<WorldRow>): seq<Lot> {
    seq(|world|, i requires 0 <= i < |world| => Lot(world[i].section, WireBucket(world[i].condition), world[i].count))
  }

  ghost function ItemLots(items: seq<StashItem>): seq<Lot> {
    seq(|items|, i requires 0 <= i < |items| => Lot(items[i].section, items[i].bucket, items[i].count))
  }

  ghost function StashStock(stashes: seq<StashRow>, want: (string, int) -> bool): int {
    if stashes == [] then 0 else Stock(ItemLots(stashes[0].items), want) + StashStock(stashes[1..], want)
  }

  /** All wanted items there are: carried, lying in the world, and stored. */
  ghost function Holdings(st: State, want: (string, int) -> bool): int {
    Stock(Lots(st.inventory), want) + Stock(WorldLots(st.world), want) + StashStock(st.stashes, want)
  }

  // ---- Each table ----------------------------------------------------------------------------------

  lemma {:induction false} StashUpdate(stashes: seq<StashRow>, i: nat, row: StashRow, want: (string, int) -> bool)
    requires i < |stashes|
    ensures StashStock(stashes[i := row], want)
            == StashStock(stashes, want) - Stock(ItemLots(stashes[i].items), want) + Stock(ItemLots(row.items), want)
  {
    if i == 0 {
      assert stashes[i := row][1..] == stashes[1..];
    } else {
      assert stashes[i := row][1..] == stashes[1..][i - 1 := row];
      StashUpdate(stashes[1..], i - 1, row, want);
    }
  }

  lemma AddItemStock(items: seq<StashItem>, section: string, count: int, bucket: int, want: (string, int) -> bool)
    requires GoodItems(items) && count > 0
    ensures GoodItems(AddItem(items, section, count, bucket))
    ensures Stock(ItemLots(AddItem(items, section, count, bucket)), want)
            == Stock(ItemLots(items), want) + if want(section, bucket) then count else 0
  {
    FindItemExact(items, section, bucket);
    var f := FindItem(items, section, bucket);
    var out := AddItem(items, section, count, bucket);
    if f.Some? {
      var i := f.value;
      var lot := Lot(section, bucket, items[i].count + count);
      assert ItemLots(out) == ItemLots(items)[..i] + [lot] + ItemLots(items)[i + 1..];
      StockSplice(ItemLots(items), i, [lot], want);
      StockOne(lot, want);
    } else {
      var lot := Lot(section, bucket, count);
      assert ItemLots(out) == ItemLots(items) + [lot];
      StockAppend(ItemLots(items), [lot], want);
      StockOne(lot, want);
    }
  }

  lemma TakeItemStock(items: seq<StashItem>, i: nat, count: int, want: (string, int) -> bool)
    requires GoodItems(items) && i < |items| && 0 < count <= items[i].count
    ensures GoodItems(TakeItem(items, i, count))
    ensures Stock(ItemLots(TakeItem(items, i, count)), want)
            == Stock(ItemLots(items), want) - if want(items[i].section, items[i].bucket) then count else 0
  {
    var left := items[i].count - count;
    var put := if left == 0 then [] else [Lot(items[i].section, items[i].bucket, left)];
    assert ItemLots(TakeItem(items, i, count)) == ItemLots(items)[..i] + put + ItemLots(items)[i + 1..];
    StockSplice(ItemLots(items), i, put, want);
    if put != [] { StockOne(put[0], want); }
  }

  lemma WorldAppend(world: seq<WorldRow>, row: WorldRow, want: (string, int) -> bool)
    ensures Stock(WorldLots(world + [row]), want)
            == Stock(WorldLots(world), want) + if want(row.section, WireBucket(row.condition)) then row.count else 0
  {
    hide WireBucket;
    var lot := Lot(row.section, WireBucket(row.condition), row.count);
    assert WorldLots(world + [row]) == WorldLots(world) + [lot];
    StockAppend(WorldLots(world), [lot], want);
    StockOne(lot, want);
  }

  lemma StockNone(want: (string, int) -> bool)
    ensures Stock([], want) == 0
  {
  }

  lemma WorldRemove(world: seq<WorldRow>, nextWorld: int, i: nat, want: (string, int) -> bool)
    requires i < |world| && GoodWorld(world, nextWorld)
    ensures GoodWorld(Without(world, i), nextWorld)
    ensures Stock(WorldLots(Without(world, i)), want)
            == Stock(WorldLots(world), want)
               - if want(world[i].section, WireBucket(world[i].condition)) then world[i].count else 0
  {
    hide WireBucket, Stock;
    assert WorldLots(Without(world, i)) == WorldLots(world)[..i] + [] + WorldLots(world)[i + 1..];
    StockSplice(WorldLots(world), i, [], want);
    StockNone(want);
  }

  lemma {:induction false} OlderThanExact(world: seq<WorldRow>, cutoff: int, old_: bool, r: WorldRow)
    ensures r in OlderThan(world, cutoff, old_) <==> r in world && (r.created <= cutoff) == old_
  {
    if world != [] { OlderThanExact(world[1..], cutoff, old_, r); }
  }

  lemma {:induction false} OlderThanGood(world: seq<WorldRow>, nextWorld: int, cutoff: int)
    requires GoodWorld(world, nextWorld)
    ensures GoodWorld(OlderThan(world, cutoff, false), nextWorld)
  {
    if world != [] {
      var rest := OlderThan(world[1..], cutoff, false);
      OlderThanGood(world[1..], nextWorld, cutoff);
      forall j | 0 <= j < |rest|
        ensures world[0].id < rest[j].id
      {
        OlderThanExact(world[1..], cutoff, false, rest[j]);
      }
    }
  }

  /** Expiry splits the world items into those deleted and those kept. */
  lemma {:induction false} WorldSplit(world: seq<WorldRow>, cutoff: int, want: (string, int) -> bool)
    ensures Stock(WorldLots(world), want)
            == Stock(WorldLots(OlderThan(world, cutoff, false)), want)
               + Stock(WorldLots(OlderThan(world, cutoff, true)), want)
  {
    hide WireBucket, WorldLots, Stock;
    if world != [] {
      var rest := world[1..];
      var kept, gone := OlderThan(rest, cutoff, false), OlderThan(rest, cutoff, true);
      WorldSplit(rest, cutoff, want);
      WorldCons(world[0], rest, want);
      WorldCons(world[0], kept, want);
      WorldCons(world[0], gone, want);
      assert world == [world[0]] + rest;
      assert [] + kept == kept && [] + gone == gone;
    } else {
      WorldNone(want);
    }
  }

  lemma WorldNone(want: (string, int) -> bool)
    ensures Stock(WorldLots([]), want) == 0
  {
  }

  lemma WorldCons(row: WorldRow, rest: seq<WorldRow>, want: (string, int) -> bool)
    ensures Stock(WorldLots([row] + rest), want)
            == Stock(WorldLots(rest), want) + if want(row.section, WireBucket(row.condition)) then row.count else 0
  {
    hide WireBucket;
    assert WorldLots([row] + rest)[1..] == WorldLots(rest);
  }

  // ---- Removing and crediting, per section -------------------------------------------------------------

  /** A successful removal takes exactly the items asked for out of the inventory. */
  lemma RemoveEffect(inv: seq<InvRow>, nextId: int, uuid: string, section: string, count: int, preferred: int,
      want: (string, int) -> bool)
    requires Rows(inv, nextId) && count > 0 && BySection(want)
    ensures var rm := Remove(inv, uuid, section, count, preferred);
            rm.ok ==> Rows(rm.rows, nextId) && (NoAmmo(inv) ==> NoAmmo(rm.rows))
                      && Stock(Lots(rm.rows), want) == Stock(Lots(inv), want) - if want(section, 0) then count else 0
  {
    hide Rows, NoAmmo, Lots, Stock, WireBucket, Drain, Drained, BySection;
    var held := Held(inv, uuid, section, preferred);
    HeldExact(inv, nextId, uuid, section, preferred);
    if Total(held) >= count {
      DrainEffect(inv, nextId, held, count, want);
      forall i | 0 <= i < |held|
        ensures want(held[i].section, WireBucket(held[i].condition)) == want(section, 0)
      {
        assert held[i] in held;
        SectionOnly(want, section, WireBucket(held[i].condition));
      }
      if want(section, 0) { DrainedAll(held, count, want); } else { DrainedNone(held, count, want); }
    }
  }

  lemma SectionOnly(want: (string, int) -> bool, s: string, b: int)
    requires BySection(want)
    ensures want(s, b) == want(s, 0)
  {
  }

  // ---- One operation ---------------------------------------------------------------------------------

  /** The items that an operation brings into the game, per its reply. */
  ghost function Flow(op: Op, reply: Reply, want: (string, int) -> bool): int {
    match reply
    case Bought => if op.Buy? && want(op.section, 0) then op.count else 0
    case Sold(_) => if op.Sell? && want(op.section, 0) then -op.count else 0
    case Consumed(_) => if op.Consume? && want(op.section, 0) then -op.count else 0
    case Expired(items) => -Stock(WorldLots(items), want)
    case _ => 0
  }

  /** What one operation owes the invariant and the balance. */
  ghost predicate Balanced(st: State, op: Op, result: (State, Reply), want: (string, int) -> bool) {
    && Good(result.0)
    && Holdings(result.0, want) == Holdings(st, want) + Flow(op, result.1, want)
  }

  lemma DropBalanced(st: State, op: Op, want: (string, int) -> bool)
    requires Good(st) && BySection(want) && op.Drop?
    ensures Balanced(st, op, DropSpec(st, op), want)
  {
    hide Rows, NoAmmo, Lots, Stock, WorldLots, WireBucket, BySection, Remove, OnLevel;
    if op.count > 0 {
      RemoveEffect(st.inventory, st.nextInv, op.uuid, op.section, op.count, op.preferred, want);
      var rm := Remove(st.inventory, op.uuid, op.section, op.count, op.preferred);
      var row := WorldRow(st.nextWorld, op.level, op.x, op.y, op.z, op.section, op.count, Clamp01(rm.condition),
          op.now);
      WorldAppend(st.world, row, want);
      SectionOnly(want, op.section, WireBucket(row.condition));
    }
  }

  lemma PickupBalanced(st: State, op: Op, jsonSize: seq<StashItem> -> int, want: (string, int) -> bool)
    requires Good(st) && BySection(want) && op.Pickup?
    ensures Balanced(st, op, Apply(st, op, jsonSize), want)
  {
    hide Rows, NoAmmo, Lots, Stock, WorldLots, WireBucket, BySection, Credit, Creditable;
    FindWorldExact(st.world, op.id);
    var f := FindWorld(st.world, op.id);
    if f.Some? {
      var wi := st.world[f.value];
      var bucket := WireBucket(Clamp01(wi.condition));
      WorldRemove(st.world, st.nextWorld, f.value, want);
      CreditEffect(st.inventory, st.nextInv, op.uuid, wi.section, wi.count, bucket, want);
      SectionOnly(want, wi.section, bucket);
      SectionOnly(want, wi.section, WireBucket(wi.condition));
    }
  }

  lemma DepositBalanced(st: State, op: Op, jsonSize: seq<StashItem> -> int, want: (string, int) -> bool)
    requires Good(st) && BySection(want) && op.Deposit?
    ensures Balanced(st, op, DepositSpec(st, op, jsonSize), want)
  {
    hide Rows, NoAmmo, Lots, Stock, ItemLots, WorldLots, WireBucket, BySection, Remove, GoodItems, AddItem, GoodWorld;
    FindStashExact(st.stashes, op.stash);
    var f := FindStash(st.stashes, op.stash);
    if op.count >= 1 && f.Some? {
      RemoveEffect(st.inventory, st.nextInv, op.uuid, op.section, op.count, op.preferred, want);
      var rm := Remove(st.inventory, op.uuid, op.section, op.count, op.preferred);
      var bucket := WireBucket(rm.condition);
      var row := st.stashes[f.value];
      AddItemStock(row.items, op.section, op.count, bucket, want);
      StashUpdate(st.stashes, f.value, row.(items := AddItem(row.items, op.section, op.count, bucket)), want);
      SectionOnly(want, op.section, bucket);
    }
  }

  lemma WithdrawBalanced(st: State, op: Op, want: (string, int) -> bool)
    requires Good(st) && BySection(want) && op.Withdraw?
    ensures Balanced(st, op, WithdrawSpec(st, op), want)
  {
    hide Rows, NoAmmo, Lots, Stock, ItemLots, WorldLots, WireBucket, BySection, Credit, Creditable, GoodItems, TakeItem,
         GoodWorld;
    FindStashExact(st.stashes, op.stash);
    var f := FindStash(st.stashes, op.stash);
    if op.count >= 1 && f.Some? {
      var row := st.stashes[f.value];
      FindItemExact(row.items, op.section, op.bucket);
      var i := FindItem(row.items, op.section, op.bucket);
      if i.Some? && row.items[i.value].count >= op.count {
        TakeItemStock(row.items, i.value, op.count, want);
        StashUpdate(st.stashes, f.value, row.(items := TakeItem(row.items, i.value, op.count)), want);
        CreditEffect(st.inventory, st.nextInv, op.uuid, op.section, op.count, op.bucket, want);
      }
    }
  }

  lemma TradeBalanced(st: State, op: Op, jsonSize: seq<StashItem> -> int, want: (string, int) -> bool)
    requires Good(st) && BySection(want) && (op.Buy? || op.Sell? || op.Consume?)
    ensures Balanced(st, op, Apply(st, op, jsonSize), want)
  {
    hide Rows, NoAmmo, Lots, Stock, WorldLots, WireBucket, BySection, Credit, Remove, GoodWorld;
    if op.count > 0 {
      if op.Buy? {
        CreditEffect(st.inventory, st.nextInv, op.uuid, op.section, op.count, op.bucket, want);
        SectionOnly(want, op.section, op.bucket);
      } else {
        RemoveEffect(st.inventory, st.nextInv, op.uuid, op.section, op.count, -1, want);
      }
    }
  }

  lemma ExpireBalanced(st: State, op: Op, jsonSize: seq<StashItem> -> int, want: (string, int) -> bool)
    requires Good(st) && op.Expire?
    ensures Balanced(st, op, Apply(st, op, jsonSize), want)
  {
    OlderThanGood(st.world, st.nextWorld, op.cutoff);
    WorldSplit(st.world, op.cutoff, want);
  }

  /** Every operation keeps the invariant, and changes the items of a section by its flow alone. */
  lemma StepBalanced(st: State, op: Op, jsonSize: seq<StashItem> -> int, want: (string, int) -> bool)
    requires Good(st) && BySection(want)
    ensures Balanced(st, op, Apply(st, op, jsonSize), want)
  {
    hide Balanced, Good, BySection;
    match op
    case Drop(_, _, _, _, _, _, _, _, _, _) => DropBalanced(st, op, want);
    case Pickup(_, _) => PickupBalanced(st, op, jsonSize, want);
    case Consume(_, _, _) => TradeBalanced(st, op, jsonSize, want);
    case Expire(_) => ExpireBalanced(st, op, jsonSize, want);
    case Deposit(_, _, _, _, _, _) => DepositBalanced(st, op, jsonSize, want);
    case Withdraw(_, _, _, _, _, _) => WithdrawBalanced(st, op, want);
    case Buy(_, _, _, _, _) => TradeBalanced(st, op, jsonSize, want);
    case Sell(_, _, _, _) => TradeBalanced(st, op, jsonSize, want);
  }

  // ---- Runs -----------------------------------------------------------------------------------------------

  ghost function Run(st: State, ops: seq<Op>, jsonSize: seq<StashItem> -> int): State
    decreases |ops|
  {
    if ops == [] then st else Run(Apply(st, ops[0], jsonSize).0, ops[1..], jsonSize)
  }

  ghost function RunFlow(st: State, ops: seq<Op>, jsonSize: seq<StashItem> -> int, want: (string, int) -> bool): int
    decreases |ops|
  {
    if ops == [] then 0 else
      var (next, reply) := Apply(st, ops[0], jsonSize);
      Flow(ops[0], reply, want) + RunFlow(next, ops[1..], jsonSize, want)
  }

  /** Over any run, a section's items are the initial ones plus bought less sold, consumed and expired. */
  lemma {:induction false} RunConserves(st: State, ops: seq<Op>, jsonSize: seq<StashItem> -> int,
      want: (string, int) -> bool)
    requires Good(st) && BySection(want)
    ensures Good(Run(st, ops, jsonSize))
    ensures Holdings(Run(st, ops, jsonSize), want) == Holdings(st, want) + RunFlow(st, ops, jsonSize, want)
    decreases |ops|
  {
    hide Good, Holdings, Flow, Apply, BySection;
    if ops != [] {
      StepBalanced(st, ops[0], jsonSize, want);
      RunConserves(Apply(st, ops[0], jsonSize).0, ops[1..], jsonSize, want);
    }
  }

  /** What a user earned by selling and spent on buying. */
  ghost function Income(op: Op, reply: Reply, user: string): int {
    match reply
    case Bought => if op.Buy? && op.uuid == user then -op.price else 0
    case Sold(_) => if op.Sell? && op.uuid == user then op.price else 0
    case _ => 0
  }

  ghost function RunIncome(st: State, ops: seq<Op>, jsonSize: seq<StashItem> -> int, user: string): int
    decreases |ops|
  {
    if ops == [] then 0 else
      var (next, reply) := Apply(st, ops[0], jsonSize);
      Income(ops[0], reply, user) + RunIncome(next, ops[1..], jsonSize, user)
  }

  /** A user's money changes by the price of completed trades and by nothing else. */
  lemma {:induction false} RunMoney(st: State, ops: seq<Op>, jsonSize: seq<StashItem> -> int, user: string)
    requires user in st.rubles
    ensures user in Run(st, ops, jsonSize).rubles
    ensures Run(st, ops, jsonSize).rubles[user] == st.rubles[user] + RunIncome(st, ops, jsonSize, user)
    decreases |ops|
  {
    if ops != [] {
      StepMoney(st, ops[0], jsonSize, user);
      hide Apply, Income;
      RunMoney(Apply(st, ops[0], jsonSize).0, ops[1..], jsonSize, user);
    }
  }

  lemma StepMoney(st: State, op: Op, jsonSize: seq<StashItem> -> int, user: string)
    requires user in st.rubles
    ensures var (next, reply) := Apply(st, op, jsonSize);
            user in next.rubles && next.rubles[user] == st.rubles[user] + Income(op, reply, user)
  {
    hide Credit, Remove, Creditable, AddItem, TakeItem, WireBucket;
  }

  // ---- A world item is picked up once ------------------------------------------------------------------------

  ghost predicate Gone(st: State, id: int) {
    id < st.nextWorld && forall i :: 0 <= i < |st.world| ==> st.world[i].id != id
  }

  lemma StepGone(st: State, op: Op, jsonSize: seq<StashItem> -> int, id: int)
    requires Gone(st, id)
    ensures Gone(Apply(st, op, jsonSize).0, id)
  {
    hide Credit, Remove, Creditable, AddItem, TakeItem, WireBucket;
    match op
    case Expire(cutoff) =>
      forall i | 0 <= i < |OlderThan(st.world, cutoff, false)|
        ensures OlderThan(st.world, cutoff, false)[i].id != id
      {
        OlderThanExact(st.world, cutoff, false, OlderThan(st.world, cutoff, false)[i]);
      }
    case Pickup(_, other) => FindWorldExact(st.world, other);
    case _ =>
  }

  /** After a pickup of an item, every later pickup of it is refused, whatever happens in between. */
  lemma {:induction false} PickedUpOnce(st: State, uuid: string, id: int, jsonSize: seq<StashItem> -> int, ops: seq<Op>,
      again: string)
    requires Good(st) && Apply(st, Pickup(uuid, id), jsonSize).1.PickedUp?
    ensures var later := Run(Apply(st, Pickup(uuid, id), jsonSize).0, ops, jsonSize);
            Apply(later, Pickup(again, id), jsonSize) == (later, Refused(WorldItemNotFound))
  {
    FindWorldExact(st.world, id);
    var next := Apply(st, Pickup(uuid, id), jsonSize).0;
    assert Gone(next, id);
    StaysGone(next, ops, jsonSize, id);
    FindWorldExact(Run(next, ops, jsonSize).world, id);
    hide Run, Good;
  }

  lemma {:induction false} StaysGone(st: State, ops: seq<Op>, jsonSize: seq<StashItem> -> int, id: int)
    requires Gone(st, id)
    ensures Gone(Run(st, ops, jsonSize), id)
    decreases |ops|
  {
    hide Apply, Gone;
    if ops != [] {
      StepGone(st, ops[0], jsonSize, id);
      StaysGone(Apply(st, ops[0], jsonSize).0, ops[1..], jsonSize, id);
    }
  }

  // ---- Condition of moved items ---------------------------------------------------------------------------------

  ghost predicate Touched(held: seq<InvRow>, i: nat, count: int)
    requires i < |held|
  {
    Before(held, i) < count
  }

  /** The removal takes items of one condition bucket only. */
  ghost predicate OneBucket(held: seq<InvRow>, count: int, bucket: int) {
    forall i :: 0 <= i < |held| && Touched(held, i, count) ==> WireBucket(held[i].condition) == bucket
  }

  ghost function Exactly(section: string, bucket: int): (string, int) -> bool {
    (s: string, b: int) => s == section && b == bucket
  }

  lemma {:induction false} DrainedAtMost(held: seq<InvRow>, count: int, want: (string, int) -> bool)
    requires Positive(held) && count >= 0
    ensures 0 <= Drained(held, count, want) <= count
    decreases |held|
  {
    if held != [] && count > 0 {
      DrainedAtMost(held[1..], count - Min(held[0].count, count), want);
    }
  }

  /** All of the removed items are of the bucket exactly when the removal touches no row of another one. */
  lemma {:induction false} DrainedIffOneBucket(held: seq<InvRow>, count: int, section: string, bucket: int)
    requires Positive(held) && 0 <= count <= Total(held)
    requires forall i :: 0 <= i < |held| ==> held[i].section == section
    ensures Drained(held, count, Exactly(section, bucket)) == count <==> OneBucket(held, count, bucket)
    decreases |held|
  {
    hide WireBucket;
    var want := Exactly(section, bucket);
    if held == [] || count == 0 {
      forall i | 0 <= i < |held| ensures !Touched(held, i, count) { BeforeNonNeg(held, i); }
    } else {
      var take := Min(held[0].count, count);
      var rest := held[1..];
      TotalNonNeg(rest);
      assert held[..0] == [] && Touched(held, 0, count);
      DrainedAtMost(rest, count - take, want);
      DrainedIffOneBucket(rest, count - take, section, bucket);
      if OneBucket(held, count, bucket) {
        forall i | 0 <= i < |rest| && Touched(rest, i, count - take)
          ensures WireBucket(rest[i].condition) == bucket
        {
          TouchedShift(held, i, count);
          assert Touched(held, i + 1, count);
        }
      }
      if OneBucket(rest, count - take, bucket) && WireBucket(held[0].condition) == bucket {
        forall i | 0 <= i < |held| && Touched(held, i, count)
          ensures WireBucket(held[i].condition) == bucket
        {
          if i > 0 { TouchedShift(held, i - 1, count); }
        }
      }
    }
  }

  lemma TouchedShift(held: seq<InvRow>, i: nat, count: int)
    requires Positive(held) && held != [] && count > 0 && i < |held[1..]|
    ensures Touched(held[1..], i, count - Min(held[0].count, count)) <==> Touched(held, i + 1, count)
  {
    BeforeShift(held, i);
    BeforeNonNeg(held[1..], i);
  }

  /** A removal from rows of one bucket takes items of that bucket only. */
  lemma {:induction false} DrainedOneBucket(held: seq<InvRow>, count: int, section: string, bucket: int,
      want: (string, int) -> bool)
    requires Positive(held) && 0 <= count <= Total(held) && OneBucket(held, count, bucket)
    requires forall i :: 0 <= i < |held| ==> held[i].section == section
    ensures Drained(held, count, want) == if want(section, bucket) then count else 0
    decreases |held|
  {
    hide WireBucket;
    if held != [] && count > 0 {
      var take := Min(held[0].count, count);
      var rest := held[1..];
      TotalNonNeg(rest);
      assert held[..0] == [] && Touched(held, 0, count);
      forall i | 0 <= i < |rest| && Touched(rest, i, count - take)
        ensures WireBucket(rest[i].condition) == bucket
      {
        TouchedShift(held, i, count);
        assert Touched(held, i + 1, count);
      }
      DrainedOneBucket(rest, count - take, section, bucket, want);
    }
  }

  /** The game has as many items of every section and bucket after as before. */
  ghost predicate KeepsBuckets(st: State, next: State) {
    forall s, b :: Holdings(next, Exactly(s, b)) == Holdings(st, Exactly(s, b))
  }

  /** What comes out again as one lot of `bucket` is what was drained, for every section and bucket. */
  ghost predicate Relabels(st: State, next: State, held: seq<InvRow>, count: int, section: string, bucket: int,
      want: (string, int) -> bool) {
    Holdings(next, want) == Holdings(st, want) - Drained(held, count, want) + if want(section, bucket) then count else 0
  }

  lemma KeepsIffOneBucket(st: State, next: State, held: seq<InvRow>, count: int, section: string, bucket: int)
    requires Positive(held) && 0 <= count <= Total(held) && forall i :: 0 <= i < |held| ==> held[i].section == section
    requires forall s, b :: Relabels(st, next, held, count, section, bucket, Exactly(s, b))
    ensures KeepsBuckets(st, next) <==> OneBucket(held, count, bucket)
  {
    hide Holdings, OneBucket, Drained;
    DrainedIffOneBucket(held, count, section, bucket);
    if OneBucket(held, count, bucket) {
      forall s, b
        ensures Holdings(next, Exactly(s, b)) == Holdings(st, Exactly(s, b))
      {
        assert Relabels(st, next, held, count, section, bucket, Exactly(s, b));
        DrainedOneBucket(held, count, section, bucket, Exactly(s, b));
      }
    } else {
      assert Relabels(st, next, held, count, section, bucket, Exactly(section, bucket));
    }
  }

  lemma HeldSection(st: State, uuid: string, section: string, preferred: int)
    requires Good(st)
    ensures var held := Held(st.inventory, uuid, section, preferred);
            Positive(held) && forall i :: 0 <= i < |held| ==> held[i].section == section
  {
    hide Rows, NoAmmo, GoodWorld;
    var held := Held(st.inventory, uuid, section, preferred);
    HeldExact(st.inventory, st.nextInv, uuid, section, preferred);
    forall i | 0 <= i < |held|
      ensures held[i].section == section
    {
      assert held[i] in held;
    }
  }

  lemma DepositRelabels(st: State, op: Op, jsonSize: seq<StashItem> -> int, want: (string, int) -> bool)
    requires Good(st) && op.Deposit? && DepositSpec(st, op, jsonSize).1.Deposited?
    ensures var held := Held(st.inventory, op.uuid, op.section, op.preferred);
            && held != [] && 0 < op.count <= Total(held)
            && Relabels(st, DepositSpec(st, op, jsonSize).0, held, op.count, op.section, WireBucket(held[0].condition),
                want)
  {
    hide Rows, NoAmmo, Lots, Stock, ItemLots, WorldLots, WireBucket, GoodItems, AddItem, GoodWorld, Drain, Drained;
    var held := Held(st.inventory, op.uuid, op.section, op.preferred);
    HeldExact(st.inventory, st.nextInv, op.uuid, op.section, op.preferred);
    FindStashExact(st.stashes, op.stash);
    var f := FindStash(st.stashes, op.stash);
    var row := st.stashes[f.value];
    var bucket := WireBucket(held[0].condition);
    DrainEffect(st.inventory, st.nextInv, held, op.count, want);
    AddItemStock(row.items, op.section, op.count, bucket, want);
    StashUpdate(st.stashes, f.value, row.(items := AddItem(row.items, op.section, op.count, bucket)), want);
  }

  /**
   * A deposit keeps the number of items of every bucket in the whole game exactly when all rows it takes from
   * have the bucket of the first: that row's condition is given to everything that moves.
   */
  lemma DepositKeepsConditionIff(st: State, op: Op, jsonSize: seq<StashItem> -> int)
    requires Good(st) && op.Deposit? && DepositSpec(st, op, jsonSize).1.Deposited?
    ensures var held := Held(st.inventory, op.uuid, op.section, op.preferred);
            && held != []
            && (KeepsBuckets(st, DepositSpec(st, op, jsonSize).0)
                <==> OneBucket(held, op.count, WireBucket(held[0].condition)))
  {
    hide Good, Held, DepositSpec, Relabels, WireBucket, Positive, OneBucket, KeepsBuckets, Total;
    var held := Held(st.inventory, op.uuid, op.section, op.preferred);
    HeldSection(st, op.uuid, op.section, op.preferred);
    var next := DepositSpec(st, op, jsonSize).0;
    DepositRelabels(st, op, jsonSize, Exactly("", 0));
    forall s, b
      ensures Relabels(st, next, held, op.count, op.section, WireBucket(held[0].condition), Exactly(s, b))
    {
      DepositRelabels(st, op, jsonSize, Exactly(s, b));
    }
    KeepsIffOneBucket(st, next, held, op.count, op.section, WireBucket(held[0].condition));
  }

  lemma DropRelabels(st: State, op: Op, want: (string, int) -> bool)
    requires Good(st) && op.Drop? && DropSpec(st, op).1.Dropped?
    ensures var held := Held(st.inventory, op.uuid, op.section, op.preferred);
            && held != [] && 0 < op.count <= Total(held)
            && Relabels(st, DropSpec(st, op).0, held, op.count, op.section, WireBucket(held[0].condition), want)
  {
    hide Rows, NoAmmo, Lots, Stock, WorldLots, WireBucket, GoodWorld, Drain, Drained, Clamp01;
    var held := Held(st.inventory, op.uuid, op.section, op.preferred);
    HeldExact(st.inventory, st.nextInv, op.uuid, op.section, op.preferred);
    ClampedBucket(held[0].condition);
    DrainEffect(st.inventory, st.nextInv, held, op.count, want);
    var condition := Clamp01(held[0].condition);
    var row := WorldRow(st.nextWorld, op.level, op.x, op.y, op.z, op.section, op.count, condition, op.now);
    WorldAppend(st.world, row, want);
  }

  /** Dropping does the same: the dropped pile has the condition of the first row taken. */
  lemma DropKeepsConditionIff(st: State, op: Op)
    requires Good(st) && op.Drop? && DropSpec(st, op).1.Dropped?
    ensures var held := Held(st.inventory, op.uuid, op.section, op.preferred);
            && held != []
            && (KeepsBuckets(st, DropSpec(st, op).0) <==> OneBucket(held, op.count, WireBucket(held[0].condition)))
  {
    hide Good, Held, DropSpec, Relabels, WireBucket, Positive, OneBucket, KeepsBuckets, Total;
    var held := Held(st.inventory, op.uuid, op.section, op.preferred);
    HeldSection(st, op.uuid, op.section, op.preferred);
    var next := DropSpec(st, op).0;
    DropRelabels(st, op, Exactly("", 0));
    forall s, b
      ensures Relabels(st, next, held, op.count, op.section, WireBucket(held[0].condition), Exactly(s, b))
    {
      DropRelabels(st, op, Exactly(s, b));
    }
    KeepsIffOneBucket(st, next, held, op.count, op.section, WireBucket(held[0].condition));
  }

  lemma ClampedBucket(c: real)
    ensures WireBucket(Clamp01(c)) == WireBucket(c)
  {
  }

  /** A pickup or a withdrawal keeps, for every section and bucket, the items that there are. */
  lemma TransfersKeepCondition(st: State, op: Op, jsonSize: seq<StashItem> -> int, want: (string, int) -> bool)
    requires Good(st) && (op.Pickup? || op.Withdraw?)
    ensures Holdings(Apply(st, op, jsonSize).0, want) == Holdings(st, want)
  {
    hide Rows, NoAmmo, Lots, Stock, ItemLots, WorldLots, WireBucket, Clamp01, Credit, Creditable, GoodItems, TakeItem,
         GoodWorld;
    if op.Pickup? {
      FindWorldExact(st.world, op.id);
      var f := FindWorld(st.world, op.id);
      if f.Some? {
        var wi := st.world[f.value];
        ClampedBucket(wi.condition);
        BucketRange(wi.condition);
        PositiveWorld(st, f.value);
        WorldRemove(st.world, st.nextWorld, f.value, want);
        CreditEffect(st.inventory, st.nextInv, op.uuid, wi.section, wi.count, WireBucket(wi.condition), want);
      }
    } else {
      FindStashExact(st.stashes, op.stash);
      var f := FindStash(st.stashes, op.stash);
      if op.count >= 1 && f.Some? {
        var row := st.stashes[f.value];
        FindItemExact(row.items, op.section, op.bucket);
        var i := FindItem(row.items, op.section, op.bucket);
        if i.Some? && row.items[i.value].count >= op.count && 0 <= op.bucket <= 100 {
          TakeItemStock(row.items, i.value, op.count, want);
          StashUpdate(st.stashes, f.value, row.(items := TakeItem(row.items, i.value, op.count)), want);
          CreditEffect(st.inventory, st.nextInv, op.uuid, op.section, op.count, op.bucket, want);
        }
      }
    }
  }

  lemma BucketRange(c: real)
    ensures 0 <= WireBucket(c) <= 100
  {
  }

  lemma PositiveWorld(st: State, i: nat)
    requires Good(st) && i < |st.world|
    ensures st.world[i].count > 0
  {
  }

  /** A worn item rides along on a new one: one deposit of two turns a 5% and a 100% item into two 100% items. */
  lemma WornItemBecomesNew(jsonSize: seq<StashItem> -> int)
    requires jsonSize([StashItem("ak74", 2, 100)]) <= MAX_JSON
    ensures var st := State(map["u" := 0], [InvRow(1, "u", "ak74", 1, 1.0, 0), InvRow(2, "u", "ak74", 1, 0.05, 0)], 3,
            [], 1, [StashRow(7, "l", [])]);
            && Good(st)
            && DepositSpec(st, Deposit(7, "u", "l", "ak74", 2, 100), jsonSize)
               == (State(map["u" := 0], [], 3, [], 1, [StashRow(7, "l", [StashItem("ak74", 2, 100)])]), Deposited(100))
  {
    RifleBuckets();
    RiflesGood();
    RiflesRemoved();
    hide SqlBucket, WireBucket, Remove, Good;
    assert FindItem([], "ak74", 100) == None;
    assert AddItem([], "ak74", 2, 100) == [StashItem("ak74", 2, 100)];
    hide AddItem;
    var row := StashRow(7, "l", []);
    assert FindStash([row], 7) == Some(0);
    assert [row][0 := row.(items := [StashItem("ak74", 2, 100)])] == [StashRow(7, "l", [StashItem("ak74", 2, 100)])];
  }

  lemma RiflesGood()
    ensures Good(State(map["u" := 0], [NEW_RIFLE, WORN_RIFLE], 3, [], 1, [StashRow(7, "l", [])]))
  {
  }

  lemma RiflesRemoved()
    ensures Remove([NEW_RIFLE, WORN_RIFLE], "u", "ak74", 2, 100) == Removal(true, 2, 1.0, [])
  {
    var inv := [NEW_RIFLE, WORN_RIFLE];
    RiflesHeld();
    RiflesDrained();
    hide Held, Drain;
    assert inv[1..] == [WORN_RIFLE];
    assert Total([WORN_RIFLE]) == 1 && Total(inv) == 2;
  }

  const NEW_RIFLE: InvRow := InvRow(1, "u", "ak74", 1, 1.0, 0)
  const WORN_RIFLE: InvRow := InvRow(2, "u", "ak74", 1, 0.05, 0)

  lemma RifleBuckets()
    ensures SqlBucket(1.0) == 100 && SqlBucket(0.05) == 5 && WireBucket(1.0) == 100
  {
  }

  lemma RiflesHeld()
    ensures Held([NEW_RIFLE, WORN_RIFLE], "u", "ak74", 100) == [NEW_RIFLE, WORN_RIFLE]
  {
    RifleBuckets();
    hide SqlBucket;
    var inv := [NEW_RIFLE, WORN_RIFLE];
    assert inv[1..] == [WORN_RIFLE] && [WORN_RIFLE][1..] == [];
    assert Select([WORN_RIFLE], "u", "ak74", 100, true) == []
        && Select([WORN_RIFLE], "u", "ak74", 100, false) == [WORN_RIFLE];
    assert Select(inv, "u", "ak74", 100, true) == [NEW_RIFLE] && Select(inv, "u", "ak74", 100, false) == [WORN_RIFLE];
  }

  lemma RiflesDrained()
    ensures Drain([NEW_RIFLE, WORN_RIFLE], [NEW_RIFLE, WORN_RIFLE], 2) == []
  {
    var inv := [NEW_RIFLE, WORN_RIFLE];
    assert inv[1..] == [WORN_RIFLE] && [WORN_RIFLE][1..] == [];
    assert TakeRow(inv, 1, 1) == [WORN_RIFLE] && TakeRow([WORN_RIFLE], 2, 1) == [];
    assert Drain([WORN_RIFLE], [WORN_RIFLE], 1) == [];
  }

  // ---- Deleting by id --------------------------------------------------------------------------------------------

  /** `DELETE ... WHERE id = ?`, for each of the ids. */
  function WithoutIds(world: seq<WorldRow>, ids: set<int>): seq<WorldRow> {
    if world == [] then [] else (if world[0].id in ids then [] else [world[0]]) + WithoutIds(world[1..], ids)
  }

  ghost function IdsOf(rows: seq<WorldRow>): set<int> { set r | r in rows :: r.id }

  lemma IdsOfSnoc(rows: seq<WorldRow>, r: WorldRow)
    ensures IdsOf(rows + [r]) == IdsOf(rows) + {r.id}
  {
    forall id
      ensures id in IdsOf(rows + [r]) <==> id in IdsOf(rows) + {r.id}
    {
      if id in IdsOf(rows) {
        var q :| q in rows && q.id == id;
        assert q in rows + [r];
      }
      assert r in rows + [r];
    }
  }

  lemma {:induction false} NoneDeleted(world: seq<WorldRow>)
    ensures WithoutIds(world, IdsOf([])) == world
  {
    if world != [] { NoneDeleted(world[1..]); }
  }

  lemma {:induction false} DeleteOne(world: seq<WorldRow>, ids: set<int>, id: int)
    ensures WithoutIds(WithoutIds(world, ids), {id}) == WithoutIds(world, ids + {id})
  {
    if world != [] {
      DeleteOne(world[1..], ids, id);
      var rest := WithoutIds(world[1..], ids);
      assert [] + rest == rest;
      assert ([world[0]] + rest)[1..] == rest;
    }
  }

  lemma {:induction false} WithoutExpired(world: seq<WorldRow>, ids: set<int>, cutoff: int)
    requires forall r :: r in world ==> (r.id in ids <==> r.created <= cutoff)
    ensures WithoutIds(world, ids) == OlderThan(world, cutoff, false)
  {
    if world != [] { WithoutExpired(world[1..], ids, cutoff); }
  }

  /** Ids being unique, deleting the ids of the expired rows leaves exactly the others. */
  lemma ExpiredById(world: seq<WorldRow>, nextWorld: int, cutoff: int)
    requires GoodWorld(world, nextWorld)
    ensures WithoutIds(world, IdsOf(OlderThan(world, cutoff, true))) == OlderThan(world, cutoff, false)
  {
    var expired := OlderThan(world, cutoff, true);
    forall r | r in world
      ensures r.id in IdsOf(expired) <==> r.created <= cutoff
    {
      OlderThanExact(world, cutoff, true, r);
      if r.id in IdsOf(expired) {
        var e :| e in expired && e.id == r.id;
        OlderThanExact(world, cutoff, true, e);
        assert e == r;
      }
    }
    WithoutExpired(world, IdsOf(expired), cutoff);
  }

  // ---- The database ------------------------------------------------------------------------------------------------

  /** Serial transactions on one database; a refused one rolls back. */
  class Database {
    var rubles: map<string, int>
    var inventory: seq<InvRow>
    var nextInv: int
    var world: seq<WorldRow>
    var nextWorld: int
    var stashes: seq<StashRow>

    constructor (st: State)
      ensures Snapshot() == st
    {
      rubles, inventory, nextInv := st.rubles, st.inventory, st.nextInv;
      world, nextWorld, stashes := st.world, st.nextWorld, st.stashes;
    }

    ghost function Snapshot(): State
      reads this
    {
      State(rubles, inventory, nextInv, world, nextWorld, stashes)
    }

    /** `RemoveInventoryItemsLocked`. */
    method RemoveItems(uuid: string, section: string, count: int, preferred: int)
      returns (ok: bool, total: int, condition: real)
      modifies this`inventory
      ensures Removal(ok, total, condition, inventory) == Remove(old(inventory), uuid, section, count, preferred)
    {
      var held := Held(inventory, uuid, section, preferred);
      total := 0;
      condition := 0.0;
      var n := |held|;
      while n > 0
        invariant 0 <= n <= |held| && total == Total(held[n..])
      {
        n := n - 1;
        assert held[n..][1..] == held[n + 1..];
        total := total + held[n].count;
      }
      assert held[0..] == held;
      if total < count {
        return false, total, 0.0;
      }
      ok := true;
      var remaining := count;
      var consumedAny := false;
      ghost var was := inventory;
      for i := 0 to |held|
        invariant Drain(was, held, count) == Drain(inventory, held[i..], remaining)
        invariant consumedAny == (i > 0) && (i > 0 ==> count > 0 && condition == held[0].condition)
        invariant i == 0 ==> condition == 0.0 && remaining == count
      {
        if remaining <= 0 {
          break;
        }
        var r := held[i];
        var take := if r.count > remaining then remaining else r.count;
        assert held[i..][1..] == held[i + 1..];
        inventory := TakeRow(inventory, r.id, take);
        if !consumedAny {
          condition := r.condition;
          consumedAny := true;
        }
        remaining := remaining - take;
      }
    }

    /** `CreditInventoryLocked`; false when the insert breaks the reference to the character. */
    method CreditItems(uuid: string, section: string, count: int, bucket: int) returns (ok: bool)
      modifies this`inventory, this`nextInv
      ensures ok == Creditable(old(Snapshot()), uuid, section, bucket)
      ensures ok ==> (inventory, nextInv) == Credit(old(inventory), old(nextInv), uuid, section, count, bucket)
      ensures !ok ==> inventory == old(inventory) && nextInv == old(nextInv)
    {
      FirstInBucketExact(inventory, uuid, section, bucket);
      FirstWithAmmoExact(inventory, uuid, section);
      var same := FirstInBucket(inventory, uuid, section, bucket);
      if same.Some? {
        var r := inventory[same.value];
        if r.ammo > 0 && r.count <= 1 {
          inventory := inventory[same.value := AddAmmo(r, count)];
        } else {
          inventory := inventory[same.value := r.(count := r.count + count)];
        }
        return true;
      }
      var ammo := FirstWithAmmo(inventory, uuid, section);
      if ammo.Some? {
        inventory := inventory[ammo.value := AddAmmo(inventory[ammo.value], count)];
        return true;
      }
      if uuid !in rubles {
        return false;
      }
      inventory := inventory + [InvRow(nextInv, uuid, section, count, bucket as real / 100.0, 0)];
      nextInv := nextInv + 1;
      return true;
    }

    method DropItem(uuid: string, level: string, section: string, count: int, x: real, y: real, z: real,
                    preferred: int, maxPerLevel: int, now: int)
      returns (reply: Reply)
      modifies this
      ensures (Snapshot(), reply)
              == DropSpec(old(Snapshot()), Drop(uuid, level, section, count, x, y, z, preferred, maxPerLevel, now))
      ensures reply.Refused? ==> Snapshot() == old(Snapshot())
    {
      if count <= 0 {
        return Refused(InsufficientItems(0));
      }
      if maxPerLevel > 0 && OnLevel(world, level) >= maxPerLevel {
        return Refused(WorldItemLimit);
      }
      var ok, total, condition := RemoveItems(uuid, section, count, preferred);
      if !ok {
        return Refused(InsufficientItems(total));
      }
      var id := nextWorld;
      world := world + [WorldRow(id, level, x, y, z, section, count, Clamp01(condition), now)];
      nextWorld := nextWorld + 1;
      return Dropped(id, total - count, condition);
    }

    method PickupItem(uuid: string, id: int, ghost jsonSize: seq<StashItem> -> int) returns (reply: Reply)
      modifies this
      ensures (Snapshot(), reply) == Apply(old(Snapshot()), Pickup(uuid, id), jsonSize)
      ensures reply.Refused? ==> Snapshot() == old(Snapshot())
    {
      FindWorldExact(world, id);
      var f := FindWorld(world, id);
      if f.None? {
        return Refused(WorldItemNotFound);
      }
      var saved := world;
      var wi := world[f.value];
      world := Without(world, f.value);
      var ok := CreditItems(uuid, wi.section, wi.count, WireBucket(Clamp01(wi.condition)));
      if !ok {
        world := saved;
        return Refused(ForeignKey);
      }
      return PickedUp(wi);
    }

    method ConsumeItem(uuid: string, section: string, count: int,
        ghost jsonSize: seq<StashItem> -> int)
      returns (reply: Reply)
      modifies this
      ensures (Snapshot(), reply) == Apply(old(Snapshot()), Consume(uuid, section, count), jsonSize)
      ensures reply.Refused? ==> Snapshot() == old(Snapshot())
    {
      if count <= 0 {
        return Refused(InsufficientItems(0));
      }
      var ok, total, condition := RemoveItems(uuid, section, count, -1);
      return if ok then Consumed(total - count) else Refused(InsufficientItems(total));
    }

    /** Selects the expired rows, then deletes them by id, one after the other. */
    method DeleteOlderThan(cutoff: int, ghost jsonSize: seq<StashItem> -> int) returns (reply: Reply)
      requires GoodWorld(world, nextWorld)
      modifies this`world
      ensures (Snapshot(), reply) == Apply(old(Snapshot()), Expire(cutoff), jsonSize)
      ensures reply.Expired? && (forall r :: r in reply.items <==> r in old(world) && r.created <= cutoff)
      ensures forall r :: r in world <==> r in old(world) && r.created > cutoff
    {
      hide OlderThan, WithoutIds, GoodWorld;
      ghost var was := world;
      var expired := OlderThan(world, cutoff, true);
      NoneDeleted(world);
      for i := 0 to |expired|
        invariant world == WithoutIds(was, IdsOf(expired[..i]))
      {
        DeleteOne(was, IdsOf(expired[..i]), expired[i].id);
        assert expired[..i + 1] == expired[..i] + [expired[i]];
        IdsOfSnoc(expired[..i], expired[i]);
        world := WithoutIds(world, {expired[i].id});
      }
      assert expired[..|expired|] == expired;
      ExpiredById(was, nextWorld, cutoff);
      forall r
        ensures r in expired <==> r in was && r.created <= cutoff
        ensures r in world <==> r in was && r.created > cutoff
      {
        OlderThanExact(was, cutoff, true, r);
        OlderThanExact(was, cutoff, false, r);
      }
      return Expired(expired);
    }

    method DepositItem(stash: int, uuid: string, level: string, section: string, count: int, preferred: int,
                       jsonSize: seq<StashItem> -> int)
      returns (reply: Reply)
      modifies this
      ensures (Snapshot(), reply)
              == DepositSpec(old(Snapshot()), Deposit(stash, uuid, level, section, count, preferred), jsonSize)
      ensures reply.Refused? ==> Snapshot() == old(Snapshot())
    {
      if count < 1 || count > 65535 {
        return Refused(InvalidStashCount);
      }
      if preferred < 0 || preferred > 100 {
        return Refused(InvalidItemCondition);
      }
      FindStashExact(stashes, stash);
      var f := FindStash(stashes, stash);
      if f.None? {
        return Refused(StashNotFound);
      }
      var row := stashes[f.value];
      if row.level != level {
        return Refused(StashWrongLevel);
      }
      var saved := inventory;
      var ok, total, condition := RemoveItems(uuid, section, count, preferred);
      if !ok {
        return Refused(InsufficientItems(total));
      }
      var bucket := WireBucket(condition);
      var items := row.items;
      FindItemExact(items, section, bucket);
      var idx := FindItem(items, section, bucket);
      if idx.Some? {
        items := items[idx.value := items[idx.value].(count := items[idx.value].count + count)];
      } else {
        items := items + [StashItem(section, count, bucket)];
      }
      if jsonSize(items) > MAX_JSON || |items| > MAX_STASH_ITEMS {
        inventory := saved;
        return Refused(StashContentsTooLarge);
      }
      stashes := stashes[f.value := row.(items := items)];
      return Deposited(bucket);
    }

    method WithdrawItem(stash: int, uuid: string, level: string, section: string, count: int,
        bucket: int)
      returns (reply: Reply)
      modifies this
      ensures (Snapshot(), reply) == WithdrawSpec(old(Snapshot()), Withdraw(stash, uuid, level, section, count, bucket))
      ensures reply.Refused? ==> Snapshot() == old(Snapshot())
    {
      if count < 1 || count > 65535 {
        return Refused(InvalidStashCount);
      }
      if bucket < 0 || bucket > 100 {
        return Refused(InvalidItemCondition);
      }
      FindStashExact(stashes, stash);
      var f := FindStash(stashes, stash);
      if f.None? {
        return Refused(StashNotFound);
      }
      var row := stashes[f.value];
      if row.level != level {
        return Refused(StashWrongLevel);
      }
      var items := row.items;
      FindItemExact(items, section, bucket);
      var idx := FindItem(items, section, bucket);
      if idx.None? {
        return Refused(ItemNotFoundStash);
      }
      if items[idx.value].count < count {
        return Refused(InsufficientCount);
      }
      var stored := items[idx.value].bucket;
      var left := items[idx.value].count - count;
      items := items[idx.value := items[idx.value].(count := left)];
      if left == 0 {
        items := items[..idx.value] + items[idx.value + 1..];
        assert items == Without(row.items, idx.value);
      }
      var ok := CreditItems(uuid, section, count, stored);
      if !ok {
        return Refused(ForeignKey);
      }
      stashes := stashes[f.value := row.(items := items)];
      return Withdrawn(stored);
    }

    method BuyItems(uuid: string, section: string, count: int, bucket: int, price: int,
        ghost jsonSize: seq<StashItem> -> int)
      returns (reply: Reply)
      modifies this
      ensures (Snapshot(), reply) == Apply(old(Snapshot()), Buy(uuid, section, count, bucket, price), jsonSize)
      ensures reply.Refused? ==> Snapshot() == old(Snapshot())
    {
      if count <= 0 || price <= 0 {
        return Refused(NotTraded);
      }
      if uuid !in rubles {
        return Refused(CharacterNotFound);
      }
      var balance := rubles[uuid];
      if balance < price {
        return Refused(NotTraded);
      }
      var ok := CreditItems(uuid, section, count, bucket);
      assert ok;
      rubles := rubles[uuid := balance - price];
      return Bought;
    }

    method SellItems(uuid: string, section: string, count: int, price: int,
        ghost jsonSize: seq<StashItem> -> int)
      returns (reply: Reply)
      modifies this
      ensures (Snapshot(), reply) == Apply(old(Snapshot()), Sell(uuid, section, count, price), jsonSize)
      ensures reply.Refused? ==> Snapshot() == old(Snapshot())
    {
      if count <= 0 || price <= 0 {
        return Refused(NotTraded);
      }
      var saved := inventory;
      var ok, total, condition := RemoveItems(uuid, section, count, -1);
      if !ok {
        return Refused(NotTraded);
      }
      if uuid !in rubles {
        inventory := saved;
        return Refused(CharacterNotFound);
      }
      rubles := rubles[uuid := rubles[uuid] + price];
      return Sold(WireBucket(condition));
    }
  }
}
