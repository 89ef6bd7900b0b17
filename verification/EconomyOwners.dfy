/** Whose items they are: operations of one user, seen by that user and by all others. */
module EconomyOwners {
  import opened Inventory
  import opened Economy

  // ---- The rows of some users -------------------------------------------------------------

  ghost function RowsOf(inv: seq<InvRow>, who: string -> bool): seq<InvRow> {
    if inv == [] then [] else (if who(inv[0].uuid) then [inv[0]] else []) + RowsOf(inv[1..], who)
  }

  ghost function Only(user: string): string -> bool { u => u == user }

  ghost function AllBut(user: string): string -> bool { u => u != user }

  lemma {:induction false} RowsOfAppend(a: seq<InvRow>, b: seq<InvRow>, who: string -> bool)
    ensures RowsOf(a + b, who) == RowsOf(a, who) + RowsOf(b, who)
  {
    if a == [] {
      assert a + b == b;
    } else {
      assert (a + b)[1..] == a[1..] + b;
      RowsOfAppend(a[1..], b, who);
    }
  }

  lemma RowsOfOne(row: InvRow, who: string -> bool)
    ensures RowsOf([row], who) == if who(row.uuid) then [row] else []
  {
    assert [row][1..] == [] && RowsOf([], who) == [];
  }

  /** Editing a row of somebody else does not show. */
  lemma RowsOfSplice(inv: seq<InvRow>, i: nat, put: seq<InvRow>, who: string -> bool)
    requires i < |inv| && !who(inv[i].uuid)
    requires put == [] || (|put| == 1 && put[0].uuid == inv[i].uuid)
    ensures RowsOf(inv[..i] + put + inv[i + 1..], who) == RowsOf(inv, who)
  {
    hide RowsOf;
    assert inv == inv[..i] + [inv[i]] + inv[i + 1..];
    RowsOfAppend(inv[..i] + [inv[i]], inv[i + 1..], who);
    RowsOfAppend(inv[..i], [inv[i]], who);
    RowsOfOne(inv[i], who);
    RowsOfAppend(inv[..i] + put, inv[i + 1..], who);
    RowsOfAppend(inv[..i], put, who);
    if put == [] {
      assert inv[..i] + put == inv[..i];
    } else {
      RowsOfOne(put[0], who);
      assert put == [put[0]];
    }
  }

  lemma StockCons(row: InvRow, rest: seq<InvRow>, want: (string, int) -> bool)
    ensures Stock(Lots([row] + rest), want) == Units(LotOf(row), want) + Stock(Lots(rest), want)
  {
    hide WireBucket;
    assert Lots([row] + rest)[1..] == Lots(rest);
  }

  /** One more row counts for the users it is of. */
  lemma RowsOfCons(inv: seq<InvRow>, who: string -> bool, want: (string, int) -> bool)
    requires inv != []
    ensures Stock(Lots(RowsOf(inv, who)), want)
            == (if who(inv[0].uuid) then Units(LotOf(inv[0]), want) else 0) + Stock(Lots(RowsOf(inv[1..], who)), want)
  {
    hide Stock, Lots, LotOf, Units;
    var rest := RowsOf(inv[1..], who);
    assert [] + rest == rest;
    StockCons(inv[0], rest, want);
  }

  /** Stock is the stock of some users and the stock of all others. */
  lemma {:induction false} StockSplits(inv: seq<InvRow>, user: string, want: (string, int) -> bool)
    ensures Stock(Lots(inv), want)
            == Stock(Lots(RowsOf(inv, Only(user))), want) + Stock(Lots(RowsOf(inv, AllBut(user))), want)
  {
    if inv != [] {
      StockSplits(inv[1..], user, want);
      RowsOfCons(inv, Only(user), want);
      RowsOfCons(inv, AllBut(user), want);
      StockCons(inv[0], inv[1..], want);
      assert inv == [inv[0]] + inv[1..];
      hide Stock, Lots, RowsOf;
    }
  }

  // ---- Other users' rows stay ------------------------------------------------------------------

  lemma {:induction false} DrainKeepsOthers(inv: seq<InvRow>, nextId: int, held: seq<InvRow>, count: int,
      who: string -> bool)
    requires Rows(inv, nextId) && AllIn(held, inv) && DistinctIds(held)
    requires forall i :: 0 <= i < |held| ==> !who(held[i].uuid)
    ensures RowsOf(Drain(inv, held, count), who) == RowsOf(inv, who)
    decreases |held|
  {
    hide Rows, NoAmmo, TakeRow, RowsOf;
    if held != [] && count > 0 {
      var row := held[0];
      assert row in inv;
      PositiveIn(inv, nextId, row);
      var take := Min(row.count, count);
      var i := TakeRowAt(inv, nextId, row, take);
      RowsOfSplice(inv, i, if row.count == take then [] else [row.(count := row.count - take)], who);
      var next := TakeRow(inv, row.id, take);
      TakeRowKeeps(inv, nextId, row, take);
      forall j | 0 <= j < |held[1..]|
        ensures held[1..][j] in next && !who(held[1..][j].uuid)
      {
        assert held[1..][j] == held[j + 1];
      }
      DrainKeepsOthers(next, nextId, held[1..], count - take, who);
    }
  }

  lemma RemoveKeepsOthers(inv: seq<InvRow>, nextId: int, uuid: string, section: string, count: int, preferred: int,
      who: string -> bool)
    requires Rows(inv, nextId) && !who(uuid)
    ensures RowsOf(Remove(inv, uuid, section, count, preferred).rows, who) == RowsOf(inv, who)
  {
    hide Rows, NoAmmo, Drain, RowsOf;
    var held := Held(inv, uuid, section, preferred);
    HeldExact(inv, nextId, uuid, section, preferred);
    forall i | 0 <= i < |held|
      ensures !who(held[i].uuid)
    {
      assert held[i] in held;
    }
    DrainKeepsOthers(inv, nextId, held, count, who);
  }

  lemma CreditKeepsOthers(inv: seq<InvRow>, nextId: int, uuid: string, section: string, count: int, bucket: int,
      who: string -> bool)
    requires !who(uuid)
    ensures RowsOf(Credit(inv, nextId, uuid, section, count, bucket).0, who) == RowsOf(inv, who)
  {
    hide RowsOf, SqlBucket, FirstInBucket, FirstWithAmmo;
    FirstInBucketExact(inv, uuid, section, bucket);
    FirstWithAmmoExact(inv, uuid, section);
    var f, g := FirstInBucket(inv, uuid, section, bucket), FirstWithAmmo(inv, uuid, section);
    var out := Credit(inv, nextId, uuid, section, count, bucket).0;
    if f.Some? || g.Some? {
      var i := if f.Some? then f.value else g.value;
      assert out == inv[..i] + [out[i]] + inv[i + 1..];
      RowsOfSplice(inv, i, [out[i]], who);
    } else {
      var row := InvRow(nextId, uuid, section, count, bucket as real / 100.0, 0);
      RowsOfAppend(inv, [row], who);
      RowsOfOne(row, who);
    }
  }

  /** No operation of one user touches a row of another. */
  lemma OthersKept(st: State, op: Op, jsonSize: seq<StashItem> -> int, who: string -> bool)
    requires Good(st) && (!op.Expire? ==> !who(op.uuid))
    ensures RowsOf(Apply(st, op, jsonSize).0.inventory, who) == RowsOf(st.inventory, who)
  {
    hide RowsOf, Remove, Credit, Creditable, Rows, NoAmmo, GoodWorld, AddItem, TakeItem, WireBucket, OnLevel, OlderThan,
         FindWorld, FindStash, FindItem;
    match op
    case Drop(uuid, _, section, count, _, _, _, preferred, _, _) =>
      RemoveKeepsOthers(st.inventory, st.nextInv, uuid, section, count, preferred, who);
    case Deposit(_, uuid, _, section, count, preferred) =>
      RemoveKeepsOthers(st.inventory, st.nextInv, uuid, section, count, preferred, who);
      FindStashExact(st.stashes, op.stash);
    case Consume(uuid, section, count) =>
      RemoveKeepsOthers(st.inventory, st.nextInv, uuid, section, count, -1, who);
    case Sell(uuid, section, count, _) =>
      RemoveKeepsOthers(st.inventory, st.nextInv, uuid, section, count, -1, who);
    case Pickup(uuid, id) =>
      FindWorldExact(st.world, id);
      if FindWorld(st.world, id).Some? {
        var wi := st.world[FindWorld(st.world, id).value];
        CreditKeepsOthers(st.inventory, st.nextInv, uuid, wi.section, wi.count, WireBucket(Clamp01(wi.condition)), who);
      }
    case Withdraw(_, uuid, _, section, count, bucket) =>
      CreditKeepsOthers(st.inventory, st.nextInv, uuid, section, count, bucket, who);
      FindStashExact(st.stashes, op.stash);
      if FindStash(st.stashes, op.stash).Some? {
        FindItemExact(st.stashes[FindStash(st.stashes, op.stash).value].items, section, bucket);
      }
    case Buy(uuid, section, count, bucket, _) =>
      CreditKeepsOthers(st.inventory, st.nextInv, uuid, section, count, bucket, who);
    case Expire(_) =>
  }

  // ---- What a user carries --------------------------------------------------------------------------

  ghost function Carried(inv: seq<InvRow>, user: string, want: (string, int) -> bool): int {
    Stock(Lots(RowsOf(inv, Only(user))), want)
  }

  /** The items that an operation puts into the inventory of its user, per its reply. */
  ghost function Intake(op: Op, reply: Reply, want: (string, int) -> bool): int {
    match reply
    case Dropped(_, _, _) => if op.Drop? && want(op.section, 0) then -op.count else 0
    case PickedUp(item) => if want(item.section, 0) then item.count else 0
    case Consumed(_) => if op.Consume? && want(op.section, 0) then -op.count else 0
    case Deposited(_) => if op.Deposit? && want(op.section, 0) then -op.count else 0
    case Withdrawn(_) => if op.Withdraw? && want(op.section, 0) then op.count else 0
    case Bought => if op.Buy? && want(op.section, 0) then op.count else 0
    case Sold(_) => if op.Sell? && want(op.section, 0) then -op.count else 0
    case _ => 0
  }

  lemma RemovalIntake(st: State, op: Op, jsonSize: seq<StashItem> -> int, want: (string, int) -> bool)
    requires Good(st) && BySection(want) && (op.Drop? || op.Deposit? || op.Consume? || op.Sell?)
    ensures var (next, reply) := Apply(st, op, jsonSize);
            Stock(Lots(next.inventory), want) == Stock(Lots(st.inventory), want) + Intake(op, reply, want)
  {
    hide Rows, NoAmmo, Lots, Stock, WireBucket, BySection, Remove, OnLevel, AddItem, GoodWorld;
    if op.count > 0 {
      var preferred := if op.Drop? || op.Deposit? then op.preferred else -1;
      RemoveEffect(st.inventory, st.nextInv, op.uuid, op.section, op.count, preferred, want);
    }
    if op.Deposit? {
      FindStashExact(st.stashes, op.stash);
    }
  }

  lemma CreditIntake(st: State, op: Op, jsonSize: seq<StashItem> -> int, want: (string, int) -> bool)
    requires Good(st) && BySection(want) && (op.Pickup? || op.Withdraw? || op.Buy?)
    ensures var (next, reply) := Apply(st, op, jsonSize);
            Stock(Lots(next.inventory), want) == Stock(Lots(st.inventory), want) + Intake(op, reply, want)
  {
    hide Rows, NoAmmo, Lots, Stock, WireBucket, BySection, Credit, Creditable, TakeItem, GoodWorld, FindItem, FindStash,
         FindWorld;
    if op.Pickup? {
      FindWorldExact(st.world, op.id);
      var f := FindWorld(st.world, op.id);
      if f.Some? {
        var wi := st.world[f.value];
        PositiveWorld(st, f.value);
        CreditEffect(st.inventory, st.nextInv, op.uuid, wi.section, wi.count, WireBucket(Clamp01(wi.condition)), want);
        SectionOnly(want, wi.section, WireBucket(Clamp01(wi.condition)));
      }
    } else if op.count > 0 {
      CreditEffect(st.inventory, st.nextInv, op.uuid, op.section, op.count, op.bucket, want);
      SectionOnly(want, op.section, op.bucket);
      if op.Withdraw? {
        FindStashExact(st.stashes, op.stash);
        if FindStash(st.stashes, op.stash).Some? {
          FindItemExact(st.stashes[FindStash(st.stashes, op.stash).value].items, op.section, op.bucket);
        }
      }
    }
  }

  lemma InventoryIntake(st: State, op: Op, jsonSize: seq<StashItem> -> int, want: (string, int) -> bool)
    requires Good(st) && BySection(want)
    ensures var (next, reply) := Apply(st, op, jsonSize);
            Stock(Lots(next.inventory), want) == Stock(Lots(st.inventory), want) + Intake(op, reply, want)
  {
    if op.Drop? || op.Deposit? || op.Consume? || op.Sell? {
      RemovalIntake(st, op, jsonSize, want);
    } else if op.Pickup? || op.Withdraw? || op.Buy? {
      CreditIntake(st, op, jsonSize, want);
    }
  }

  ghost function OwnIntake(op: Op, reply: Reply, user: string, want: (string, int) -> bool): int {
    if op.Expire? || op.uuid != user then 0 else Intake(op, reply, want)
  }

  /** What a user carries changes by that user's own operations, as their replies say. */
  lemma StepCarries(st: State, op: Op, jsonSize: seq<StashItem> -> int, user: string, want: (string, int) -> bool)
    requires Good(st) && BySection(want)
    ensures var (next, reply) := Apply(st, op, jsonSize);
            Carried(next.inventory, user, want) == Carried(st.inventory, user, want) + OwnIntake(op, reply, user, want)
  {
    hide Good, BySection, Apply, Intake, Stock, Lots, RowsOf;
    var next := Apply(st, op, jsonSize).0;
    if op.Expire? || op.uuid != user {
      OthersKept(st, op, jsonSize, Only(user));
    } else {
      OthersKept(st, op, jsonSize, AllBut(user));
      InventoryIntake(st, op, jsonSize, want);
      StockSplits(st.inventory, user, want);
      StockSplits(next.inventory, user, want);
    }
  }

  ghost function RunIntake(st: State, ops: seq<Op>, jsonSize: seq<StashItem> -> int, user: string,
      want: (string, int) -> bool): int
    decreases |ops|
  {
    if ops == [] then 0 else
      var (next, reply) := Apply(st, ops[0], jsonSize);
      OwnIntake(ops[0], reply, user, want) + RunIntake(next, ops[1..], jsonSize, user, want)
  }

  /**
   * Over any run of everybody's operations, a user carries the initial items and what that user's own operations
   * moved.
   */
  lemma {:induction false} RunCarries(st: State, ops: seq<Op>, jsonSize: seq<StashItem> -> int, user: string,
      want: (string, int) -> bool)
    requires Good(st) && BySection(want)
    ensures Carried(Run(st, ops, jsonSize).inventory, user, want)
            == Carried(st.inventory, user, want) + RunIntake(st, ops, jsonSize, user, want)
    decreases |ops|
  {
    hide Good, Carried, Holdings, OwnIntake, Apply, BySection;
    if ops != [] {
      StepBalanced(st, ops[0], jsonSize, want);
      StepCarries(st, ops[0], jsonSize, user, want);
      RunCarries(Apply(st, ops[0], jsonSize).0, ops[1..], jsonSize, user, want);
    }
  }

  /** A run in which a user does nothing leaves that user's rows as they are, ids and conditions included. */
  lemma {:induction false} RunLeavesRows(st: State, ops: seq<Op>, jsonSize: seq<StashItem> -> int, user: string)
    requires Good(st) && forall i :: 0 <= i < |ops| ==> ops[i].Expire? || ops[i].uuid != user
    ensures RowsOf(Run(st, ops, jsonSize).inventory, Only(user)) == RowsOf(st.inventory, Only(user))
    decreases |ops|
  {
    hide Good, RowsOf, Holdings, Apply;
    if ops != [] {
      StepBalanced(st, ops[0], jsonSize, Everything());
      OthersKept(st, ops[0], jsonSize, Only(user));
      RunLeavesRows(Apply(st, ops[0], jsonSize).0, ops[1..], jsonSize, user);
    }
  }

  ghost function Everything(): (string, int) -> bool { (s: string, b: int) => true }

  // ---- What the handlers ask for ---------------------------------------------------------------------------

  ghost function OfSection(section: string): (string, int) -> bool { (s: string, b: int) => s == section }

  lemma {:induction false} TotalAppend(a: seq<InvRow>, b: seq<InvRow>)
    ensures Total(a + b) == Total(a) + Total(b)
  {
    if a == [] {
      assert a + b == b;
    } else {
      assert (a + b)[1..] == a[1..] + b;
      TotalAppend(a[1..], b);
    }
  }

  lemma SelectCons(inv: seq<InvRow>, uuid: string, section: string, preferred: int, matching: bool)
    requires inv != []
    ensures Total(Select(inv, uuid, section, preferred, matching))
            == Total(Select(inv[1..], uuid, section, preferred, matching))
               + if Owned(inv[0], uuid, section) && Prefers(inv[0], preferred) == matching then inv[0].count else 0
  {
    hide Prefers;
    var rest := Select(inv[1..], uuid, section, preferred, matching);
    assert ([inv[0]] + rest)[1..] == rest && [] + rest == rest;
  }

  lemma {:induction false} SelectedTotal(inv: seq<InvRow>, uuid: string, section: string, preferred: int)
    ensures Total(Select(inv, uuid, section, preferred, true)) + Total(Select(inv, uuid, section, preferred, false))
            == Carried(inv, uuid, OfSection(section))
  {
    if inv != [] {
      SelectedTotal(inv[1..], uuid, section, preferred);
      SelectCons(inv, uuid, section, preferred, true);
      SelectCons(inv, uuid, section, preferred, false);
      RowsOfCons(inv, Only(uuid), OfSection(section));
      hide Prefers, WireBucket, Stock, Lots, RowsOf, Total, Select;
    }
  }

  /** The held total of a section, in whatever order of preference, is what the user carries of it. */
  lemma HeldTotal(inv: seq<InvRow>, uuid: string, section: string, preferred: int)
    ensures Total(Held(inv, uuid, section, preferred)) == Carried(inv, uuid, OfSection(section))
  {
    SelectedTotal(inv, uuid, section, preferred);
    TotalAppend(Select(inv, uuid, section, preferred, true), Select(inv, uuid, section, preferred, false));
  }
}
