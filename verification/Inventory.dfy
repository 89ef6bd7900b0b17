/** The item tables of the database, and the two helpers every transfer is made of. */
module Inventory {
  import opened Basics

  /** `conditionToWire` and `conditionBucket`: a 0..1 condition as a 0..100 bucket. */
  function WireBucket(c: real): int {
    if c * 100.0 < 0.0 then 0 else if c * 100.0 > 100.0 then 100 else Round(c * 100.0)
  }

  function Clamp01(c: real): real { if c < 0.0 then 0.0 else if c > 1.0 then 1.0 else c }

  /** The bucket that the SQL conditions compute. */
  function SqlBucket(c: real): int { Round(c * 100.0) }

  datatype InvRow = InvRow(id: int, uuid: string, section: string, count: int, condition: real, ammo: int)

  // ---- Stock ---------------------------------------------------------------------

  /** `count` items of a section in a condition bucket. */
  datatype Lot = Lot(section: string, bucket: int, count: int)

  /** The items of the lots whose section and bucket are wanted. */
  ghost function Stock(lots: seq<Lot>, want: (string, int) -> bool): int {
    if lots == [] then 0 else Units(lots[0], want) + Stock(lots[1..], want)
  }

  ghost function Units(lot: Lot, want: (string, int) -> bool): int {
    if want(lot.section, lot.bucket) then lot.count else 0
  }

  lemma {:induction false} StockAppend(a: seq<Lot>, b: seq<Lot>, want: (string, int) -> bool)
    ensures Stock(a + b, want) == Stock(a, want) + Stock(b, want)
  {
    if a == [] {
      assert a + b == b;
    } else {
      assert (a + b)[1..] == a[1..] + b;
      StockAppend(a[1..], b, want);
    }
  }

  lemma StockOne(lot: Lot, want: (string, int) -> bool)
    ensures Stock([lot], want) == Units(lot, want)
  {
    assert [lot][1..] == [];
    assert Stock([lot][1..], want) == 0;
  }

  /** Replacing one lot by any lots changes the stock by their difference. */
  lemma StockSplice(lots: seq<Lot>, i: nat, put: seq<Lot>, want: (string, int) -> bool)
    requires i < |lots|
    ensures Stock(lots[..i] + put + lots[i + 1..], want) == Stock(lots, want) - Units(lots[i], want) + Stock(put, want)
  {
    StockAppend(lots[..i] + put, lots[i + 1..], want);
    StockAppend(lots[..i], put, want);
    assert lots == lots[..i] + [lots[i]] + lots[i + 1..];
    StockAppend(lots[..i] + [lots[i]], lots[i + 1..], want);
    StockAppend(lots[..i], [lots[i]], want);
    StockOne(lots[i], want);
  }

  ghost function LotOf(r: InvRow): Lot { Lot(r.section, WireBucket(r.condition), r.count) }

  ghost function Lots(inv: seq<InvRow>): seq<Lot> { seq(|inv|, i requires 0 <= i < |inv| => LotOf(inv[i])) }

  // ---- The inventory table ------------------------------------------------------------

  /** Rows stand in the order of their ids, with positive counts. */
  ghost predicate Rows(inv: seq<InvRow>, nextId: int) {
    && (forall i :: 0 <= i < |inv| ==> inv[i].id < nextId && inv[i].count > 0)
    && (forall i, j :: 0 <= i < j < |inv| ==> inv[i].id < inv[j].id)
  }

  ghost predicate NoAmmo(inv: seq<InvRow>) { forall i :: 0 <= i < |inv| ==> inv[i].ammo == 0 }

  predicate Owned(r: InvRow, uuid: string, section: string) { r.uuid == uuid && r.section == section }

  predicate Prefers(r: InvRow, preferred: int) { preferred >= 0 && SqlBucket(r.condition) == preferred }

  /** The rows of a section, those of the preferred bucket (or all others), in id order. */
  function Select(inv: seq<InvRow>, uuid: string, section: string, preferred: int, matching: bool): seq<InvRow> {
    if inv == [] then [] else
      (if Owned(inv[0], uuid, section) && Prefers(inv[0], preferred) == matching then [inv[0]] else [])
      + Select(inv[1..], uuid, section, preferred, matching)
  }

  /** The order of the query: preferred bucket first, then id. */
  function Held(inv: seq<InvRow>, uuid: string, section: string, preferred: int): seq<InvRow> {
    Select(inv, uuid, section, preferred, true) + Select(inv, uuid, section, preferred, false)
  }

  function Total(rows: seq<InvRow>): int { if rows == [] then 0 else rows[0].count + Total(rows[1..]) }

  /** `DELETE` when the whole row goes, `UPDATE ... item_count - take` otherwise. */
  function TakeRow(inv: seq<InvRow>, id: int, take: int): seq<InvRow> {
    if inv == [] then []
    else if inv[0].id == id then
      (if inv[0].count == take then [] else [inv[0].(count := inv[0].count - take)]) + inv[1..]
    else [inv[0]] + TakeRow(inv[1..], id, take)
  }

  function Min(a: int, b: int): int { if a < b then a else b }

  /** Takes `remaining` items from the rows of `held`, one row after the other. */
  function Drain(inv: seq<InvRow>, held: seq<InvRow>, remaining: int): seq<InvRow>
    decreases |held|
  {
    if held == [] || remaining <= 0 then inv else
      var take := Min(held[0].count, remaining);
      Drain(TakeRow(inv, held[0].id, take), held[1..], remaining - take)
  }

  datatype Removal = Removal(ok: bool, total: int, condition: real, rows: seq<InvRow>)

  ghost function Remove(inv: seq<InvRow>, uuid: string, section: string, count: int, preferred: int): Removal {
    var held := Held(inv, uuid, section, preferred);
    if Total(held) < count then Removal(false, Total(held), 0.0, inv)
    else
      Removal(true, Total(held), if held == [] || count <= 0 then 0.0 else held[0].condition, Drain(inv, held, count))
  }

  // ---- What draining does -----------------------------------------------------------------

  ghost predicate DistinctIds(rows: seq<InvRow>) {
    forall i, j :: 0 <= i < j < |rows| ==> rows[i].id != rows[j].id
  }

  ghost predicate AllIn(held: seq<InvRow>, inv: seq<InvRow>) {
    forall i :: 0 <= i < |held| ==> held[i] in inv
  }

  lemma {:induction false} TakeRowAt(inv: seq<InvRow>, nextId: int, row: InvRow, take: int) returns (i: nat)
    requires Rows(inv, nextId) && row in inv && 0 < take <= row.count
    ensures i < |inv| && inv[i] == row
    ensures TakeRow(inv, row.id, take) ==
            inv[..i] + (if row.count == take then [] else [row.(count := row.count - take)]) + inv[i + 1..]
  {
    if inv[0] == row {
      i := 0;
    } else {
      var j :| 0 <= j < |inv| && inv[j] == row;
      assert inv[1..][j - 1] == row;
      var k := TakeRowAt(inv[1..], nextId, row, take);
      i := k + 1;
      assert inv[1..][..k] == inv[1..i] && inv[1..][k + 1..] == inv[i + 1..];
      assert [inv[0]] + inv[1..i] == inv[..i];
    }
  }

  lemma SpliceRows(inv: seq<InvRow>, nextId: int, i: nat, put: seq<InvRow>)
    requires Rows(inv, nextId) && i < |inv|
    requires put == [] || exists c :: c > 0 && put == [inv[i].(count := c)]
    ensures Rows(inv[..i] + put + inv[i + 1..], nextId)
    ensures NoAmmo(inv) ==> NoAmmo(inv[..i] + put + inv[i + 1..])
  {
  }

  lemma SpliceMembers(inv: seq<InvRow>, nextId: int, i: nat, put: seq<InvRow>)
    requires Rows(inv, nextId) && i < |inv| && |put| <= 1 && (|put| == 1 ==> put[0].id == inv[i].id)
    ensures forall r: InvRow :: r.id != inv[i].id ==> (r in inv[..i] + put + inv[i + 1..] <==> r in inv)
  {
    assert inv == inv[..i] + [inv[i]] + inv[i + 1..];
  }

  lemma TakeRowKeeps(inv: seq<InvRow>, nextId: int, row: InvRow, take: int)
    requires Rows(inv, nextId) && row in inv && 0 < take <= row.count
    ensures Rows(TakeRow(inv, row.id, take), nextId)
    ensures NoAmmo(inv) ==> NoAmmo(TakeRow(inv, row.id, take))
    ensures forall r: InvRow :: r.id != row.id ==> (r in TakeRow(inv, row.id, take) <==> r in inv)
  {
    hide TakeRow, Rows, NoAmmo;
    var i := TakeRowAt(inv, nextId, row, take);
    var put := if row.count == take then [] else [row.(count := row.count - take)];
    SpliceRows(inv, nextId, i, put);
    SpliceMembers(inv, nextId, i, put);
  }

  lemma TakeRowStock(inv: seq<InvRow>, nextId: int, row: InvRow, take: int, want: (string, int) -> bool)
    requires Rows(inv, nextId) && row in inv && 0 < take <= row.count
    ensures Stock(Lots(TakeRow(inv, row.id, take)), want)
            == Stock(Lots(inv), want) - if want(row.section, WireBucket(row.condition)) then take else 0
  {
    hide TakeRow, Rows, WireBucket;
    var i := TakeRowAt(inv, nextId, row, take);
    var put := if row.count == take then [] else [LotOf(row.(count := row.count - take))];
    assert Lots(TakeRow(inv, row.id, take)) == Lots(inv)[..i] + put + Lots(inv)[i + 1..];
    StockSplice(Lots(inv), i, put, want);
    if put != [] { StockOne(put[0], want); }
  }

  /** The wanted items among those that `Drain` takes. */
  ghost function Drained(held: seq<InvRow>, remaining: int, want: (string, int) -> bool): int {
    if held == [] || remaining <= 0 then 0 else
      var take := Min(held[0].count, remaining);
      (if want(held[0].section, WireBucket(held[0].condition)) then take else 0)
          + Drained(held[1..], remaining - take, want)
  }

  ghost predicate Positive(held: seq<InvRow>) { forall i :: 0 <= i < |held| ==> held[i].count > 0 }

  /** Draining keeps the table well formed, leaves other rows alone, and removes exactly what it drains. */
  lemma {:induction false} DrainEffect(inv: seq<InvRow>, nextId: int, held: seq<InvRow>, remaining: int,
      want: (string, int) -> bool)
    requires Rows(inv, nextId) && AllIn(held, inv) && DistinctIds(held)
    ensures Rows(Drain(inv, held, remaining), nextId)
    ensures NoAmmo(inv) ==> NoAmmo(Drain(inv, held, remaining))
    ensures Stock(Lots(Drain(inv, held, remaining)), want) == Stock(Lots(inv), want) - Drained(held, remaining, want)
    ensures forall r :: r in inv && (forall i :: 0 <= i < |held| ==> held[i].id != r.id) ==>
            r in Drain(inv, held, remaining)
    decreases |held|
  {
    hide Rows, NoAmmo, TakeRow, Lots, Stock, WireBucket;
    if held != [] && remaining > 0 {
      var row := held[0];
      assert row in inv;
      var take := Min(row.count, remaining);
      PositiveIn(inv, nextId, row);
      var next := TakeRow(inv, row.id, take);
      TakeRowKeeps(inv, nextId, row, take);
      TakeRowStock(inv, nextId, row, take, want);
      forall i | 0 <= i < |held[1..]|
        ensures held[1..][i] in next
      {
        assert held[1..][i] == held[i + 1];
      }
      DrainEffect(next, nextId, held[1..], remaining - take, want);
    }
  }

  lemma PositiveIn(inv: seq<InvRow>, nextId: int, row: InvRow)
    requires Rows(inv, nextId) && row in inv
    ensures row.count > 0
  {
  }

  /** When there is enough, everything asked for is drained. */
  lemma {:induction false} DrainedAll(held: seq<InvRow>, remaining: int, want: (string, int) -> bool)
    requires Positive(held) && 0 <= remaining <= Total(held)
    requires forall i :: 0 <= i < |held| ==> want(held[i].section, WireBucket(held[i].condition))
    ensures Drained(held, remaining, want) == remaining
    decreases |held|
  {
    if held != [] && remaining > held[0].count {
      DrainedAll(held[1..], remaining - held[0].count, want);
    }
  }

  lemma {:induction false} DrainedNone(held: seq<InvRow>, remaining: int, want: (string, int) -> bool)
    requires forall i :: 0 <= i < |held| ==> !want(held[i].section, WireBucket(held[i].condition))
    ensures Drained(held, remaining, want) == 0
    decreases |held|
  {
    if held != [] && remaining > 0 {
      DrainedNone(held[1..], remaining - Min(held[0].count, remaining), want);
    }
  }

  // ---- The held rows ---------------------------------------------------------------------------

  lemma {:induction false} SelectExact(inv: seq<InvRow>, uuid: string, section: string, preferred: int, matching: bool,
      r: InvRow)
    ensures r in Select(inv, uuid, section, preferred, matching)
            <==> r in inv && Owned(r, uuid, section) && Prefers(r, preferred) == matching
  {
    if inv != [] {
      SelectExact(inv[1..], uuid, section, preferred, matching, r);
    }
  }

  lemma {:induction false} SelectOrdered(inv: seq<InvRow>, nextId: int, uuid: string, section: string, preferred: int,
      matching: bool)
    requires Rows(inv, nextId)
    ensures Rows(Select(inv, uuid, section, preferred, matching), nextId)
  {
    hide Prefers;
    if inv != [] {
      RowsTail(inv, nextId);
      hide Rows;
      SelectOrdered(inv[1..], nextId, uuid, section, preferred, matching);
      var rest := Select(inv[1..], uuid, section, preferred, matching);
      forall j | 0 <= j < |rest|
        ensures inv[0].id < rest[j].id
      {
        SelectExact(inv[1..], uuid, section, preferred, matching, rest[j]);
      }
      RowsCons(inv[0], rest, nextId);
      assert [] + rest == rest;
    }
  }

  lemma RowsTail(inv: seq<InvRow>, nextId: int)
    requires Rows(inv, nextId) && inv != []
    ensures Rows(inv[1..], nextId) && inv[0].id < nextId && inv[0].count > 0
    ensures forall r :: r in inv[1..] ==> inv[0].id < r.id
  {
  }

  lemma RowsCons(row: InvRow, rest: seq<InvRow>, nextId: int)
    requires Rows(rest, nextId) && row.id < nextId && row.count > 0
    requires forall j :: 0 <= j < |rest| ==> row.id < rest[j].id
    ensures Rows([row] + rest, nextId)
  {
  }

  lemma HeldExact(inv: seq<InvRow>, nextId: int, uuid: string, section: string, preferred: int)
    requires Rows(inv, nextId)
    ensures var held := Held(inv, uuid, section, preferred);
            && AllIn(held, inv) && DistinctIds(held) && Positive(held)
            && (forall r :: r in held <==> r in inv && Owned(r, uuid, section))
  {
    var a := Select(inv, uuid, section, preferred, true);
    var b := Select(inv, uuid, section, preferred, false);
    SelectOrdered(inv, nextId, uuid, section, preferred, true);
    SelectOrdered(inv, nextId, uuid, section, preferred, false);
    forall r
      ensures r in a <==> r in inv && Owned(r, uuid, section) && Prefers(r, preferred)
      ensures r in b <==> r in inv && Owned(r, uuid, section) && !Prefers(r, preferred)
    {
      SelectExact(inv, uuid, section, preferred, true, r);
      SelectExact(inv, uuid, section, preferred, false, r);
    }
    forall i, j | 0 <= i < |a| && 0 <= j < |b|
      ensures a[i].id != b[j].id
    {
      assert a[i] in a && b[j] in b;
      if a[i].id == b[j].id { SameIdSameRow(inv, nextId, a[i], b[j]); }
    }
  }

  lemma SameIdSameRow(inv: seq<InvRow>, nextId: int, r: InvRow, s: InvRow)
    requires Rows(inv, nextId) && r in inv && s in inv && r.id == s.id
    ensures r == s
  {
    var i :| 0 <= i < |inv| && inv[i] == r;
    var j :| 0 <= j < |inv| && inv[j] == s;
    if i < j { assert inv[i].id < inv[j].id; } else if j < i { assert inv[j].id < inv[i].id; }
  }

  // ---- Which rows a removal touches -----------------------------------------------------------

  /** The items in the first `n` rows. */
  ghost function Before(held: seq<InvRow>, n: nat): int
    requires n <= |held|
  {
    Total(held[..n])
  }

  /** What a removal of `count` leaves in row `i`: everything, what exceeds the rest of the demand, or nothing. */
  ghost function Left(held: seq<InvRow>, i: nat, count: int): int
    requires i < |held|
  {
    var wanted := count - Before(held, i);
    if wanted <= 0 then held[i].count else if wanted >= held[i].count then 0 else held[i].count - wanted
  }

  lemma BeforeShift(held: seq<InvRow>, i: nat)
    requires held != [] && i < |held[1..]|
    ensures Before(held, i + 1) == held[0].count + Before(held[1..], i)
  {
    assert held[..i + 1][1..] == held[1..][..i];
  }

  ghost predicate HasLeft(out: seq<InvRow>, row: InvRow, left: int) {
    && (left > 0 ==> row.(count := left) in out)
    && (forall r :: r in out && r.id == row.id ==> left > 0 && r == row.(count := left))
  }

  /** Rows are used up strictly in order: each held row is left with exactly its share. */
  lemma {:induction false} DrainLeaves(inv: seq<InvRow>, nextId: int, held: seq<InvRow>, count: int, i: nat)
    requires Rows(inv, nextId) && AllIn(held, inv) && DistinctIds(held) && Positive(held) && i < |held|
    ensures HasLeft(Drain(inv, held, count), held[i], Left(held, i, count))
    decreases |held|
  {
    hide Rows, NoAmmo, TakeRow, Lots, Stock, WireBucket;
    assert held[..0] == [];
    if count <= 0 {
      BeforeNonNeg(held, i);
      OnlyOne(inv, nextId, held[i]);
    } else {
      var row := held[0];
      assert row in inv;
      var take := Min(row.count, count);
      var next := TakeRow(inv, row.id, take);
      TakeRowKeeps(inv, nextId, row, take);
      TakeRowLeaves(inv, nextId, row, take);
      var rest := held[1..];
      forall j | 0 <= j < |rest|
        ensures rest[j] in next
      {
        assert rest[j] == held[j + 1];
      }
      if i == 0 {
        DrainOthers(next, nextId, rest, count - take, row.id);
      } else {
        DrainLeaves(next, nextId, rest, count - take, i - 1);
        BeforeShift(held, i - 1);
        BeforeNonNeg(rest, i - 1);
      }
    }
  }

  lemma {:induction false} TotalNonNeg(held: seq<InvRow>)
    requires Positive(held)
    ensures Total(held) >= 0
  {
    if held != [] { TotalNonNeg(held[1..]); }
  }

  lemma BeforeNonNeg(held: seq<InvRow>, i: nat)
    requires Positive(held) && i <= |held|
    ensures Before(held, i) >= 0
  {
    TotalNonNeg(held[..i]);
  }

  lemma OnlyOne(inv: seq<InvRow>, nextId: int, row: InvRow)
    requires Rows(inv, nextId) && row in inv
    ensures forall r :: r in inv && r.id == row.id ==> r == row
  {
    forall r | r in inv && r.id == row.id
      ensures r == row
    {
      SameIdSameRow(inv, nextId, r, row);
    }
  }

  lemma TakeRowLeaves(inv: seq<InvRow>, nextId: int, row: InvRow, take: int)
    requires Rows(inv, nextId) && row in inv && 0 < take <= row.count
    ensures HasLeft(TakeRow(inv, row.id, take), row, row.count - take)
  {
    var i := TakeRowAt(inv, nextId, row, take);
    var out := TakeRow(inv, row.id, take);
    if row.count > take {
      assert out[i] == row.(count := row.count - take);
    }
    forall r | r in out && r.id == row.id
      ensures row.count > take && r == row.(count := row.count - take)
    {
      var j :| 0 <= j < |out| && out[j] == r;
    }
  }

  /** Draining rows with other ids does not touch the rows of this id. */
  lemma {:induction false} DrainOthers(inv: seq<InvRow>, nextId: int, held: seq<InvRow>, count: int, id: int)
    requires Rows(inv, nextId) && AllIn(held, inv) && DistinctIds(held)
    requires forall i :: 0 <= i < |held| ==> held[i].id != id
    ensures forall r: InvRow :: r.id == id ==> (r in Drain(inv, held, count) <==> r in inv)
    decreases |held|
  {
    hide Rows, NoAmmo, TakeRow;
    if held != [] && count > 0 {
      var row := held[0];
      assert row in inv;
      PositiveIn(inv, nextId, row);
      var take := Min(row.count, count);
      var next := TakeRow(inv, row.id, take);
      TakeRowKeeps(inv, nextId, row, take);
      forall i | 0 <= i < |held[1..]|
        ensures held[1..][i] in next
      {
        assert held[1..][i] == held[i + 1];
      }
      DrainOthers(next, nextId, held[1..], count - take, id);
    }
  }

  // ---- Crediting ----------------------------------------------------------------------------------

  const MAX_AMMO: int := 65535

  function FirstInBucket(inv: seq<InvRow>, uuid: string, section: string, bucket: int): Option<nat> {
    if inv == [] then None
    else if Owned(inv[0], uuid, section) && SqlBucket(inv[0].condition) == bucket then Some(0)
    else match FirstInBucket(inv[1..], uuid, section, bucket) case None => None case Some(i) => Some(i + 1)
  }

  function FirstWithAmmo(inv: seq<InvRow>, uuid: string, section: string): Option<nat> {
    if inv == [] then None
    else if Owned(inv[0], uuid, section) && inv[0].ammo > 0 && inv[0].count <= 1 then Some(0)
    else match FirstWithAmmo(inv[1..], uuid, section) case None => None case Some(i) => Some(i + 1)
  }

  lemma {:induction false} FirstInBucketExact(inv: seq<InvRow>, uuid: string, section: string, bucket: int)
    ensures var f := FirstInBucket(inv, uuid, section, bucket);
            f.Some? ==>
              f.value < |inv| && Owned(inv[f.value], uuid, section) && SqlBucket(inv[f.value].condition) == bucket
  {
    if inv != [] { FirstInBucketExact(inv[1..], uuid, section, bucket); }
  }

  lemma {:induction false} FirstWithAmmoExact(inv: seq<InvRow>, uuid: string, section: string)
    ensures var f := FirstWithAmmo(inv, uuid, section);
            && (f.Some? ==> f.value < |inv| && Owned(inv[f.value], uuid, section) && inv[f.value].ammo > 0)
            && (NoAmmo(inv) ==> f.None?)
  {
    if inv != [] {
      FirstWithAmmoExact(inv[1..], uuid, section);
      assert NoAmmo(inv) ==> inv[0].ammo == 0 && NoAmmo(inv[1..]);
    }
  }

  function AddAmmo(r: InvRow, count: int): InvRow { r.(ammo := Min(r.ammo + count, MAX_AMMO)) }

  /** The table and the next id after crediting `count` items. */
  function Credit(inv: seq<InvRow>, nextId: int, uuid: string, section: string, count: int, bucket: int)
    : (seq<InvRow>, int)
  {
    FirstInBucketExact(inv, uuid, section, bucket);
    FirstWithAmmoExact(inv, uuid, section);
    match FirstInBucket(inv, uuid, section, bucket)
    case Some(i) =>
      if inv[i].ammo > 0 && inv[i].count <= 1 then (inv[i := AddAmmo(inv[i], count)], nextId)
      else (inv[i := inv[i].(count := inv[i].count + count)], nextId)
    case None =>
      match FirstWithAmmo(inv, uuid, section)
      case Some(i) => (inv[i := AddAmmo(inv[i], count)], nextId)
      case None => (inv + [InvRow(nextId, uuid, section, count, bucket as real / 100.0, 0)], nextId + 1)
  }

  /** `want` looks at sections only. */
  ghost predicate BySection(want: (string, int) -> bool) {
    forall s, a, b :: want(s, a) == want(s, b)
  }

  lemma CreditShape(inv: seq<InvRow>, nextId: int, uuid: string, section: string, count: int, bucket: int)
    requires Rows(inv, nextId) && count > 0
    ensures var (out, next) := Credit(inv, nextId, uuid, section, count, bucket);
            Rows(out, next) && nextId <= next && (NoAmmo(inv) ==> NoAmmo(out))
  {
    hide FirstInBucket, FirstWithAmmo, SqlBucket;
    FirstInBucketExact(inv, uuid, section, bucket);
    FirstWithAmmoExact(inv, uuid, section);
  }

  /** The bucket that the SQL computes is the bucket on the wire, and a bucket survives being stored as a condition. */
  lemma BucketsAgree(c: real, bucket: int)
    ensures 0 <= bucket <= 100 && SqlBucket(c) == bucket ==> WireBucket(c) == bucket
    ensures 0 <= bucket <= 100 && c == bucket as real / 100.0 ==> WireBucket(c) == bucket
  {
  }

  /** A credit keeps the table well formed and, where no row carries ammunition, adds exactly its items. */
  lemma CreditEffect(inv: seq<InvRow>, nextId: int, uuid: string, section: string, count: int, bucket: int,
      want: (string, int) -> bool)
    requires Rows(inv, nextId) && count > 0
    ensures var (out, next) := Credit(inv, nextId, uuid, section, count, bucket);
            && Rows(out, next) && nextId <= next
            && (NoAmmo(inv) ==> NoAmmo(out))
            && (NoAmmo(inv) && (BySection(want) || 0 <= bucket <= 100) ==>
                  Stock(Lots(out), want) == Stock(Lots(inv), want) + if want(section, bucket) then count else 0)
  {
    CreditShape(inv, nextId, uuid, section, count, bucket);
    FirstInBucketExact(inv, uuid, section, bucket);
    FirstWithAmmoExact(inv, uuid, section);
    hide SqlBucket, WireBucket, FirstInBucket, FirstWithAmmo, Rows, Stock, Lots;
    if NoAmmo(inv) {
      var f := FirstInBucket(inv, uuid, section, bucket);
      BucketsAgree(bucket as real / 100.0, bucket);
      if f.Some? {
        var i := f.value;
        BucketsAgree(inv[i].condition, bucket);
        UpdateStock(inv, i, inv[i].(count := inv[i].count + count), want);
      } else {
        InsertStock(inv, InvRow(nextId, uuid, section, count, bucket as real / 100.0, 0), want);
      }
    }
  }

  lemma InsertStock(inv: seq<InvRow>, row: InvRow, want: (string, int) -> bool)
    ensures Stock(Lots(inv + [row]), want) == Stock(Lots(inv), want) + Units(LotOf(row), want)
  {
    hide WireBucket;
    assert Lots(inv + [row]) == Lots(inv) + [LotOf(row)];
    StockAppend(Lots(inv), [LotOf(row)], want);
    StockOne(LotOf(row), want);
  }

  lemma UpdateStock(inv: seq<InvRow>, i: nat, row: InvRow, want: (string, int) -> bool)
    requires i < |inv|
    ensures Stock(Lots(inv[i := row]), want)
            == Stock(Lots(inv), want) - Units(LotOf(inv[i]), want) + Units(LotOf(row), want)
  {
    assert Lots(inv[i := row]) == Lots(inv)[..i] + [LotOf(row)] + Lots(inv)[i + 1..];
    StockSplice(Lots(inv), i, [LotOf(row)], want);
    StockOne(LotOf(row), want);
  }
}
