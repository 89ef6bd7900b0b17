/** The cell table of `Build`: count the references of each cell, prefix-sum, then scatter with cursors. */
module LosCells {

  /** Where one input triangle goes: nowhere, or under a number into a rectangle of cells. */
  datatype Placement = Dropped | Placed(id: int, ix0: int, ix1: int, iz0: int, iz1: int)
  {
    predicate Fits(gx: int, gz: int) {
      Placed? ==> 0 <= ix0 <= ix1 < gx && 0 <= iz0 <= iz1 < gz
    }

    function Refs(): int { if Placed? then Area(ix1 - ix0 + 1, iz1 - iz0 + 1) else 0 }
  }

  function Area(w: int, h: int): int { w * h }

  lemma AreaNextRow(w: int, h: int)
    ensures Area(w, 0) == 0
    ensures Area(w, h + 1) == Area(w, h) + w
  {
  }

  function Col(k: int, gx: int): int requires gx > 0 { k % gx }

  function Row(k: int, gx: int): int requires gx > 0 { k / gx }

  predicate Covers(p: Placement, gx: int, k: int)
    requires gx > 0
  {
    p.Placed? && p.ix0 <= Col(k, gx) <= p.ix1 && p.iz0 <= Row(k, gx) <= p.iz1
  }

  /** The triangles of the first `n` placements that cover cell `k`, in input order. */
  function Listing(ps: seq<Placement>, gx: int, k: int, n: nat): seq<int>
    requires gx > 0 && n <= |ps|
  {
    if n == 0 then []
    else Listing(ps, gx, k, n - 1) + if Covers(ps[n - 1], gx, k) then [ps[n - 1].id] else []
  }

  ghost predicate AllFit(ps: seq<Placement>, gx: int, gz: int) {
    forall i :: 0 <= i < |ps| ==> ps[i].Fits(gx, gz)
  }

  /** Numbers are given in increasing order. */
  ghost predicate Numbered(ps: seq<Placement>) {
    forall i, j :: 0 <= i < j < |ps| && ps[i].Placed? && ps[j].Placed? ==> ps[i].id < ps[j].id
  }

  /** A listing names exactly the triangles that cover the cell. */
  lemma {:induction false} ListingExact(ps: seq<Placement>, gx: int, k: int, n: nat, t: int)
    requires gx > 0 && n <= |ps|
    ensures t in Listing(ps, gx, k, n) <==> exists i :: 0 <= i < n && Covers(ps[i], gx, k) && ps[i].id == t
  {
    if n > 0 {
      ListingExact(ps, gx, k, n - 1, t);
    }
  }

  /** A listing has each triangle once, in input order. */
  lemma {:induction false} ListingIncreasing(ps: seq<Placement>, gx: int, k: int, n: nat)
    requires gx > 0 && n <= |ps| && Numbered(ps)
    ensures forall i, j :: 0 <= i < j < |Listing(ps, gx, k, n)| ==>
              Listing(ps, gx, k, n)[i] < Listing(ps, gx, k, n)[j]
  {
    if n > 0 {
      ListingIncreasing(ps, gx, k, n - 1);
      var before := Listing(ps, gx, k, n - 1);
      forall i | 0 <= i < |before|
        ensures Covers(ps[n - 1], gx, k) ==> before[i] < ps[n - 1].id
      {
        ListingExact(ps, gx, k, n - 1, before[i]);
      }
    }
  }

  lemma {:induction false} ListingGrows(ps: seq<Placement>, gx: int, k: int, m: nat, n: nat)
    requires gx > 0 && m <= n <= |ps|
    ensures |Listing(ps, gx, k, m)| <= |Listing(ps, gx, k, n)|
    decreases n
  {
    if m < n {
      ListingGrows(ps, gx, k, m, n - 1);
    }
  }

  // ---- Cell numbering ---------------------------------------------------------

  lemma DivModUnique(gx: int, ix: int, iz: int)
    requires 0 <= ix < gx
    ensures (iz * gx + ix) / gx == iz && (iz * gx + ix) % gx == ix
  {
    var k := iz * gx + ix;
    assert k == (k / gx) * gx + k % gx;
    var dq := k / gx - iz;
    assert dq * gx == ix - k % gx;
    if dq > 0 {
      assert dq * gx == (dq - 1) * gx + gx;
      NonNeg(dq - 1, gx);
    } else if dq < 0 {
      assert -dq * gx == (-dq - 1) * gx + gx;
      NonNeg(-dq - 1, gx);
    }
  }

  lemma NonNeg(a: int, b: int)
    requires a >= 0 && b >= 0
    ensures a * b >= 0
  {
  }

  function CellIndex(gx: int, ix: int, iz: int): int { iz * gx + ix }

  /** Row `iz`, column `ix` has a cell of its own. */
  lemma CellNumber(gx: int, gz: int, ix: int, iz: int)
    requires 0 <= ix < gx && 0 <= iz < gz
    ensures 0 <= CellIndex(gx, ix, iz) < gx * gz
    ensures Col(CellIndex(gx, ix, iz), gx) == ix && Row(CellIndex(gx, ix, iz), gx) == iz
    ensures forall k :: Col(k, gx) == ix && Row(k, gx) == iz ==> k == CellIndex(gx, ix, iz)
  {
    DivModUnique(gx, ix, iz);
    NonNeg(iz, gx);
    NonNeg(gz - 1 - iz, gx);
    assert gx * gz == (gz - 1 - iz) * gx + iz * gx + gx;
    forall k | Col(k, gx) == ix && Row(k, gx) == iz
      ensures k == CellIndex(gx, ix, iz)
    {
      assert k == (k / gx) * gx + k % gx;
    }
  }

  // ---- Sums -------------------------------------------------------------------

  ghost function Sum(s: seq<int>): int {
    if s == [] then 0 else Sum(s[..|s| - 1]) + s[|s| - 1]
  }

  lemma {:induction false} SumUpdate(s: seq<int>, i: nat, v: int)
    requires i < |s|
    ensures Sum(s[i := v]) == Sum(s) - s[i] + v
  {
    var t := s[i := v];
    if i == |s| - 1 {
      assert t[..|s| - 1] == s[..|s| - 1];
    } else {
      assert t[..|s| - 1] == s[..|s| - 1][i := v];
      SumUpdate(s[..|s| - 1], i, v);
    }
  }

  lemma {:induction false} SumZero(s: seq<int>)
    requires forall i :: 0 <= i < |s| ==> s[i] == 0
    ensures Sum(s) == 0
  {
    if s != [] {
      SumZero(s[..|s| - 1]);
    }
  }

  // ---- Counting -----------------------------------------------------------------

  /** `k` comes before (ix, iz) in the row-by-row scan. */
  ghost predicate Before(k: int, gx: int, ix: int, iz: int)
    requires gx > 0
  {
    Row(k, gx) < iz || (Row(k, gx) == iz && Col(k, gx) < ix)
  }

  method Increment(counts: array<int>, i: nat)
    requires i < counts.Length
    modifies counts
    ensures counts[..] == old(counts[..])[i := old(counts[i]) + 1]
    ensures Sum(counts[..]) == old(Sum(counts[..])) + 1
  {
    SumUpdate(counts[..], i, counts[i] + 1);
    counts[i] := counts[i] + 1;
    assert counts[..] == old(counts[..])[i := old(counts[i]) + 1];
  }

  /** Adds one reference in each cell of the rectangle. */
  method CountOne(p: Placement, gx: int, gz: int, counts: array<int>)
    requires gx > 0 && p.Placed? && p.Fits(gx, gz) && counts.Length == gx * gz
    modifies counts
    ensures forall k :: 0 <= k < counts.Length ==> counts[k] == old(counts[k]) + if Covers(p, gx, k) then 1 else 0
    ensures Sum(counts[..]) == old(Sum(counts[..])) + p.Refs()
  {
    var w := p.ix1 - p.ix0 + 1;
    hide Col, Row, Area, Sum;
    ghost var was := counts[..];
    AreaNextRow(w, 0);
    var iz := p.iz0;
    while iz <= p.iz1
      invariant p.iz0 <= iz <= p.iz1 + 1
      invariant forall k :: 0 <= k < counts.Length ==>
        counts[k] == was[k] + if Covers(p, gx, k) && Row(k, gx) < iz then 1 else 0
      invariant Sum(counts[..]) == Sum(was) + Area(w, iz - p.iz0)
    {
      var ix := p.ix0;
      while ix <= p.ix1
        invariant p.ix0 <= ix <= p.ix1 + 1
        invariant forall k :: 0 <= k < counts.Length ==>
          counts[k] == was[k] + if Covers(p, gx, k) && Before(k, gx, ix, iz) then 1 else 0
        invariant Sum(counts[..]) == Sum(was) + Area(w, iz - p.iz0) + (ix - p.ix0)
      {
        CellNumber(gx, gz, ix, iz);
        Increment(counts, CellIndex(gx, ix, iz));
        ix := ix + 1;
      }
      AreaNextRow(w, iz - p.iz0);
      iz := iz + 1;
    }
  }

  /** The references that the first `n` placements take. */
  ghost function TotalRefs(ps: seq<Placement>, n: nat): int
    requires n <= |ps|
  {
    if n == 0 then 0 else TotalRefs(ps, n - 1) + if ps[n - 1].Dropped? then 0 else ps[n - 1].Refs()
  }

  method CountRefs(ps: seq<Placement>, gx: int, gz: int) returns (counts: array<int>, totalRefs: int)
    requires gx > 0 && gz > 0 && AllFit(ps, gx, gz)
    ensures fresh(counts) && gx * gz >= 0 && counts.Length == gx * gz
    ensures forall k :: 0 <= k < counts.Length ==> counts[k] == |Listing(ps, gx, k, |ps|)|
    ensures Sum(counts[..]) == totalRefs == TotalRefs(ps, |ps|)
  {
    NonNeg(gx, gz);
    counts := new int[gx * gz](_ => 0);
    SumZero(counts[..]);
    totalRefs := 0;
    hide Covers;
    for i := 0 to |ps|
      invariant forall k :: 0 <= k < counts.Length ==> counts[k] == |Listing(ps, gx, k, i)|
      invariant Sum(counts[..]) == totalRefs == TotalRefs(ps, i)
    {
      if ps[i].Dropped? {
        forall k ensures !Covers(ps[i], gx, k) { DroppedCovers(ps[i], gx, k); }
        continue;
      }
      totalRefs := totalRefs + ps[i].Refs();
      CountOne(ps[i], gx, gz, counts);
    }
  }

  lemma DroppedCovers(p: Placement, gx: int, k: int)
    requires gx > 0 && p.Dropped?
    ensures !Covers(p, gx, k)
  {
  }

  /** Non-decreasing offsets from 0 to `total`. */
  ghost predicate Tiles(starts: seq<int>, total: int) {
    && |starts| >= 1 && starts[0] == 0 && starts[|starts| - 1] == total
    && forall i, j :: 0 <= i <= j < |starts| ==> starts[i] <= starts[j]
  }

  /** Each offset is the number of references before its cell. */
  method PrefixSums(counts: array<int>) returns (starts: array<int>)
    requires forall k :: 0 <= k < counts.Length ==> counts[k] >= 0
    ensures fresh(starts) && starts.Length == counts.Length + 1
    ensures Tiles(starts[..], Sum(counts[..]))
    ensures forall k :: 0 <= k < counts.Length ==> counts[k] == starts[k + 1] - starts[k]
  {
    hide Sum;
    starts := new int[counts.Length + 1](_ => 0);
    var acc := 0;
    SumPrefix(counts[..], 0);
    for i := 0 to counts.Length
      invariant acc == Sum(counts[..i])
      invariant forall k :: 0 <= k < i ==> starts[k] == Sum(counts[..k])
    {
      starts[i] := acc;
      acc := acc + counts[i];
      SumPrefix(counts[..], i);
      assert counts[..][..i] == counts[..i] && counts[..][..i + 1] == counts[..i + 1];
    }
    starts[counts.Length] := acc;
    assert counts[..counts.Length] == counts[..];
    forall k | 0 <= k < counts.Length
      ensures counts[k] == starts[k + 1] - starts[k]
    {
      SumPrefix(counts[..], k);
      assert counts[..][..k] == counts[..k] && counts[..][..k + 1] == counts[..k + 1];
    }
    forall i, j | 0 <= i <= j < starts.Length
      ensures starts[i] <= starts[j]
    {
      StepsOrdered(starts[..], counts[..], i, j);
    }
  }

  lemma SumPrefix(s: seq<int>, k: nat)
    requires k <= |s|
    ensures Sum(s[..0]) == 0
    ensures k < |s| ==> Sum(s[..k + 1]) == Sum(s[..k]) + s[k]
  {
    if k < |s| {
      assert s[..k + 1][..k] == s[..k];
    }
  }

  lemma {:induction false} StepsOrdered(starts: seq<int>, steps: seq<int>, i: nat, j: nat)
    requires |starts| == |steps| + 1 && i <= j < |starts|
    requires forall k :: 0 <= k < |steps| ==> steps[k] >= 0 && steps[k] == starts[k + 1] - starts[k]
    ensures starts[i] <= starts[j]
    decreases j
  {
    if i < j {
      StepsOrdered(starts, steps, i, j - 1);
      assert steps[j - 1] >= 0;
    }
  }

  // ---- Scattering -----------------------------------------------------------------

  /** The references of cell `k` up to its cursor are `list`. */
  ghost predicate Slot(starts: seq<int>, k: int, cursor: int, refs: seq<int>, list: seq<int>)
    requires 0 <= k < |starts| - 1
  {
    && 0 <= starts[k] <= cursor <= starts[k + 1] <= |refs|
    && refs[starts[k]..cursor] == list
  }

  ghost predicate Filled(starts: seq<int>, cursor: seq<int>, refs: seq<int>, lists: seq<seq<int>>) {
    && |starts| == |cursor| + 1 && |lists| == |cursor| && Tiles(starts, |refs|)
    && forall k :: 0 <= k < |cursor| ==> Slot(starts, k, cursor[k], refs, lists[k])
  }

  /** Writing at a cursor that has room extends that cell's list and no other. */
  lemma FilledPut(starts: seq<int>, cursor: seq<int>, refs: seq<int>, lists: seq<seq<int>>, idx: nat, id: int)
    requires Filled(starts, cursor, refs, lists) && idx < |cursor| && cursor[idx] < starts[idx + 1]
    requires 0 <= cursor[idx] < |refs|
    ensures Filled(starts, cursor[idx := cursor[idx] + 1], refs[cursor[idx] := id], lists[idx := lists[idx] + [id]])
  {
    var cursor' := cursor[idx := cursor[idx] + 1];
    var refs' := refs[cursor[idx] := id];
    var lists' := lists[idx := lists[idx] + [id]];
    assert Slot(starts, idx, cursor[idx], refs, lists[idx]);
    forall k | 0 <= k < |cursor|
      ensures Slot(starts, k, cursor'[k], refs', lists'[k])
    {
      assert Slot(starts, k, cursor[k], refs, lists[k]);
      if k < idx {
        assert starts[k + 1] <= starts[idx];
        assert refs'[starts[k]..cursor[k]] == refs[starts[k]..cursor[k]];
      } else if k > idx {
        assert starts[idx + 1] <= starts[k];
        assert refs'[starts[k]..cursor[k]] == refs[starts[k]..cursor[k]];
      } else {
        assert refs'[starts[k]..cursor[k] + 1] == refs[starts[k]..cursor[k]] + [id];
      }
    }
  }

  /** Writes `p.id` into each cell of the rectangle. */
  method ScatterOne(p: Placement, gx: int, gz: int, starts: array<int>, cursor: array<int>, refs: array<int>,
                    ghost lists: seq<seq<int>>)
    returns (ghost lists': seq<seq<int>>)
    requires gx > 0 && p.Placed? && p.Fits(gx, gz) && cursor.Length == gx * gz
    requires starts != cursor && starts != refs && cursor != refs
    requires Filled(starts[..], cursor[..], refs[..], lists)
    requires forall k :: 0 <= k < cursor.Length && Covers(p, gx, k) ==> |lists[k]| < starts[k + 1] - starts[k]
    modifies cursor, refs
    ensures Filled(starts[..], cursor[..], refs[..], lists') && |lists'| == |lists|
    ensures forall k :: 0 <= k < |lists'| ==> lists'[k] == lists[k] + if Covers(p, gx, k) then [p.id] else []
  {
    lists' := lists;
    hide Col, Row, Filled;
    assert |lists| == cursor.Length && starts.Length == cursor.Length + 1 by {
      FilledSizes(starts[..], cursor[..], refs[..], lists);
    }
    var iz := p.iz0;
    while iz <= p.iz1
      invariant p.iz0 <= iz <= p.iz1 + 1 && |lists'| == |lists|
      invariant Filled(starts[..], cursor[..], refs[..], lists')
      invariant forall k :: 0 <= k < |lists'| ==>
        lists'[k] == lists[k] + if Covers(p, gx, k) && Row(k, gx) < iz then [p.id] else []
    {
      var ix := p.ix0;
      while ix <= p.ix1
        invariant p.ix0 <= ix <= p.ix1 + 1 && |lists'| == |lists|
        invariant Filled(starts[..], cursor[..], refs[..], lists')
        invariant forall k :: 0 <= k < |lists'| ==>
          lists'[k] == lists[k] + if Covers(p, gx, k) && Before(k, gx, ix, iz) then [p.id] else []
      {
        CellNumber(gx, gz, ix, iz);
        var idx := CellIndex(gx, ix, iz);
        assert lists'[idx] == lists[idx];
        FilledCursor(starts[..], cursor[..], refs[..], lists', idx);
        FilledPut(starts[..], cursor[..], refs[..], lists', idx, p.id);
        ghost var c0, r0 := cursor[..], refs[..];
        refs[cursor[idx]] := p.id;
        assert refs[..] == r0[c0[idx] := p.id];
        cursor[idx] := cursor[idx] + 1;
        assert cursor[..] == c0[idx := c0[idx] + 1];
        lists' := lists'[idx := lists'[idx] + [p.id]];
        ix := ix + 1;
      }
      iz := iz + 1;
    }
  }

  lemma FilledSizes(starts: seq<int>, cursor: seq<int>, refs: seq<int>, lists: seq<seq<int>>)
    requires Filled(starts, cursor, refs, lists)
    ensures |starts| == |cursor| + 1 && |lists| == |cursor|
  {
  }

  lemma FilledCursor(starts: seq<int>, cursor: seq<int>, refs: seq<int>, lists: seq<seq<int>>, k: nat)
    requires Filled(starts, cursor, refs, lists) && k < |cursor|
    ensures |starts| == |cursor| + 1 && |lists| == |cursor|
    ensures cursor[k] == starts[k] + |lists[k]| && 0 <= starts[k] <= cursor[k] <= starts[k + 1] <= |refs|
  {
    assert Slot(starts, k, cursor[k], refs, lists[k]);
  }

  const MAX_UINT32: int := 0xFFFF_FFFF

  /** The references of cell `k`. */
  ghost function Slice(starts: seq<int>, refs: seq<int>, k: int): seq<int>
    requires Tiles(starts, |refs|) && 0 <= k < |starts| - 1
  {
    refs[starts[k]..starts[k + 1]]
  }

  /** The scatter loop: every cell's list becomes its listing. */
  method ScatterAll(ps: seq<Placement>, gx: int, gz: int, starts: array<int>, cursor: array<int>, refs: array<int>)
    requires gx > 0 && AllFit(ps, gx, gz) && cursor.Length == gx * gz && starts.Length == cursor.Length + 1
    requires starts != cursor && starts != refs && cursor != refs
    requires Filled(starts[..], cursor[..], refs[..], seq(cursor.Length, k => []))
    requires forall k :: 0 <= k < cursor.Length ==> |Listing(ps, gx, k, |ps|)| == starts[k + 1] - starts[k]
    modifies cursor, refs
    ensures Filled(starts[..], cursor[..], refs[..], seq(cursor.Length, k => Listing(ps, gx, k, |ps|)))
  {
    hide Covers, Filled;
    ghost var n := cursor.Length;
    ghost var lists: seq<seq<int>> := seq(n, k => []);
    for i := 0 to |ps|
      invariant Filled(starts[..], cursor[..], refs[..], lists)
      invariant |lists| == n
      invariant forall k :: 0 <= k < n ==> lists[k] == Listing(ps, gx, k, i)
    {
      if ps[i].Dropped? {
        forall k ensures !Covers(ps[i], gx, k) { DroppedCovers(ps[i], gx, k); }
        continue;
      }
      forall k | 0 <= k < n && Covers(ps[i], gx, k)
        ensures |lists[k]| < starts[k + 1] - starts[k]
      {
        ListingGrows(ps, gx, k, i + 1, |ps|);
      }
      lists := ScatterOne(ps[i], gx, gz, starts, cursor, refs, lists);
    }
    assert lists == seq(n, k => Listing(ps, gx, k, |ps|));
  }

  /** With empty lists every cursor stands at the start of its cell. */
  lemma FilledEmpty(starts: seq<int>, cursor: seq<int>, refs: seq<int>)
    requires |starts| == |cursor| + 1 && Tiles(starts, |refs|)
    requires forall k :: 0 <= k < |cursor| ==> cursor[k] == starts[k]
    ensures Filled(starts, cursor, refs, seq(|cursor|, k => []))
  {
    var lists: seq<seq<int>> := seq(|cursor|, k => []);
    forall k | 0 <= k < |cursor|
      ensures Slot(starts, k, cursor[k], refs, lists[k])
    {
      assert starts[0] <= starts[k] <= starts[k + 1] <= starts[|starts| - 1];
    }
  }

  /** When all listings are written, each cell's slice is its listing. */
  lemma FilledDone(starts: seq<int>, cursor: seq<int>, refs: seq<int>, lists: seq<seq<int>>)
    requires Filled(starts, cursor, refs, lists)
    requires forall k :: 0 <= k < |lists| ==> |lists[k]| == starts[k + 1] - starts[k]
    ensures Tiles(starts, |refs|) && |starts| == |lists| + 1
    ensures forall k :: 0 <= k < |starts| - 1 ==> cursor[k] == starts[k + 1] && Slice(starts, refs, k) == lists[k]
  {
    forall k | 0 <= k < |starts| - 1
      ensures cursor[k] == starts[k + 1] && Slice(starts, refs, k) == lists[k]
    {
      assert Slot(starts, k, cursor[k], refs, lists[k]);
    }
  }

  /**
   * The whole table: the slice of each cell is its listing, and the slices fill `refs`.
   * `ok` is false exactly when there are more references than a 32-bit offset can reach.
   */
  method FillCells(ps: seq<Placement>, gx: int, gz: int) returns (ok: bool, starts: seq<int>, refs: seq<int>)
    requires gx > 0 && gz > 0 && AllFit(ps, gx, gz)
    ensures ok == (TotalRefs(ps, |ps|) <= 0xFFFF_FFFF)
    ensures ok ==> |starts| == gx * gz + 1 && |refs| <= 0xFFFF_FFFF && Tiles(starts, |refs|)
    ensures ok ==> forall k :: 0 <= k < |starts| - 1 ==> Slice(starts, refs, k) == Listing(ps, gx, k, |ps|)
  {
    hide Covers, Filled, Tiles, Sum;
    var counts, totalRefs := CountRefs(ps, gx, gz);
    if totalRefs > MAX_UINT32 {
      return false, [], [];
    }
    var cellStart := PrefixSums(counts);
    TilesTotal(cellStart[..], totalRefs);
    var n := counts.Length;
    var cursor := new int[n](i requires 0 <= i < n reads cellStart requires cellStart.Length == n + 1 => cellStart[i]);
    var cellTris := new int[totalRefs](_ => 0);
    FilledEmpty(cellStart[..], cursor[..], cellTris[..]);
    ScatterAll(ps, gx, gz, cellStart, cursor, cellTris);
    ok, starts, refs := true, cellStart[..], cellTris[..];
    FilledDone(starts, cursor[..], refs, seq(n, k => Listing(ps, gx, k, |ps|)));
  }

  lemma TilesTotal(starts: seq<int>, total: int)
    requires Tiles(starts, total)
    ensures total >= 0
  {
    assert starts[0] <= starts[|starts| - 1];
  }
}
