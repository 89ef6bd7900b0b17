/** The session table of `internal/network/session.go`. */
module Sessions {
  import opened Basics

  /** A session; its address and account do not change while it is in the table. Text is a sequence of bytes. */
  class PlayerSession {
    const id: nat
    const account: string
    const addr: Option<string>
    var name: string

    constructor (id: nat, account: string, addr: Option<string>, name: string)
      ensures this.id == id && this.account == account && this.addr == addr && this.name == name
    {
      this.id, this.account, this.addr, this.name := id, account, addr, name;
    }
  }

  type Table = map<nat, PlayerSession>

  predicate SameAddr(s: PlayerSession, t: PlayerSession) {
    t.id != s.id && s.addr.Some? && t.addr == s.addr
  }

  predicate SameAccount(s: PlayerSession, t: PlayerSession) {
    t.id != s.id && s.account != "" && t.account == s.account
  }

  /** The entries a new session leaves in place. */
  function Kept(t: Table, s: PlayerSession): Table {
    map id | id in t && !SameAddr(s, t[id]) && !SameAccount(s, t[id]) :: t[id]
  }

  /** Every entry stands under its own id. */
  ghost predicate Keyed(t: Table) {
    forall id :: id in t ==> t[id].id == id
  }

  /** The address index is exact, leaving the address `but` aside. */
  ghost predicate IndexedBut(t: Table, byAddr: map<string, PlayerSession>, but: Option<string>) {
    && (forall id :: id in t && t[id].addr.Some? && t[id].addr != but ==>
          t[id].addr.value in byAddr && byAddr[t[id].addr.value] == t[id])
    && (forall a :: a in byAddr && Some(a) != but ==>
          byAddr[a].addr == Some(a) && byAddr[a].id in t && t[byAddr[a].id] == byAddr[a])
  }

  /** The whole index is exact; so no two entries share an address. */
  ghost predicate Indexed(t: Table, byAddr: map<string, PlayerSession>) {
    IndexedBut(t, byAddr, None)
  }

  ghost predicate OneAccountEach(t: Table) {
    forall i, j :: i in t && j in t && t[i].account != "" && t[i].account == t[j].account ==> i == j
  }

  class SessionManager {
    var sessions: Table
    var byAddr: map<string, PlayerSession>
    var allCached: set<PlayerSession>

    ghost predicate Valid()
      reads this
    {
      Keyed(sessions) && Indexed(sessions, byAddr) && OneAccountEach(sessions) && allCached == sessions.Values
    }

    constructor ()
      ensures Valid() && sessions == map[]
    {
      sessions, byAddr, allCached := map[], map[], {};
    }

    /** Removes every other session at the address of `s`; its index entry is left for `s`. */
    method EvictAddress(s: PlayerSession) returns (evicted: set<PlayerSession>)
      requires Keyed(sessions)
      modifies this`sessions
      ensures sessions == AwayFrom(old(sessions), s) && evicted == AtAddress(old(sessions), s)
    {
      evicted := {};
      var left := sessions.Keys;
      while left != {}
        invariant left <= old(sessions).Keys
        invariant sessions == map id | id in old(sessions) && (id in left || !SameAddr(s, old(sessions)[id])) ::
                old(sessions)[id]
        invariant evicted == set id | id in old(sessions) && id !in left && SameAddr(s, old(sessions)[id]) ::
                old(sessions)[id]
        decreases left
      {
        ghost var some := SomeMember(left);
        var id :| id in left;
        left := left - {id};
        var other := sessions[id];
        if id != s.id && other.addr.Some? && other.addr == s.addr {
          sessions := sessions - {id};
          evicted := evicted + {other};
        }
      }
    }

    /** Removes every other session of the account of `s`, with its index entry. */
    method EvictAccount(s: PlayerSession) returns (evicted: set<PlayerSession>)
      requires s.account != "" && Keyed(sessions) && IndexedBut(sessions, byAddr, s.addr)
      requires forall id :: id in sessions && s.addr.Some? && sessions[id].addr == s.addr ==> id == s.id
      modifies this`sessions, this`byAddr
      ensures sessions == OfOthers(old(sessions), s) && evicted == OfAccount(old(sessions), s)
      ensures IndexedBut(sessions, byAddr, s.addr)
      ensures evicted == {} ==> byAddr == old(byAddr)
    {
      hide IndexedBut;
      evicted := {};
      var left := sessions.Keys;
      while left != {}
        invariant left <= old(sessions).Keys
        invariant sessions == map id | id in old(sessions) && (id in left || !SameAccount(s, old(sessions)[id])) ::
                old(sessions)[id]
        invariant evicted == set id | id in old(sessions) && id !in left && SameAccount(s, old(sessions)[id]) ::
                old(sessions)[id]
        invariant IndexedBut(sessions, byAddr, s.addr)
        invariant evicted == {} ==> byAddr == old(byAddr)
        decreases left
      {
        ghost var some := SomeMember(left);
        var id :| id in left;
        left := left - {id};
        var other := sessions[id];
        if id != s.id && other.account == s.account {
          Unindex(sessions, byAddr, s.addr, id);
          sessions := sessions - {id};
          if other.addr.Some? {
            byAddr := byAddr - {other.addr.value};
          }
          evicted := evicted + {other};
        }
      }
    }

    /** Makes room for `s`: no other session keeps its address or its account. */
    method EvictFor(s: PlayerSession) returns (evicted: set<PlayerSession>)
      requires Valid()
      modifies this`sessions, this`byAddr
      ensures sessions == Kept(old(sessions), s) && evicted == Removed(old(sessions), s)
      ensures IndexedBut(sessions, byAddr, s.addr)
      ensures evicted == {} ==> sessions == old(sessions) && byAddr == old(byAddr)
    {
      hide OneAccountEach, IndexedBut, SameAddr, SameAccount, AwayFrom, AtAddress, OfOthers, OfAccount, Kept, Removed;
      ghost var was := sessions;
      evicted := {};
      Clear(was, byAddr, s);
      if s.addr.Some? && s.addr.value in byAddr {
        evicted := EvictAddress(s);
      }
      assert sessions == AwayFrom(was, s) && evicted == AtAddress(was, s);
      ghost var mid := sessions;
      NoAccount(mid, s);
      if s.account != "" {
        var byAccount := EvictAccount(s);
        evicted := evicted + byAccount;
      } else {
        assert evicted + {} == evicted;
      }
      TwoStages(was, s);
      KeptFacts(was, s);
    }

    /** Puts `s` in the table and in the index, in the place of an entry with its id. */
    method Place(s: PlayerSession)
      requires Keyed(sessions) && IndexedBut(sessions, byAddr, s.addr) && OneAccountEach(sessions)
      requires forall id :: id in sessions && id != s.id ==> !SameAddr(s, sessions[id]) && !SameAccount(s, sessions[id])
      modifies this
      ensures Valid() && sessions == old(sessions)[s.id := s]
    {
      hide IndexedBut, OneAccountEach;
      PlacedAccounts(sessions, s);
      if s.id in sessions && sessions[s.id] != s {
        var replaced := sessions[s.id];
        PlacedIndex(sessions, byAddr, s, if replaced.addr.Some? then byAddr - {replaced.addr.value} else byAddr);
        if replaced.addr.Some? {
          byAddr := byAddr - {replaced.addr.value};
        }
      } else {
        PlacedIndex(sessions, byAddr, s, byAddr);
      }
      sessions := sessions[s.id := s];
      if s.addr.Some? {
        byAddr := byAddr[s.addr.value := s];
      }
      allCached := sessions.Values;
    }

    /**
     * Check and insert in one step. A refused session leaves what was evicted for it out of the table but in
     * the cache; that takes a table that is over the cap already.
     */
    method TryAddCapped(s: PlayerSession, max: int) returns (evicted: set<PlayerSession>, added: bool)
      requires Valid()
      modifies this
      ensures added == (max <= 0 || s.id in old(sessions) || |Kept(old(sessions), s)| < max)
      ensures sessions == if added then Kept(old(sessions), s)[s.id := s] else Kept(old(sessions), s)
      ensures evicted == Removed(old(sessions), s)
                         + (if added && s.id in old(sessions) && old(sessions)[s.id] != s then {old(sessions)[s.id]}
                         else {})
      ensures s.id in sessions <==> added || s.id in old(sessions)
      ensures forall id :: id != s.id ==>
                (id in sessions <==>
                   && id in old(sessions)
                   && (s.addr.Some? ==> old(sessions)[id].addr != s.addr)
                   && (s.account != "" ==> old(sessions)[id].account != s.account))
      ensures forall id :: id != s.id && id in sessions ==> sessions[id] == old(sessions)[id]
      ensures added ==> Valid()
      ensures !added ==> (Valid() <==> evicted == {})
      ensures !added && |old(sessions)| <= max ==> evicted == {} && sessions == old(sessions)
      ensures 0 < max && |old(sessions)| <= max ==> |sessions| <= max
    {
      hide Indexed, IndexedBut, OneAccountEach;
      ghost var was := sessions;
      evicted := EvictFor(s);
      KeptFacts(was, s);
      if max > 0 && |sessions| >= max && s.id !in sessions {
        if evicted != {} {
          RemovedIsCached(was, s);
        } else {
          assert sessions == was;
        }
        return evicted, false;
      }
      if s.id in sessions && sessions[s.id] != s {
        evicted := evicted + {sessions[s.id]};
      }
      UpdateSize(sessions, s);
      Place(s);
      return evicted, true;
    }

    method RemoveSession(id: nat)
      requires Valid()
      modifies this
      ensures Valid() && sessions == old(sessions) - {id}
    {
      if id in sessions {
        var s := sessions[id];
        Unindex(sessions, byAddr, None, id);
        sessions := sessions - {id};
        if s.addr.Some? {
          byAddr := byAddr - {s.addr.value};
        }
        allCached := sessions.Values;
      } else {
        assert sessions - {id} == sessions;
      }
    }
  }

  ghost function AwayFrom(t: Table, s: PlayerSession): Table {
    map id | id in t && !SameAddr(s, t[id]) :: t[id]
  }

  ghost function AtAddress(t: Table, s: PlayerSession): set<PlayerSession> {
    set id | id in t && SameAddr(s, t[id]) :: t[id]
  }

  ghost function OfOthers(t: Table, s: PlayerSession): Table {
    map id | id in t && !SameAccount(s, t[id]) :: t[id]
  }

  ghost function OfAccount(t: Table, s: PlayerSession): set<PlayerSession> {
    set id | id in t && SameAccount(s, t[id]) :: t[id]
  }

  /** The index knows whether an address is taken, and stays exact for the other addresses. */
  lemma Clear(t: Table, byAddr: map<string, PlayerSession>, s: PlayerSession)
    requires Keyed(t) && Indexed(t, byAddr)
    ensures !(s.addr.Some? && s.addr.value in byAddr) ==> AwayFrom(t, s) == t && AtAddress(t, s) == {}
    ensures Keyed(AwayFrom(t, s)) && IndexedBut(AwayFrom(t, s), byAddr, s.addr)
    ensures forall id :: id in AwayFrom(t, s) && s.addr.Some? && AwayFrom(t, s)[id].addr == s.addr ==> id == s.id
    ensures AtAddress(t, s) == {} ==> AwayFrom(t, s) == t
  {
    if AtAddress(t, s) == {} {
      forall id | id in t ensures !SameAddr(s, t[id]) {
        assert t[id] !in AtAddress(t, s);
      }
    }
  }

  lemma NoAccount(t: Table, s: PlayerSession)
    ensures s.account == "" ==> OfOthers(t, s) == t && OfAccount(t, s) == {}
  {
  }

  /** Evicting by address and then by account removes what the two rules together remove. */
  lemma TwoStages(t: Table, s: PlayerSession)
    ensures Kept(t, s) == OfOthers(AwayFrom(t, s), s)
    ensures Removed(t, s) == AtAddress(t, s) + OfAccount(AwayFrom(t, s), s)
  {
    hide SameAddr, SameAccount;
    var mid := AwayFrom(t, s);
    forall x | x in Removed(t, s)
      ensures x in AtAddress(t, s) + OfAccount(mid, s)
    {
      var id :| id in t && (SameAddr(s, t[id]) || SameAccount(s, t[id])) && t[id] == x;
      assert !SameAddr(s, t[id]) ==> mid[id] in OfAccount(mid, s);
    }
    forall x | x in OfAccount(mid, s)
      ensures x in Removed(t, s)
    {
      var id :| id in mid && SameAccount(s, mid[id]) && mid[id] == x;
      assert t[id] in Removed(t, s);
    }
  }

  lemma PlacedAccounts(t: Table, s: PlayerSession)
    requires Keyed(t) && OneAccountEach(t)
    requires forall id :: id in t && id != s.id ==> !SameAccount(s, t[id])
    ensures Keyed(t[s.id := s]) && OneAccountEach(t[s.id := s])
  {
  }

  /** `cleaned` is the index without the entry of the session that `s` replaces. */
  lemma PlacedIndex(t: Table, byAddr: map<string, PlayerSession>, s: PlayerSession, cleaned: map<string, PlayerSession>)
    requires Keyed(t) && IndexedBut(t, byAddr, s.addr)
    requires forall id :: id in t && id != s.id ==> !SameAddr(s, t[id])
    requires cleaned == if s.id in t && t[s.id] != s && t[s.id].addr.Some? then byAddr - {t[s.id].addr.value}
    else byAddr
    ensures Indexed(t[s.id := s], if s.addr.Some? then cleaned[s.addr.value := s] else cleaned)
  {
    var after := t[s.id := s];
    var index := if s.addr.Some? then cleaned[s.addr.value := s] else cleaned;
    forall id | id in after && after[id].addr.Some?
      ensures after[id].addr.value in index && index[after[id].addr.value] == after[id]
    {
      if id != s.id {
        assert byAddr[t[id].addr.value] == t[id];
      }
    }
  }

  ghost function Removed(t: Table, s: PlayerSession): set<PlayerSession> {
    set id | id in t && (SameAddr(s, t[id]) || SameAccount(s, t[id])) :: t[id]
  }

  lemma KeptFacts(t: Table, s: PlayerSession)
    requires Keyed(t)
    ensures Keyed(Kept(t, s)) && (s.id in Kept(t, s) <==> s.id in t)
    ensures OneAccountEach(t) ==> OneAccountEach(Kept(t, s))
    ensures Removed(t, s) == {} ==> Kept(t, s) == t
    ensures |Kept(t, s)| <= |t| && (Removed(t, s) != {} ==> |Kept(t, s)| < |t|)
  {
    var kept := Kept(t, s);
    assert kept.Keys <= t.Keys;
    if Removed(t, s) != {} {
      var gone := SomeMember(Removed(t, s));
      assert gone.id in t && gone.id !in kept;
      SmallerKeys(kept.Keys, t.Keys, gone.id);
      assert |kept| == |kept.Keys| && |t| == |t.Keys|;
    } else {
      forall id | id in t
        ensures id in kept
      {
        assert t[id] !in Removed(t, s);
      }
    }
  }

  lemma UpdateSize(t: Table, s: PlayerSession)
    ensures |t[s.id := s]| == if s.id in t then |t| else |t| + 1
  {
    assert t[s.id := s].Keys == t.Keys + {s.id};
    assert |t[s.id := s].Keys| == |t[s.id := s]| && |t.Keys| == |t|;
  }

  lemma SmallerKeys(a: set<nat>, b: set<nat>, x: nat)
    requires a <= b && x in b && x !in a
    ensures |a| < |b|
  {
    CardSubset(a, b - {x});
  }

  lemma {:induction false} CardSubset(a: set<nat>, b: set<nat>)
    requires a <= b
    ensures |a| <= |b|
  {
    if a != {} {
      var x := SomeMember(a);
      CardSubset(a - {x}, b - {x});
    }
  }

  lemma RemovedIsCached(t: Table, s: PlayerSession)
    requires Keyed(t) && Removed(t, s) != {}
    ensures t.Values != Kept(t, s).Values
  {
    var gone := SomeMember(Removed(t, s));
    assert gone in t.Values;
    assert gone !in Kept(t, s).Values;
  }

  lemma Unindex(t: Table, byAddr: map<string, PlayerSession>, but: Option<string>, id: nat)
    requires Keyed(t) && IndexedBut(t, byAddr, but) && id in t && (but.Some? ==> t[id].addr != but)
    ensures IndexedBut(t - {id}, if t[id].addr.Some? then byAddr - {t[id].addr.value} else byAddr, but)
  {
  }
}
