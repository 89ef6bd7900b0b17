/** Which AI puppets each session sees, and what it is told (`internal/game/ai_replication.go`). */
module AiVisibility {
  import opened Basics

  const MAX_STATE_ENTRIES: nat := 32
  const DEFAULT_ENTER: real := 180.0
  const DEFAULT_ENTITIES: int := 64

  datatype Puppet = Puppet(id: nat, level: string, x: real, y: real, z: real, yaw: nat, anim: nat)

  datatype View = View(session: nat, level: string, x: real, y: real, z: real)

  datatype Notice = Enter(squad: nat, entity: nat) | Leave(squad: nat, entity: nat)

  datatype StateEntry = StateEntry(entity: nat, x: real, y: real, z: real, yaw: nat, anim: nat)

  const BLANK := StateEntry(0, 0.0, 0.0, 0.0, 0, 0)

  function DistSq(p: Puppet, v: View): real {
    (p.x - v.x) * (p.x - v.x) + (p.z - v.z) * (p.z - v.z)
  }

  // ---- The specification ----

  /** On the level and near: inside the leave radius when already visible, inside both radii when new. */
  predicate InScope(p: Puppet, v: View, was: set<nat>, enterSq: real, leaveSq: real) {
    p.level == v.level && DistSq(p, v) <= leaveSq && (p.id in was || DistSq(p, v) <= enterSq)
  }

  function Candidates(puppets: seq<Puppet>, v: View, was: set<nat>, enterSq: real, leaveSq: real): seq<Puppet> {
    if puppets == [] then []
    else
      var rest := Candidates(puppets[..|puppets| - 1], v, was, enterSq, leaveSq);
      var p := puppets[|puppets| - 1];
      if InScope(p, v, was, enterSq, leaveSq) then rest + [p] else rest
  }

  /** Nearest first, then by squad id. */
  predicate Before(v: View, p: Puppet, q: Puppet) {
    DistSq(p, v) < DistSq(q, v) || (DistSq(p, v) == DistSq(q, v) && p.id < q.id)
  }

  function Insert(v: View, p: Puppet, s: seq<Puppet>): seq<Puppet> {
    if s == [] || Before(v, p, s[0]) then [p] + s else [s[0]] + Insert(v, p, s[1..])
  }

  function Sort(v: View, s: seq<Puppet>): seq<Puppet> {
    if s == [] then [] else Insert(v, s[0], Sort(v, s[1..]))
  }

  function Capped<T>(s: seq<T>, most: int): seq<T> {
    if most > 0 && |s| > most then s[..most] else s
  }

  function Kept(puppets: seq<Puppet>, v: View, was: set<nat>, enterSq: real, leaveSq: real, most: int): seq<Puppet> {
    Capped(Sort(v, Candidates(puppets, v, was, enterSq, leaveSq)), most)
  }

  function Ids(s: seq<Puppet>): set<nat> {
    set p | p in s :: p.id
  }

  ghost predicate Distinct(s: seq<Puppet>) {
    forall i, j :: 0 <= i < j < |s| ==> s[i].id != s[j].id
  }

  /** What a session sees after a tick; a new squad without a wire id waits. */
  function Seen(was: set<nat>, kept: set<nat>, registered: set<nat>): set<nat> {
    set id | id in kept && (id in was || id in registered)
  }

  /** One notice for each squad that left or came and has a wire id, and no other. */
  ghost predicate Tells(notices: seq<Notice>, gone: set<nat>, come: set<nat>, entityIDs: map<nat, nat>) {
    && (forall i, j :: 0 <= i < j < |notices| ==> notices[i].squad != notices[j].squad)
    && (forall n :: n in notices ==> n.squad in entityIDs && n.entity == entityIDs[n.squad]
                                     && n.squad in (if n.Leave? then gone else come))
    && (forall id :: id in gone && id in entityIDs ==> Leave(id, entityIDs[id]) in notices)
    && (forall id :: id in come && id in entityIDs ==> Enter(id, entityIDs[id]) in notices)
  }

  function Entry(p: Puppet, entityIDs: map<nat, nat>): StateEntry {
    if p.id in entityIDs then StateEntry(entityIDs[p.id], p.x, p.y, p.z, p.yaw, p.anim) else BLANK
  }

  function Entries(s: seq<Puppet>, entityIDs: map<nat, nat>): seq<StateEntry> {
    seq(|s|, i requires 0 <= i < |s| => Entry(s[i], entityIDs))
  }

  function Flatten<T>(chunks: seq<seq<T>>): seq<T> {
    if chunks == [] then [] else Flatten(chunks[..|chunks| - 1]) + chunks[|chunks| - 1]
  }

  // ---- The visibility sets ----

  type Sets = map<nat, set<nat>>

  function Of(visible: Sets, session: nat): set<nat> {
    if session in visible then visible[session] else {}
  }

  class AiReplication {
    const enterSq: real
    const leaveSq: real
    const maxEntities: int
    var visible: Sets

    /** No session keeps an empty set. */
    ghost predicate Valid()
      reads this
    {
      enterSq <= leaveSq && maxEntities > 0 && forall s :: s in visible ==> visible[s] != {}
    }

    constructor (enterRadius: real, leaveRadius: real, most: int)
      ensures Valid() && visible == map[]
      ensures maxEntities == if most <= 0 then 64 else most
      ensures var enter := if enterRadius <= 0.0 then 180.0 else enterRadius;
        enterSq == enter * enter && leaveSq == if leaveRadius < enter then enter * enter else leaveRadius * leaveRadius
    {
      var enter := if enterRadius <= 0.0 then DEFAULT_ENTER else enterRadius;
      var leave := if leaveRadius < enter then enter else leaveRadius;
      SquareMonotone(enter, leave);
      enterSq, leaveSq := enter * enter, leave * leave;
      maxEntities := if most <= 0 then DEFAULT_ENTITIES else most;
      visible := map[];
    }

    method MarkVisible(session: nat, squad: nat) returns (isNew: bool)
      requires Valid()
      modifies this`visible
      ensures Valid() && isNew == (squad !in Of(old(visible), session))
      ensures forall s :: Of(visible, s) == Of(old(visible), s) + if s == session then {squad} else {}
    {
      var was := Of(visible, session);
      if squad in was {
        return false;
      }
      visible := visible[session := was + {squad}];
      return true;
    }

    method ClearVisible(session: nat, squad: nat)
      requires Valid()
      modifies this`visible
      ensures Valid()
      ensures forall s :: Of(visible, s) == Of(old(visible), s) - if s == session then {squad} else {}
    {
      if session in visible {
        var rest := visible[session] - {squad};
        if rest == {} {
          visible := visible - {session};
        } else {
          visible := visible[session := rest];
        }
      }
    }

    method RetainSessions(live: set<nat>)
      requires Valid()
      modifies this`visible
      ensures Valid()
      ensures forall s :: Of(visible, s) == if s in live then Of(old(visible), s) else {}
    {
      visible := map s | s in visible && s in live :: visible[s];
    }

    /** A despawned squad is dropped from every session's set, after the passes of the tick. */
    method Release(squad: nat)
      requires Valid()
      modifies this`visible
      ensures Valid()
      ensures forall s :: Of(visible, s) == Of(old(visible), s) - {squad}
    {
      visible := map s | s in visible && visible[s] - {squad} != {} :: visible[s] - {squad};
    }

    /** What a view sees after a pass that found `was` visible, and what it is told. */
    ghost predicate Passed(v: View, was: set<nat>, puppets: seq<Puppet>, entityIDs: map<nat, nat>, now: set<nat>,
        notices: seq<Notice>) {
      var kept := Ids(Kept(puppets, v, was, enterSq, leaveSq, maxEntities));
      now == Seen(was, kept, entityIDs.Keys) && Tells(notices, was - kept, kept - was, entityIDs)
    }

    lemma PassedBy(v: View, was: set<nat>, puppets: seq<Puppet>, entityIDs: map<nat, nat>, now: set<nat>,
        notices: seq<Notice>)
      requires var kept := Ids(Kept(puppets, v, was, enterSq, leaveSq, maxEntities));
        now == Seen(was, kept, entityIDs.Keys) && Tells(notices, was - kept, kept - was, entityIDs)
      ensures Passed(v, was, puppets, entityIDs, now, notices)
    {
    }

    /**
     * A squad that is gone from the simulation is seen by nobody, so releasing its wire id afterwards hides nothing.
     */
    lemma DespawnedIsUnseen(v: View, was: set<nat>, puppets: seq<Puppet>, entityIDs: map<nat, nat>, now: set<nat>,
        notices: seq<Notice>, squad: nat)
      requires Distinct(puppets) && maxEntities > 0 && Passed(v, was, puppets, entityIDs, now, notices)
      requires squad !in Ids(puppets)
      ensures squad !in now
      ensures squad in was && squad in entityIDs ==> Leave(squad, entityIDs[squad]) in notices
    {
      KeptAreNearest(puppets, v, was, enterSq, leaveSq, maxEntities);
    }

    /** The passes of one tick, after the sessions that are gone have been dropped. */
    method Tick(views: seq<View>, puppets: seq<Puppet>, entityIDs: map<nat, nat>) returns (told: seq<seq<Notice>>)
      requires Valid() && Distinct(puppets)
      requires forall i, j :: 0 <= i < j < |views| ==> views[i].session != views[j].session
      modifies this`visible
      ensures Valid() && |told| == |views|
      ensures forall i :: 0 <= i < |views| ==>
        Passed(views[i], Of(old(visible), views[i].session), puppets, entityIDs, Of(visible, views[i].session), told[i])
      ensures forall s :: (forall i :: 0 <= i < |views| ==> views[i].session != s) ==> Of(visible, s) == {}
    {
      hide Passed, Distinct, Kept, Tells;
      RetainSessions(set i | 0 <= i < |views| :: views[i].session);
      told := [];
      for i := 0 to |views|
        invariant Valid() && |told| == i
        invariant forall j :: 0 <= j < i ==>
          Passed(views[j], Of(old(visible), views[j].session), puppets, entityIDs, Of(visible, views[j].session),
              told[j])
        invariant forall j :: i <= j < |views| ==> Of(visible, views[j].session) == Of(old(visible), views[j].session)
        invariant forall s :: (forall i :: 0 <= i < |views| ==> views[i].session != s) ==> Of(visible, s) == {}
      {
        ghost var was := Of(visible, views[i].session);
        var notices, kept := TickView(views[i], puppets, entityIDs);
        PassedBy(views[i], was, puppets, entityIDs, Of(visible, views[i].session), notices);
        told := told + [notices];
      }
    }

    /** The visibility pass of one session. */
    method TickView(v: View, puppets: seq<Puppet>, entityIDs: map<nat, nat>)
      returns (notices: seq<Notice>, kept: seq<Puppet>)
      requires Valid() && Distinct(puppets)
      modifies this`visible
      ensures Valid()
      ensures kept == Kept(puppets, v, Of(old(visible), v.session), enterSq, leaveSq, maxEntities)
      ensures Of(visible, v.session) == Seen(Of(old(visible), v.session), Ids(kept), entityIDs.Keys)
      ensures forall s :: s != v.session ==> Of(visible, s) == Of(old(visible), s)
      ensures var was := Of(old(visible), v.session);
        Tells(notices, was - Ids(kept), Ids(kept) - was, entityIDs)
    {
      hide Tells, InScope, Distinct, Sort;
      var was := Of(visible, v.session);
      var cands := Scan(v, puppets, was);
      CandidatesDistinct(puppets, v, was, enterSq, leaveSq);
      var sorted := Sort(v, cands);
      SortPermutes(v, cands);
      SamePuppets(sorted, cands);
      SortDistinct(v, cands);
      notices := Leavers(v.session, was, Ids(cands), entityIDs);
      kept := Capped(sorted, maxEntities);
      var tail := sorted[|kept|..];
      assert sorted == kept + tail;
      SplitIds(kept, tail);
      notices := DropTail(v.session, was, Ids(cands), tail, entityIDs, notices);
      assert was - Ids(cands) + was * Ids(tail) == was - Ids(kept);
      assert was * Ids(cands) - Ids(tail) == was * Ids(kept);
      notices := Comers(v.session, was, kept, entityIDs, notices);
    }

    method Scan(v: View, puppets: seq<Puppet>, was: set<nat>) returns (cands: seq<Puppet>)
      ensures cands == Candidates(puppets, v, was, enterSq, leaveSq)
    {
      cands := [];
      for i := 0 to |puppets|
        invariant cands == Candidates(puppets[..i], v, was, enterSq, leaveSq)
      {
        var p := puppets[i];
        assert puppets[..i + 1][..i] == puppets[..i];
        var d := DistSq(p, v);
        if p.level != v.level || d > leaveSq || (p.id !in was && d > enterSq) {
          continue;
        }
        cands := cands + [p];
      }
      assert puppets[..|puppets|] == puppets;
    }

    /** Visible squads that are no candidates any more; the order of the set is arbitrary. */
    method Leavers(session: nat, was: set<nat>, inRange: set<nat>,
        entityIDs: map<nat, nat>)
      returns (notices: seq<Notice>)
      requires Valid() && Of(visible, session) == was
      modifies this`visible
      ensures Valid() && Of(visible, session) == was * inRange
      ensures forall s :: s != session ==> Of(visible, s) == Of(old(visible), s)
      ensures Tells(notices, was - inRange, {}, entityIDs)
    {
      hide Tells;
      notices := [];
      NothingToTell(entityIDs);
      var left := was;
      ghost var gone := {};
      while left != {}
        invariant left <= was && Valid() && gone == was - left - inRange
        invariant Of(visible, session) == was * (inRange + left)
        invariant forall s :: s != session ==> Of(visible, s) == Of(old(visible), s)
        invariant Tells(notices, gone, {}, entityIDs)
        decreases left
      {
        ghost var some := SomeMember(left);
        var squad :| squad in left;
        left := left - {squad};
        if squad !in inRange {
          TellLeave(notices, gone, {}, entityIDs, squad);
          gone := gone + {squad};
          if squad in entityIDs {
            notices := notices + [Leave(squad, entityIDs[squad])];
          }
          ClearVisible(session, squad);
        }
      }
      assert gone == was - inRange;
    }

    /** The candidates beyond the cap. */
    method DropTail(session: nat, was: set<nat>, ghost inRange: set<nat>, tail: seq<Puppet>, entityIDs: map<nat, nat>,
        before: seq<Notice>)
      returns (notices: seq<Notice>)
      requires Valid() && Of(visible, session) == was * inRange && Distinct(tail) && Ids(tail) <= inRange
      requires Tells(before, was - inRange, {}, entityIDs)
      modifies this`visible
      ensures Valid() && Of(visible, session) == was * inRange - Ids(tail)
      ensures forall s :: s != session ==> Of(visible, s) == Of(old(visible), s)
      ensures Tells(notices, was - inRange + was * Ids(tail), {}, entityIDs)
    {
      hide Tells;
      notices := before;
      assert was - inRange + was * Ids(tail[..0]) == was - inRange;
      for i := 0 to |tail|
        invariant Valid() && Of(visible, session) == was * inRange - Ids(tail[..i])
        invariant forall s :: s != session ==> Of(visible, s) == Of(old(visible), s)
        invariant Tells(notices, was - inRange + was * Ids(tail[..i]), {}, entityIDs)
      {
        var squad := tail[i].id;
        IdsSnoc(tail, i);
        ghost var gone := was - inRange + was * Ids(tail[..i]);
        if squad in was {
          TellLeave(notices, gone, {}, entityIDs, squad);
          assert gone + {squad} == was - inRange + was * Ids(tail[..i + 1]);
          if squad in entityIDs {
            notices := notices + [Leave(squad, entityIDs[squad])];
          }
          ClearVisible(session, squad);
        } else {
          assert gone == was - inRange + was * Ids(tail[..i + 1]);
        }
      }
      assert tail[..|tail|] == tail;
    }

    /** Squads that were not visible before and have a wire id. */
    method Comers(session: nat, was: set<nat>, kept: seq<Puppet>, entityIDs: map<nat, nat>, before: seq<Notice>)
      returns (notices: seq<Notice>)
      requires Valid() && Of(visible, session) == was * Ids(kept) && Distinct(kept)
      requires Tells(before, was - Ids(kept), {}, entityIDs)
      modifies this`visible
      ensures Valid() && Of(visible, session) == Seen(was, Ids(kept), entityIDs.Keys)
      ensures forall s :: s != session ==> Of(visible, s) == Of(old(visible), s)
      ensures Tells(notices, was - Ids(kept), Ids(kept) - was, entityIDs)
    {
      hide Tells, Ids, Distinct;
      notices := before;
      ghost var gone, done, come := was - Ids(kept), {}, {};
      NoIds(kept);
      for i := 0 to |kept|
        invariant Valid() && done == Ids(kept[..i]) && come == done - was
        invariant Of(visible, session) == was * Ids(kept) + Seen(was, done, entityIDs.Keys)
        invariant forall s :: s != session ==> Of(visible, s) == Of(old(visible), s)
        invariant Tells(notices, gone, come, entityIDs)
      {
        var squad := kept[i].id;
        IdsSnoc(kept, i);
        done := done + {squad};
        var isNew := MarkVisible(session, squad);
        if isNew {
          TellEnter(notices, gone, come, entityIDs, squad);
          come := come + {squad};
          if squad !in entityIDs {
            ClearVisible(session, squad);
          } else {
            notices := notices + [Enter(squad, entityIDs[squad])];
          }
        }
      }
      assert kept[..|kept|] == kept;
      assert come == Ids(kept) - was;
    }
  }

  /** The state stream of one session, in packets of at most 32 entries. */
  method StateChunks(cands: seq<Puppet>, entityIDs: map<nat, nat>) returns (chunks: seq<seq<StateEntry>>)
    ensures Flatten(chunks) == Entries(cands, entityIDs)
    ensures |Flatten(chunks)| == |cands|
    ensures forall i :: 0 <= i < |cands| && cands[i].id in entityIDs ==>
              var p := cands[i]; Flatten(chunks)[i] == StateEntry(entityIDs[p.id], p.x, p.y, p.z, p.yaw, p.anim)
    ensures forall i :: 0 <= i < |chunks| ==> 0 < |chunks[i]| <= 32
    ensures forall i :: 0 <= i < |chunks| - 1 ==> |chunks[i]| == 32
  {
    chunks := [];
    var start := 0;
    while start < |cands|
      invariant 0 <= start && (start < |cands| ==> forall i :: 0 <= i < |chunks| ==> |chunks[i]| == MAX_STATE_ENTRIES)
      invariant Flatten(chunks) == Entries(cands[..if start < |cands| then start else |cands|], entityIDs)
      invariant forall i :: 0 <= i < |chunks| ==> 0 < |chunks[i]| <= MAX_STATE_ENTRIES
      invariant forall i :: 0 <= i < |chunks| - 1 ==> |chunks[i]| == MAX_STATE_ENTRIES
    {
      var end := if start + MAX_STATE_ENTRIES > |cands| then |cands| else start + MAX_STATE_ENTRIES;
      var chunk := Entries(cands[start..end], entityIDs);
      assert Entries(cands[..start], entityIDs) + chunk == Entries(cands[..end], entityIDs);
      assert (chunks + [chunk])[..|chunks|] == chunks;
      chunks := chunks + [chunk];
      start := start + MAX_STATE_ENTRIES;
    }
    assert cands[..|cands|] == cands;
  }

  // ---- Notices ----

  lemma NothingToTell(entityIDs: map<nat, nat>)
    ensures Tells([], {}, {}, entityIDs)
  {
  }

  lemma TellLeave(notices: seq<Notice>, gone: set<nat>, come: set<nat>, entityIDs: map<nat, nat>, squad: nat)
    requires Tells(notices, gone, come, entityIDs) && squad !in gone && squad !in come
    ensures Tells(if squad in entityIDs then notices + [Leave(squad, entityIDs[squad])] else notices,
                  gone + {squad}, come, entityIDs)
  {
  }

  lemma TellEnter(notices: seq<Notice>, gone: set<nat>, come: set<nat>, entityIDs: map<nat, nat>, squad: nat)
    requires Tells(notices, gone, come, entityIDs) && squad !in gone && squad !in come
    ensures Tells(if squad in entityIDs then notices + [Enter(squad, entityIDs[squad])] else notices,
                  gone, come + {squad}, entityIDs)
  {
  }

  lemma SquareMonotone(a: real, b: real)
    requires 0.0 <= a <= b
    ensures a * a <= b * b
  {
    assert b * b - a * a == (b - a) * (b + a);
  }

  // ---- Candidates and their order ----

  lemma IdsSnoc(s: seq<Puppet>, i: nat)
    requires Distinct(s) && i < |s|
    ensures Ids(s[..i + 1]) == Ids(s[..i]) + {s[i].id} && s[i].id !in Ids(s[..i]) && s[i].id in Ids(s)
  {
    assert s[..i + 1] == s[..i] + [s[i]];
    assert s[i] in s;
    forall id | id in Ids(s[..i]) + {s[i].id}
      ensures id in Ids(s[..i + 1])
    {
      if id == s[i].id {
        assert s[i] in s[..i + 1];
      } else {
        var p :| p in s[..i] && p.id == id;
        assert p in s[..i + 1];
      }
    }
  }

  lemma NoIds(s: seq<Puppet>)
    ensures Ids(s[..0]) == {}
  {
  }

  lemma SplitIds(a: seq<Puppet>, b: seq<Puppet>)
    requires Distinct(a + b)
    ensures Ids(a + b) == Ids(a) + Ids(b) && Ids(a) !! Ids(b) && Distinct(a) && Distinct(b)
  {
    var s := a + b;
    forall p | p in a ensures p in s { }
    forall p | p in b ensures p in s { }
    forall i, j | 0 <= i < |a| && 0 <= j < |b|
      ensures a[i].id != b[j].id
    {
      assert s[i] == a[i] && s[|a| + j] == b[j];
    }
    forall i, j | 0 <= i < j < |b|
      ensures b[i].id != b[j].id
    {
      assert s[|a| + i] == b[i] && s[|a| + j] == b[j];
    }
    forall i, j | 0 <= i < j < |a|
      ensures a[i].id != a[j].id
    {
      assert s[i] == a[i] && s[j] == a[j];
    }
  }

  lemma {:induction false} CandidatesExact(puppets: seq<Puppet>, v: View, was: set<nat>, enterSq: real, leaveSq: real,
      p: Puppet)
    ensures p in Candidates(puppets, v, was, enterSq, leaveSq) <==> p in puppets && InScope(p, v, was, enterSq, leaveSq)
  {
    hide InScope;
    if puppets != [] {
      CandidatesExact(puppets[..|puppets| - 1], v, was, enterSq, leaveSq, p);
      assert puppets == puppets[..|puppets| - 1] + [puppets[|puppets| - 1]];
    }
  }

  lemma {:induction false} CandidatesDistinct(puppets: seq<Puppet>, v: View, was: set<nat>, enterSq: real,
      leaveSq: real)
    requires Distinct(puppets)
    ensures Distinct(Candidates(puppets, v, was, enterSq, leaveSq))
  {
    hide InScope;
    if puppets != [] {
      var front, last := puppets[..|puppets| - 1], puppets[|puppets| - 1];
      CandidatesDistinct(front, v, was, enterSq, leaveSq);
      var rest := Candidates(front, v, was, enterSq, leaveSq);
      forall i | 0 <= i < |rest|
        ensures rest[i].id != last.id
      {
        CandidatesExact(front, v, was, enterSq, leaveSq, rest[i]);
        assert rest[i] in front;
      }
    }
  }

  lemma {:induction false} InsertPermutes(v: View, p: Puppet, s: seq<Puppet>)
    ensures multiset(Insert(v, p, s)) == multiset(s) + multiset{p}
  {
    hide Before;
    if s != [] && !Before(v, p, s[0]) {
      InsertPermutes(v, p, s[1..]);
      assert s == [s[0]] + s[1..];
    }
  }

  lemma {:induction false} SortPermutes(v: View, s: seq<Puppet>)
    ensures multiset(Sort(v, s)) == multiset(s)
  {
    hide Insert;
    if s != [] {
      SortPermutes(v, s[1..]);
      InsertPermutes(v, s[0], Sort(v, s[1..]));
      assert s == [s[0]] + s[1..];
    }
  }

  lemma SamePuppets(a: seq<Puppet>, b: seq<Puppet>)
    requires multiset(a) == multiset(b)
    ensures Ids(a) == Ids(b) && |a| == |b|
  {
    assert |multiset(a)| == |multiset(b)|;
    forall p
      ensures p in a <==> p in b
    {
      assert p in multiset(a) <==> p in multiset(b);
    }
  }

  lemma InsertMembers(v: View, p: Puppet, s: seq<Puppet>, q: Puppet)
    ensures q in Insert(v, p, s) <==> q == p || q in s
  {
    InsertPermutes(v, p, s);
    assert q in multiset(Insert(v, p, s)) <==> q in multiset(s) + multiset{p};
  }

  ghost predicate Fresh(p: Puppet, s: seq<Puppet>) {
    forall i :: 0 <= i < |s| ==> s[i].id != p.id
  }

  ghost predicate Ascending(v: View, s: seq<Puppet>) {
    forall i, j :: 0 <= i < j < |s| ==> Before(v, s[i], s[j])
  }

  lemma {:induction false} InsertKeepsOrder(v: View, p: Puppet, s: seq<Puppet>)
    requires Distinct(s) && Fresh(p, s) && Ascending(v, s)
    ensures Distinct(Insert(v, p, s)) && Ascending(v, Insert(v, p, s))
  {
    hide DistSq;
    if s == [] {
    } else if Before(v, p, s[0]) {
      forall i | 0 <= i < |s|
        ensures Before(v, p, s[i])
      {
        assert i > 0 ==> Before(v, s[0], s[i]);
      }
    } else {
      var rest := Insert(v, p, s[1..]);
      InsertKeepsOrder(v, p, s[1..]);
      forall i | 0 <= i < |rest|
        ensures Before(v, s[0], rest[i]) && rest[i].id != s[0].id
      {
        InsertMembers(v, p, s[1..], rest[i]);
        if rest[i] != p {
          var k :| 0 <= k < |s[1..]| && s[1..][k] == rest[i];
          assert s[k + 1] == rest[i];
        }
      }
    }
  }

  lemma {:induction false} SortDistinct(v: View, s: seq<Puppet>)
    requires Distinct(s)
    ensures Distinct(Sort(v, s)) && Ascending(v, Sort(v, s))
  {
    hide Before;
    if s != [] {
      var rest := Sort(v, s[1..]);
      SortDistinct(v, s[1..]);
      SortPermutes(v, s[1..]);
      forall i | 0 <= i < |rest|
        ensures rest[i].id != s[0].id
      {
        assert rest[i] in multiset(s[1..]);
        var k :| 0 <= k < |s[1..]| && s[1..][k] == rest[i];
        assert s[k + 1] == rest[i];
      }
      InsertKeepsOrder(v, s[0], rest);
    }
  }

  /** The kept puppets are the nearest of those in scope, as many as the cap allows. */
  lemma KeptAreNearest(puppets: seq<Puppet>, v: View, was: set<nat>, enterSq: real, leaveSq: real, most: int)
    requires Distinct(puppets) && most > 0
    ensures var kept := Kept(puppets, v, was, enterSq, leaveSq, most);
      && Distinct(kept) && Ascending(v, kept)
      && (forall p :: p in kept ==> p in puppets && InScope(p, v, was, enterSq, leaveSq))
      && (forall p, q :: p in kept && q in puppets && InScope(q, v, was, enterSq, leaveSq) && q !in kept ==>
          Before(v, p, q))
      && ((exists q :: q in puppets && InScope(q, v, was, enterSq, leaveSq) && q !in kept) ==> |kept| == most)
      && |kept| <= most
  {
    hide InScope, Before, Sort, Candidates;
    var cands := Candidates(puppets, v, was, enterSq, leaveSq);
    var sorted := Sort(v, cands);
    CandidatesDistinct(puppets, v, was, enterSq, leaveSq);
    SortDistinct(v, cands);
    SortPermutes(v, cands);
    var kept := Capped(sorted, most);
    forall p
      ensures p in sorted <==> p in puppets && InScope(p, v, was, enterSq, leaveSq)
    {
      CandidatesExact(puppets, v, was, enterSq, leaveSq, p);
      assert p in multiset(sorted) <==> p in multiset(cands);
    }
    forall p, q | p in kept && q in sorted && q !in kept
      ensures Before(v, p, q)
    {
      var i :| 0 <= i < |kept| && kept[i] == p;
      var j :| 0 <= j < |sorted| && sorted[j] == q;
      assert kept[i] == sorted[i];
      assert j >= |kept|;
    }
  }
}
