/** Which squads a session sees, in coordinates: the two radii, and the nearest when there are too many. */
module AiScope {
  import opened AiVisibility

  /** On the level of the session, and no further in the plane than the square root of `reach`. */
  predicate Within(p: Puppet, v: View, reach: real) {
    p.level == v.level && (p.x - v.x) * (p.x - v.x) + (p.z - v.z) * (p.z - v.z) <= reach
  }

  /** `p` is nearer in the plane than `q`, or as near with the smaller id. */
  predicate Nearer(v: View, p: Puppet, q: Puppet) {
    var a := (p.x - v.x) * (p.x - v.x) + (p.z - v.z) * (p.z - v.z);
    var b := (q.x - v.x) * (q.x - v.x) + (q.z - v.z) * (q.z - v.z);
    a < b || (a == b && p.id < q.id)
  }

  lemma WithinIsScope(p: Puppet, v: View, was: set<nat>, enterSq: real, leaveSq: real)
    requires enterSq <= leaveSq
    ensures InScope(p, v, was, enterSq, leaveSq) <==> Within(p, v, if p.id in was then leaveSq else enterSq)
  {
    DistSqIs(p, v);
    hide DistSq;
    var reach := if p.id in was then leaveSq else enterSq;
    assert Within(p, v, reach) <==> p.level == v.level && DistSq(p, v) <= reach;
    hide Within;
  }

  lemma DistSqIs(p: Puppet, v: View)
    ensures DistSq(p, v) == (p.x - v.x) * (p.x - v.x) + (p.z - v.z) * (p.z - v.z)
  {
  }

  lemma NearerIsBefore(v: View, p: Puppet, q: Puppet)
    ensures Before(v, p, q) <==> Nearer(v, p, q)
  {
    DistSqIs(p, v);
    DistSqIs(q, v);
    hide DistSq;
  }

  lemma KeptId(kept: seq<Puppet>, puppets: seq<Puppet>, p: Puppet)
    requires Distinct(puppets) && (forall q :: q in kept ==> q in puppets) && p in puppets
    ensures p.id in Ids(kept) <==> p in kept
  {
    if p.id in Ids(kept) {
      var q :| q in kept && q.id == p.id;
      var i :| 0 <= i < |puppets| && puppets[i] == p;
      var j :| 0 <= j < |puppets| && puppets[j] == q;
      assert i == j;
    }
  }

  /** With room, a visible squad is kept up to the leave radius, another up to the enter radius. */
  lemma KeptIff(puppets: seq<Puppet>, v: View, was: set<nat>, enterSq: real, leaveSq: real, most: int, p: Puppet)
    requires Distinct(puppets) && most > 0 && enterSq <= leaveSq && p in puppets
    requires |Kept(puppets, v, was, enterSq, leaveSq, most)| < most || |puppets| <= most
    ensures p.id in Ids(Kept(puppets, v, was, enterSq, leaveSq, most)) <==>
            Within(p, v, if p.id in was then leaveSq else enterSq)
  {
    hide Kept, Ids, InScope, Within, Before;
    var kept := Kept(puppets, v, was, enterSq, leaveSq, most);
    KeptAreNearest(puppets, v, was, enterSq, leaveSq, most);
    KeptId(kept, puppets, p);
    WithinIsScope(p, v, was, enterSq, leaveSq);
    if InScope(p, v, was, enterSq, leaveSq) && p !in kept {
      KeptAreFewer(kept, puppets, p);
    }
  }

  /** Distinct puppets of a sequence that has another are fewer than it has. */
  lemma KeptAreFewer(kept: seq<Puppet>, puppets: seq<Puppet>, p: Puppet)
    requires Distinct(kept) && (forall q :: q in kept ==> q in puppets) && p in puppets && p !in kept
    ensures |kept| < |puppets|
  {
    var all := set q | q in puppets;
    AtMostLength(puppets);
    DistinctSize(kept);
    SubsetSize((set q | q in kept), all - {p});
  }

  lemma {:induction false} AtMostLength(s: seq<Puppet>)
    ensures |set q | q in s| <= |s|
  {
    if s == [] {
      assert (set q | q in s) == {};
    } else {
      var front, last := s[..|s| - 1], s[|s| - 1];
      AtMostLength(front);
      assert s == front + [last];
      assert (set q | q in s) == (set q | q in front) + {last};
    }
  }

  lemma {:induction false} DistinctSize(s: seq<Puppet>)
    requires Distinct(s)
    ensures |set q | q in s| == |s|
  {
    if s == [] {
      assert (set q | q in s) == {};
    } else {
      var front, last := s[..|s| - 1], s[|s| - 1];
      DistinctSize(front);
      assert s == front + [last];
      assert (set q | q in s) == (set q | q in front) + {last};
      assert last !in front;
    }
  }

  lemma {:induction false} SubsetSize(a: set<Puppet>, b: set<Puppet>)
    requires a <= b
    ensures |a| <= |b|
  {
    if a != {} {
      var x :| x in a;
      SubsetSize(a - {x}, b - {x});
    }
  }

  /** Without room, those kept are nearer than every squad in reach that is not. */
  lemma NearestKept(puppets: seq<Puppet>, v: View, was: set<nat>, enterSq: real, leaveSq: real, most: int,
      p: Puppet, q: Puppet)
    requires Distinct(puppets) && most > 0 && enterSq <= leaveSq && p in puppets && q in puppets
    requires p.id in Ids(Kept(puppets, v, was, enterSq, leaveSq, most))
    requires q.id !in Ids(Kept(puppets, v, was, enterSq, leaveSq, most))
    requires Within(q, v, if q.id in was then leaveSq else enterSq)
    ensures Nearer(v, p, q) && |Kept(puppets, v, was, enterSq, leaveSq, most)| == most
  {
    hide Kept, Ids, InScope, Within, Before, Nearer;
    var kept := Kept(puppets, v, was, enterSq, leaveSq, most);
    KeptAreNearest(puppets, v, was, enterSq, leaveSq, most);
    KeptId(kept, puppets, p);
    KeptId(kept, puppets, q);
    WithinIsScope(q, v, was, enterSq, leaveSq);
    NearerIsBefore(v, p, q);
  }

  /**
   * One pass with room for all: a visible squad stays visible up to the leave radius and is left by a notice beyond;
   * another becomes visible up to the enter radius when it has a wire id, with a notice.
   */
  lemma PassKeeps(a: AiReplication, v: View, was: set<nat>, puppets: seq<Puppet>, entityIDs: map<nat, nat>,
      now: set<nat>, notices: seq<Notice>, p: Puppet)
    requires a.maxEntities > 0 && a.enterSq <= a.leaveSq && Distinct(puppets) && |puppets| <= a.maxEntities
    requires a.Passed(v, was, puppets, entityIDs, now, notices) && p in puppets
    ensures p.id in was ==>
              && (p.id in now <==> Within(p, v, a.leaveSq))
              && (p.id in entityIDs ==> (Leave(p.id, entityIDs[p.id]) in notices <==> !Within(p, v, a.leaveSq)))
    ensures p.id !in was ==>
              && (p.id in now <==> p.id in entityIDs && Within(p, v, a.enterSq))
              && (p.id in entityIDs ==> (Enter(p.id, entityIDs[p.id]) in notices <==> Within(p, v, a.enterSq)))
  {
    KeptIff(puppets, v, was, a.enterSq, a.leaveSq, a.maxEntities, p);
    hide Kept, Distinct, Within, Ids;
  }

  /** A squad that is not in the simulation is in no radius. */
  lemma PassDrops(a: AiReplication, v: View, was: set<nat>, puppets: seq<Puppet>, entityIDs: map<nat, nat>,
      now: set<nat>, notices: seq<Notice>, squad: nat)
    requires a.maxEntities > 0 && Distinct(puppets) && a.Passed(v, was, puppets, entityIDs, now, notices)
    requires squad in now
    ensures exists i :: 0 <= i < |puppets| && puppets[i].id == squad && Within(puppets[i], v, a.leaveSq)
  {
    KeptAreNearest(puppets, v, was, a.enterSq, a.leaveSq, a.maxEntities);
    var kept := Kept(puppets, v, was, a.enterSq, a.leaveSq, a.maxEntities);
    hide Kept;
    assert squad in Ids(kept);
    var p :| p in kept && p.id == squad;
    var i :| 0 <= i < |puppets| && puppets[i] == p;
  }
}
