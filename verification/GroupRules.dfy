/** What joining and leaving a group means to the players. */
module GroupRules {
  import opened Groups

  /** The roster of the player's group, nobody without one. */
  function Roster(p: Parties, s: nat): seq<nat> {
    if s in p.membership && p.membership[s] in p.groups then p.groups[p.membership[s]].members else []
  }

  /** The leader of the player's group. */
  function Leader(p: Parties, s: nat): nat {
    if s in p.membership && p.membership[s] in p.groups then p.groups[p.membership[s]].leader else s
  }

  /** A player of neither of the two groups sees the same roster and leader as before. */
  ghost predicate Untouched(p: Parties, q: Parties, s: nat) {
    Roster(q, s) == Roster(p, s) && Leader(q, s) == Leader(p, s) && (s in q.membership <==> s in p.membership)
  }

  /**
   * A player in no group joins exactly when the inviter's group, or the inviter alone, leaves room; the player is then
   * last on the inviter's roster, under the same leader. Players outside notice nothing.
   */
  lemma JoinRule(p: Parties, inviter: nat, target: nat, most: nat, other: nat)
    requires Consistent(p, most) && inviter != target
    ensures var (q, r) := Join(p, inviter, target, most);
      var before := if inviter in p.membership then Roster(p, inviter) else [inviter];
      && (r.Joined? <==> target !in p.membership && |before| < most)
      && (r == Refused(AlreadyIn) <==> target in p.membership)
      && (r == Refused(Full) <==> target !in p.membership && |before| >= most)
      && (r.Joined? ==>
            && Roster(q, target) == Roster(q, inviter) == before + [target]
            && Leader(q, target) == Leader(q, inviter) == Leader(p, inviter))
      && (r.Joined? && other != target && other !in before ==> Untouched(p, q, other))
      && (!r.Joined? && (target in p.membership || inviter in p.membership) ==> q == p)
  {
    hide Sound;
    if inviter in p.membership {
      assert p.membership[inviter] in p.groups;
      if other !in Roster(p, inviter) {
        OtherGroup(p, most, other, inviter);
      }
    } else {
      UnusedGroup(p, most, other);
    }
  }

  /** Members of one group are on its roster. */
  lemma OtherGroup(p: Parties, most: nat, a: nat, b: nat)
    requires Consistent(p, most) && b in p.membership && a !in Roster(p, b)
    ensures a in p.membership ==> p.membership[a] != p.membership[b] && p.membership[a] in p.groups
  {
    hide Sound;
    assert a in p.membership ==> a in p.groups[p.membership[a]].members;
  }

  lemma UnusedGroup(p: Parties, most: nat, a: nat)
    requires Consistent(p, most)
    ensures a in p.membership ==> p.membership[a] != p.nextID + 1 && p.membership[a] in p.groups
  {
    if a in p.membership {
      assert Sound(p.groups[p.membership[a]], p.membership[a], p, most);
    }
  }

  lemma {:induction false} OthersAre(members: seq<nat>, s: nat)
    ensures forall m :: m in Others(members, s) <==> m in members && m != s
  {
    if members != [] {
      var front, last := members[..|members| - 1], members[|members| - 1];
      OthersAre(front, s);
      assert members == front + [last];
    }
  }

  /**
   * Who leaves is in no group. With the leader, or when one is left, the group is gone and so are all memberships of
   * it; otherwise the others stay, in their order, under the same leader.
   */
  lemma LeaveRule(p: Parties, s: nat, most: nat, mate: nat)
    requires Consistent(p, most) && s in p.membership && mate in Roster(p, s) && mate != s
    ensures p.membership[s] in p.groups
    ensures var q := Departed(p, s); var stays := Leader(p, s) != s && |Roster(p, s)| > 2;
      && s !in q.membership && (mate in q.membership <==> stays) && (p.membership[s] in q.groups <==> stays)
      && (stays ==> Roster(q, mate) == Others(Roster(p, s), s) && Leader(q, mate) == Leader(p, s))
  {
    var gid := p.membership[s];
    var g := p.groups[gid];
    assert Sound(g, gid, p, most);
    assert mate in p.membership && p.membership[mate] == gid;
    hide Sound;
    OthersAre(g.members, s);
    OthersSize(g.members, s);
    assert s in g.members;
    hide Consistent, Others;
  }

  /** Players of other groups, or of none, notice nothing. */
  lemma LeaveUnnoticed(p: Parties, s: nat, most: nat, other: nat)
    requires Consistent(p, most) && s in p.membership && other !in Roster(p, s)
    ensures p.membership[s] in p.groups && Untouched(p, Departed(p, s), other)
  {
    var g := p.groups[p.membership[s]];
    OthersAre(g.members, s);
    OtherGroup(p, most, other, s);
    assert s in g.members;
    hide Consistent, Sound, Others;
  }

  /** All but one, once. */
  lemma {:induction false} OthersSize(members: seq<nat>, s: nat)
    requires Distinct(members)
    ensures |Others(members, s)| == |members| - if s in members then 1 else 0
  {
    if members != [] {
      var front, last := members[..|members| - 1], members[|members| - 1];
      OthersSize(front, s);
      assert members == front + [last];
      assert last !in front;
    }
  }
}
