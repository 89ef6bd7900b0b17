/** Parties and invitations (`internal/game/groups.go`). */
module Groups {
  import opened Basics

  const WIRE_MEMBERS: nat := 8
  const DEFAULT_MEMBERS: nat := 4
  const DEFAULT_TTL: int := 60_000_000_000

  /** Members in the order they joined. */
  datatype Group = Group(id: nat, leader: nat, members: seq<nat>)

  datatype Invitation = Invitation(inviter: nat, target: nat, targetName: string, expires: int)

  datatype Error = Full | NoInvite | AlreadyIn | SelfInvite | InvitePending

  datatype Result = Joined(gid: nat) | Refused(error: Error)

  datatype Parties = Parties(groups: map<nat, Group>, membership: map<nat, nat>, nextID: nat)

  // ---- The specification ----

  ghost predicate Distinct(s: seq<nat>) {
    forall i, j :: 0 <= i < j < |s| ==> s[i] != s[j]
  }

  /**
   * A group under its own, used id: distinct members within the cap, among them the leader; two at least if the cap
   * allows.
   */
  ghost predicate Sound(g: Group, gid: nat, p: Parties, most: nat) {
    && g.id == gid && 1 <= gid <= p.nextID
    && Distinct(g.members) && |g.members| <= most && (most >= 2 ==> |g.members| >= 2)
    && g.leader in g.members
    && (forall m :: m in g.members ==> m in p.membership && p.membership[m] == gid)
  }

  /** The membership map and the member lists describe each other. */
  ghost predicate Consistent(p: Parties, most: nat) {
    && (forall gid :: gid in p.groups ==> Sound(p.groups[gid], gid, p, most))
    && (forall s :: s in p.membership ==> p.membership[s] in p.groups && s in p.groups[p.membership[s]].members)
  }

  /** The inviter's group, after making one for an inviter who has none. */
  function WithGroup(p: Parties, inviter: nat): Parties {
    if inviter in p.membership then p
    else
      var gid := p.nextID + 1;
      Parties(p.groups[gid := Group(gid, inviter, [inviter])], p.membership[inviter := gid], gid)
  }

  function Append(p: Parties, gid: nat, target: nat): Parties
    requires gid in p.groups
  {
    p.(groups := p.groups[gid := p.groups[gid].(members := p.groups[gid].members + [target])],
       membership := p.membership[target := gid])
  }

  /** What accepting an unexpired invitation does. */
  function Join(p: Parties, inviter: nat, target: nat, most: nat): (Parties, Result) {
    if target in p.membership then (p, Refused(AlreadyIn))
    else
      var q := WithGroup(p, inviter);
      var gid := q.membership[inviter];
      if gid !in q.groups then (q, Refused(NoInvite))
      else if |q.groups[gid].members| >= most then (q, Refused(Full))
      else (Append(q, gid, target), Joined(gid))
  }

  function Others(members: seq<nat>, s: nat): seq<nat> {
    if members == [] then []
    else
      var rest := Others(members[..|members| - 1], s);
      if members[|members| - 1] != s then rest + [members[|members| - 1]] else rest
  }

  /** What a member's departure does: the group goes with its leader, and with its last but one member. */
  function Departed(p: Parties, s: nat): Parties
    requires s in p.membership && p.membership[s] in p.groups
  {
    var gid := p.membership[s];
    var g := p.groups[gid];
    var rest := Others(g.members, s);
    if g.leader == s || |rest| <= 1 then
      p.(groups := p.groups - {gid}, membership := map m | m in p.membership && m != s && m !in rest :: p.membership[m])
    else
      p.(groups := p.groups[gid := g.(members := rest)], membership := p.membership - {s})
  }

  ghost predicate Proper(i: Invitation, target: nat) {
    i.target == target && i.inviter != i.target && i.inviter != 0 && i.target != 0
  }

  class GroupManager {
    var groups: map<nat, Group>
    var membership: map<nat, nat>
    var invites: map<nat, Invitation>
    var nextID: nat
    const maxMembers: nat
    const inviteTTL: int

    function Value(): Parties
      reads this
    {
      Parties(groups, membership, nextID)
    }

    ghost predicate Valid()
      reads this
    {
      && 1 <= maxMembers <= WIRE_MEMBERS && inviteTTL > 0
      && Consistent(Value(), maxMembers)
      && (forall t :: t in invites ==> Proper(invites[t], t))
    }

    constructor (most: int, ttl: int)
      ensures Valid() && Value() == Parties(map[], map[], 0) && invites == map[]
      ensures maxMembers == if most <= 0 then 4 else if most > 8 then 8 else most
      ensures inviteTTL == if ttl <= 0 then 60_000_000_000 else ttl
    {
      var cap := if most <= 0 then DEFAULT_MEMBERS else most;
      maxMembers := if cap > WIRE_MEMBERS then WIRE_MEMBERS else cap;
      inviteTTL := if ttl <= 0 then DEFAULT_TTL else ttl;
      groups, membership, invites, nextID := map[], map[], map[], 0;
    }

    /** A pending invitation of the target that has not run out blocks a new one. */
    method Invite(inviter: nat, target: nat, targetName: string, now: int) returns (r: Result)
      requires Valid()
      modifies this`invites
      ensures Valid()
      ensures var stands := target in old(invites) && now < old(invites)[target].expires;
        if inviter == 0 || target == 0 || inviter == target then r == Refused(SelfInvite) && invites == old(invites)
        else if stands then r == Refused(InvitePending) && invites == old(invites)
        else
          r == Joined(0) && invites == old(invites)[target := Invitation(inviter, target, targetName, now + inviteTTL)]
    {
      if inviter == 0 || target == 0 || inviter == target {
        return Refused(SelfInvite);
      }
      if target in invites && now < invites[target].expires {
        return Refused(InvitePending);
      }
      invites := invites[target := Invitation(inviter, target, targetName, now + inviteTTL)];
      return Joined(0);
    }

    /** Takes the invitation of the target out and hands it back, if there is one. */
    method Decline(target: nat) returns (declined: Option<Invitation>)
      requires Valid()
      modifies this`invites
      ensures Valid() && target !in invites
      ensures declined.Some? ==> declined.value.target == target && invites[target := declined.value] == old(invites)
      ensures declined.None? ==> invites == old(invites)
    {
      if target !in invites {
        return None;
      }
      declined := Some(invites[target]);
      invites := invites - {target};
      assert invites[target := declined.value] == old(invites);
    }

    /** Uses up the invitation; the guard for a membership without a group is never taken. */
    method Accept(target: nat, now: int) returns (r: Result)
      requires Valid()
      modifies this`invites, this`groups, this`membership, this`nextID
      ensures Valid() && invites == old(invites) - {target}
      ensures if target !in old(invites) || now > old(invites)[target].expires
              then r == Refused(NoInvite) && Value() == old(Value())
              else (Value(), r) == Join(old(Value()), old(invites)[target].inviter, target, maxMembers)
      ensures target in old(invites) && now <= old(invites)[target].expires ==> r != Refused(NoInvite)
    {
      hide Consistent, WithGroup;
      if target !in invites {
        assert invites - {target} == invites;
        return Refused(NoInvite);
      }
      var invite := invites[target];
      invites := invites - {target};
      if now > invite.expires {
        return Refused(NoInvite);
      }
      JoinKeeps(Value(), invite.inviter, target, maxMembers);
      if target in membership {
        return Refused(AlreadyIn);
      }
      var gid := GroupOf(invite.inviter);
      assert gid in groups;
      var g := groups[gid];
      if |g.members| >= maxMembers {
        return Refused(Full);
      }
      groups := groups[gid := g.(members := g.members + [target])];
      membership := membership[target := gid];
      return Joined(gid);
    }

    method GroupOf(inviter: nat) returns (gid: nat)
      modifies this`groups, this`membership, this`nextID
      ensures Value() == WithGroup(old(Value()), inviter) && inviter in membership && gid == membership[inviter]
    {
      if inviter in membership {
        gid := membership[inviter];
      } else {
        nextID := nextID + 1;
        gid := nextID;
        groups := groups[gid := Group(gid, inviter, [inviter])];
        membership := membership[inviter := gid];
      }
    }

    method Leave(s: nat) returns (gid: nat, roster: seq<nat>, was: bool)
      requires Valid()
      modifies this`groups, this`membership
      ensures Valid()
      ensures was == (s in old(membership))
      ensures !was ==> gid == 0 && roster == [] && Value() == old(Value())
      ensures was ==>
                gid == old(membership)[s] && roster == old(groups)[gid].members && Value() == Departed(old(Value()), s)
    {
      hide Consistent, Others;
      if s !in membership {
        return 0, [], false;
      }
      DepartureKeeps(Value(), s, maxMembers);
      gid := membership[s];
      var g := groups[gid];
      membership := membership - {s};
      roster := g.members;
      var remaining := Filter(g.members, s);
      groups := groups[gid := g.(members := remaining)];
      if g.leader == s || |remaining| <= 1 {
        membership := map m | m in membership && m !in remaining :: membership[m];
        groups := groups - {gid};
        assert groups == old(groups) - {gid};
        assert membership == map m | m in old(membership) && m != s && m !in remaining :: old(membership)[m];
      }
      assert Value() == Departed(old(Value()), s);
      was := true;
    }

    /** Drops the invitations that have run out. */
    method Tick(now: int)
      requires Valid()
      modifies this`invites
      ensures Valid()
      ensures forall t :: t in invites <==> t in old(invites) && now <= old(invites)[t].expires
      ensures forall t :: t in invites ==> invites[t] == old(invites)[t]
    {
      var left := invites.Keys;
      while left != {}
        invariant left <= old(invites).Keys
        invariant forall t :: t in invites <==>
                    t in old(invites) && (t in left || now <= old(invites)[t].expires)
        invariant forall t :: t in invites ==> invites[t] == old(invites)[t]
        decreases left
      {
        ghost var some := SomeMember(left);
        var t :| t in left;
        if now > invites[t].expires {
          invites := invites - {t};
        }
        left := left - {t};
      }
    }

    method ForgetSession(s: nat)
      requires Valid()
      modifies this`invites
      ensures Valid()
      ensures s == 0 ==> invites == old(invites)
      ensures forall t :: t in invites ==> s == 0 || (invites[t].inviter != s && invites[t].target != s)
      ensures forall t :: t in old(invites) && old(invites)[t].inviter != s && t != s ==>
              t in invites && invites[t] == old(invites)[t]
    {
      if s == 0 {
        return;
      }
      var left := invites.Keys;
      while left != {}
        invariant left <= old(invites).Keys
        invariant forall t :: t in invites <==>
                    t in old(invites) && (t in left || (t != s && old(invites)[t].inviter != s))
        invariant forall t :: t in invites ==> invites[t] == old(invites)[t]
        decreases left
      {
        ghost var some := SomeMember(left);
        var t :| t in left;
        if t == s || invites[t].inviter == s {
          invites := invites - {t};
        }
        left := left - {t};
      }
    }

    method IsSameGroup(a: nat, b: nat) returns (r: bool)
      requires Valid()
      ensures r <==>
              a != 0 && b != 0 && exists gid :: gid in groups && a in groups[gid].members && b in groups[gid].members
    {
      if a == 0 || b == 0 {
        return false;
      }
      SameGroupIff(Value(), a, b, maxMembers);
      return a in membership && b in membership && membership[a] == membership[b];
    }
  }

  method Filter(members: seq<nat>, s: nat) returns (remaining: seq<nat>)
    ensures remaining == Others(members, s)
  {
    remaining := [];
    for i := 0 to |members|
      invariant remaining == Others(members[..i], s)
    {
      assert members[..i + 1][..i] == members[..i];
      if members[i] != s {
        remaining := remaining + [members[i]];
      }
    }
    assert members[..|members|] == members;
  }

  // ---- Proofs ----

  lemma SameGroupIff(p: Parties, a: nat, b: nat, most: nat)
    requires Consistent(p, most)
    ensures (a in p.membership && b in p.membership && p.membership[a] == p.membership[b])
            <==> exists gid :: gid in p.groups && a in p.groups[gid].members && b in p.groups[gid].members
  {
    forall gid | gid in p.groups
      ensures Sound(p.groups[gid], gid, p, most)
    {
    }
  }

  lemma {:induction false} OthersExact(members: seq<nat>, s: nat)
    requires Distinct(members)
    ensures var rest := Others(members, s);
      && Distinct(rest) && (forall m :: m in rest <==> m in members && m != s)
      && |rest| == (if s in members then |members| - 1 else |members|)
  {
    if members != [] {
      var front := members[..|members| - 1];
      OthersExact(front, s);
      assert members == front + [members[|members| - 1]];
      var before := Others(front, s);
      forall i | 0 <= i < |before|
        ensures before[i] != members[|members| - 1]
      {
        assert before[i] in front;
      }
    }
  }

  /** A new group has a new id and only its founder; it is sound for a cap of one. */
  lemma FoundedKeeps(p: Parties, inviter: nat, most: nat)
    requires Consistent(p, most) && inviter !in p.membership
    ensures var q := WithGroup(p, inviter);
      && q.nextID !in p.groups && q.membership[inviter] == q.nextID
      && (forall gid :: gid in p.groups ==> gid != q.nextID && Sound(p.groups[gid], gid, q, most))
  {
    forall gid | gid in p.groups
      ensures Sound(p.groups[gid], gid, WithGroup(p, inviter), most) && gid != p.nextID + 1
    {
      assert Sound(p.groups[gid], gid, p, most);
    }
  }

  /** Group `gid` can take `target`, and everything else is consistent. */
  ghost predicate HasRoom(q: Parties, gid: nat, target: nat, most: nat) {
    && gid in q.groups && target !in q.membership
    && (forall k :: k in q.groups && k != gid ==> Sound(q.groups[k], k, q, most))
    && (forall s :: s in q.membership ==> q.membership[s] in q.groups && s in q.groups[q.membership[s]].members)
    && var g := q.groups[gid];
    && g.id == gid && 1 <= gid <= q.nextID && Distinct(g.members) && 1 <= |g.members| < most && g.leader in g.members
    && (forall m :: m in g.members ==> m in q.membership && q.membership[m] == gid)
  }

  lemma AppendKeeps(q: Parties, gid: nat, target: nat, most: nat)
    requires HasRoom(q, gid, target, most)
    ensures Consistent(Append(q, gid, target), most)
  {
    var r := Append(q, gid, target);
    forall k | k in r.groups && k != gid
      ensures Sound(r.groups[k], k, r, most)
    {
      assert Sound(q.groups[k], k, q, most);
    }
  }

  lemma OldGroupHasRoom(p: Parties, gid: nat, target: nat, most: nat)
    requires Consistent(p, most) && gid in p.groups && target !in p.membership && |p.groups[gid].members| < most
    ensures HasRoom(p, gid, target, most)
  {
    assert Sound(p.groups[gid], gid, p, most);
  }

  lemma NewGroupHasRoom(p: Parties, inviter: nat, target: nat, most: nat)
    requires Consistent(p, most) && inviter !in p.membership && target !in p.membership && inviter != target
    ensures most >= 2 ==> HasRoom(WithGroup(p, inviter), p.nextID + 1, target, most)
    ensures most == 1 ==> Consistent(WithGroup(p, inviter), most)
  {
    FoundedKeeps(p, inviter, most);
  }

  /** Accepting keeps the tables consistent and always finds the inviter's group. */
  lemma JoinKeeps(p: Parties, inviter: nat, target: nat, most: nat)
    requires Consistent(p, most) && most >= 1 && inviter != target
    ensures var (after, r) := Join(p, inviter, target, most);
      && Consistent(after, most)
      && r != Refused(NoInvite)
    ensures target !in p.membership ==> WithGroup(p, inviter).membership[inviter] in WithGroup(p, inviter).groups
  {
    hide Consistent, HasRoom;
    if target !in p.membership {
      var q := WithGroup(p, inviter);
      var gid := q.membership[inviter];
      if inviter in p.membership {
        GroupIsThere(p, inviter, most);
        if |q.groups[gid].members| < most {
          OldGroupHasRoom(p, gid, target, most);
          AppendKeeps(q, gid, target, most);
        }
      } else {
        NewGroupHasRoom(p, inviter, target, most);
        if most >= 2 {
          AppendKeeps(q, gid, target, most);
        }
      }
    }
  }

  lemma GroupIsThere(p: Parties, s: nat, most: nat)
    requires Consistent(p, most) && s in p.membership
    ensures p.membership[s] in p.groups
  {
  }

  lemma DissolveKeeps(p: Parties, gid: nat, s: nat, rest: seq<nat>, most: nat)
    requires Consistent(p, most) && gid in p.groups
    requires forall m :: m in rest <==> m in p.groups[gid].members && m != s
    requires s in p.groups[gid].members
    ensures Consistent(p.(groups := p.groups - {gid},
                          membership := map m | m in p.membership && m != s && m !in rest :: p.membership[m]), most)
  {
    hide Distinct;
    var after := p.(groups := p.groups - {gid},
                    membership := map m | m in p.membership && m != s && m !in rest :: p.membership[m]);
    forall k | k in after.groups
      ensures Sound(after.groups[k], k, after, most)
    {
      assert Sound(p.groups[k], k, p, most) && Sound(p.groups[gid], gid, p, most);
    }
  }

  lemma ShrinkKeeps(p: Parties, gid: nat, s: nat, rest: seq<nat>, most: nat)
    requires Consistent(p, most) && gid in p.groups && s in p.groups[gid].members && p.groups[gid].leader != s
    requires forall m :: m in rest <==> m in p.groups[gid].members && m != s
    requires Distinct(rest) && 2 <= |rest| <= |p.groups[gid].members|
    ensures Consistent(p.(groups := p.groups[gid := p.groups[gid].(members := rest)], membership := p.membership - {s}),
            most)
  {
    hide Distinct;
    var after := p.(groups := p.groups[gid := p.groups[gid].(members := rest)], membership := p.membership - {s});
    assert Sound(p.groups[gid], gid, p, most);
    forall k | k in after.groups
      ensures Sound(after.groups[k], k, after, most)
    {
      assert Sound(p.groups[k], k, p, most);
    }
  }

  lemma DepartureKeeps(p: Parties, s: nat, most: nat)
    requires Consistent(p, most) && s in p.membership
    ensures p.membership[s] in p.groups && Consistent(Departed(p, s), most)
  {
    var gid := p.membership[s];
    var g := p.groups[gid];
    assert Sound(g, gid, p, most);
    hide Others, Distinct, Sound, Consistent;
    OthersExact(g.members, s);
    var rest := Others(g.members, s);
    if g.leader == s || |rest| <= 1 {
      DissolveKeeps(p, gid, s, rest, most);
    } else {
      ShrinkKeeps(p, gid, s, rest, most);
    }
  }

  /** Taking back an append to a group that goes on. */
  lemma AppendThenLeave(p: Parties, gid: nat, target: nat, most: nat)
    requires Consistent(p, most) && gid in p.groups && target !in p.membership && |p.groups[gid].members| >= 2
    ensures Departed(Append(p, gid, target), target) == p
  {
    var g := p.groups[gid];
    assert Sound(g, gid, p, most);
    LastLeaves(g.members, target);
    assert p.membership[target := gid] - {target} == p.membership;
    assert p.groups[gid := g.(members := g.members + [target])][gid := g] == p.groups;
  }

  /** Taking back an append to a group founded for it. */
  lemma FoundThenLeave(p: Parties, inviter: nat, target: nat, most: nat)
    requires Consistent(p, most) && inviter != target && inviter !in p.membership && target !in p.membership
    ensures Departed(Append(WithGroup(p, inviter), p.nextID + 1, target), target) == p.(nextID := p.nextID + 1)
  {
    hide Consistent, Others;
    NewIdIsFree(p, most);
    var gid := p.nextID + 1;
    LastLeaves([inviter], target);
    var after := Append(WithGroup(p, inviter), gid, target);
    assert after.groups[gid].members == [inviter] + [target];
    assert after.groups - {gid} == p.groups;
    assert (map m | m in after.membership && m != target && m !in [inviter] :: after.membership[m]) == p.membership;
  }

  lemma NewIdIsFree(p: Parties, most: nat)
    requires Consistent(p, most)
    ensures p.nextID + 1 !in p.groups
  {
    forall gid | gid in p.groups
      ensures gid != p.nextID + 1
    {
      assert Sound(p.groups[gid], gid, p, most);
    }
  }

  /** A target that joins and leaves again leaves the parties as they were, but for the group number used up. */
  lemma JoinThenLeave(p: Parties, inviter: nat, target: nat, most: nat)
    requires Consistent(p, most) && inviter != target && Join(p, inviter, target, most).1.Joined?
    ensures var after := Join(p, inviter, target, most).0;
      && target in after.membership && after.membership[target] in after.groups
      && Departed(after, target) == p.(nextID := after.nextID)
  {
    hide Departed;
    if inviter in p.membership {
      var gid := p.membership[inviter];
      assert Sound(p.groups[gid], gid, p, most);
      AppendThenLeave(p, gid, target, most);
    } else {
      FoundThenLeave(p, inviter, target, most);
    }
  }

  lemma LastLeaves(members: seq<nat>, s: nat)
    requires s !in members
    ensures Others(members + [s], s) == members
  {
    NobodyElse(members, s);
    assert (members + [s])[..|members|] == members;
  }

  lemma {:induction false} NobodyElse(members: seq<nat>, s: nat)
    requires s !in members
    ensures Others(members, s) == members
  {
    if members != [] {
      assert members == members[..|members| - 1] + [members[|members| - 1]];
      NobodyElse(members[..|members| - 1], s);
    }
  }
}
