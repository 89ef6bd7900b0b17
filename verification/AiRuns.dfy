/** What one session is told about AI squads over many ticks, squads being registered and released in between. */
module AiRuns {
  import opened AiVisibility

  /** One tick as a session meets it: the pass, then the release of the squads that despawned. */
  datatype Round = Round(view: View, puppets: seq<Puppet>, entityIDs: map<nat, nat>, now: set<nat>,
      notices: seq<Notice>, released: set<nat>)
  {
    /** The visible set that the next tick finds. */
    function Left(): set<nat> { now - released }
  }

  /** The pass is one of `Tick`, and only squads that the simulation no longer has are released. */
  ghost predicate Follows(a: AiReplication, was: set<nat>, r: Round) {
    && Distinct(r.puppets) && a.Passed(r.view, was, r.puppets, r.entityIDs, r.now, r.notices)
    && r.released !! Ids(r.puppets)
  }

  ghost predicate Runs(a: AiReplication, was: set<nat>, run: seq<Round>)
    decreases |run|
  {
    run == [] || (Follows(a, was, run[0]) && Runs(a, run[0].Left(), run[1..]))
  }

  function SeenAfter(was: set<nat>, run: seq<Round>): set<nat>
    decreases |run|
  {
    if run == [] then was else SeenAfter(run[0].Left(), run[1..])
  }

  /** The notices about one squad in order, true for ENTER. */
  function About(squad: nat, notices: seq<Notice>): seq<bool> {
    if notices == [] then []
    else
      var last := notices[|notices| - 1];
      About(squad, notices[..|notices| - 1]) + if last.squad == squad then [last.Enter?] else []
  }

  function Told(squad: nat, run: seq<Round>): seq<bool> {
    if run == [] then [] else About(squad, run[0].notices) + Told(squad, run[1..])
  }

  // ---- One pass ----------------------------------------------------------------------------------

  lemma {:induction false} AboutNone(squad: nat, notices: seq<Notice>)
    requires forall i :: 0 <= i < |notices| ==> notices[i].squad != squad
    ensures About(squad, notices) == []
  {
    if notices != [] { AboutNone(squad, notices[..|notices| - 1]); }
  }

  lemma {:induction false} AboutOne(squad: nat, notices: seq<Notice>, k: nat)
    requires k < |notices| && forall i :: 0 <= i < |notices| ==> (notices[i].squad == squad <==> i == k)
    ensures About(squad, notices) == [notices[k].Enter?]
  {
    var front := notices[..|notices| - 1];
    if k == |notices| - 1 {
      AboutNone(squad, front);
    } else {
      AboutOne(squad, front, k);
    }
  }

  /** A pass tells of a squad with a wire id what happens to it, and of others nothing. */
  lemma AboutExact(squad: nat, notices: seq<Notice>, gone: set<nat>, come: set<nat>, entityIDs: map<nat, nat>)
    requires Tells(notices, gone, come, entityIDs) && gone !! come
    ensures About(squad, notices) ==
            if squad !in entityIDs then [] else if squad in gone then [false] else if squad in come then [true] else []
  {
    if k: nat :| k < |notices| && notices[k].squad == squad {
      assert notices[k] in notices;
      forall i | 0 <= i < |notices|
        ensures notices[i].squad == squad <==> i == k
      {
      }
      AboutOne(squad, notices, k);
    } else {
      AboutNone(squad, notices);
      if squad in entityIDs {
        assert Leave(squad, entityIDs[squad]) !in notices && Enter(squad, entityIDs[squad]) !in notices;
      }
    }
  }

  /** A visible squad goes out of scope while it has no wire id, so nothing is sent. */
  predicate Silent(squad: nat, was: set<nat>, r: Round) {
    squad in was && squad !in r.now && squad !in r.entityIDs
  }

  lemma RoundTells(a: AiReplication, squad: nat, was: set<nat>, r: Round)
    requires Follows(a, was, r) && a.maxEntities > 0
    ensures squad in r.Left() <==> squad in r.now
    ensures About(squad, r.notices) ==
            if Silent(squad, was, r) || (squad in was <==> squad in r.Left()) then [] else [squad in r.Left()]
    ensures squad in r.Left() ==> squad in was || squad in r.entityIDs
  {
    var kept := Ids(Kept(r.puppets, r.view, was, a.enterSq, a.leaveSq, a.maxEntities));
    AboutExact(squad, r.notices, was - kept, kept - was, r.entityIDs);
    if squad !in Ids(r.puppets) {
      a.DespawnedIsUnseen(r.view, was, r.puppets, r.entityIDs, r.now, r.notices, squad);
    }
    hide Kept, Distinct, Tells, Ids;
  }

  // ---- Runs --------------------------------------------------------------------------------------

  predicate Alternates(told: seq<bool>, first: bool) {
    told == [] || (told[0] == first && Alternates(told[1..], !first))
  }

  /** ENTER and LEAVE alternate, and the last of them says whether the squad is visible in the end. */
  predicate Truthful(told: seq<bool>, before: bool, after: bool) {
    Alternates(told, !before) && after == if told == [] then before else told[|told| - 1]
  }

  predicate NeverSilent(squad: nat, was: set<nat>, run: seq<Round>)
    decreases |run|
  {
    run == [] || (!Silent(squad, was, run[0]) && NeverSilent(squad, run[0].Left(), run[1..]))
  }

  /** About a squad that is not visible the first thing told is an ENTER, and it does not appear untold. */
  lemma {:induction false} EntersFirst(a: AiReplication, squad: nat, was: set<nat>, run: seq<Round>)
    requires Runs(a, was, run) && a.maxEntities > 0 && squad !in was
    ensures var told := Told(squad, run);
      if told == [] then squad !in SeenAfter(was, run) else told[0]
    decreases |run|
  {
    hide Follows, About;
    if run != [] {
      RoundTells(a, squad, was, run[0]);
      if About(squad, run[0].notices) == [] {
        EntersFirst(a, squad, run[0].Left(), run[1..]);
        assert Told(squad, run) == Told(squad, run[1..]);
      }
    }
  }

  lemma TruthfulStep(b: bool, told: seq<bool>, after: bool)
    ensures Truthful([b] + told, !b, after) <==> Truthful(told, b, after)
  {
    assert ([b] + told)[1..] == told;
  }

  /** The notices about a squad tell the truth over a run exactly when it never goes out of scope silently. */
  lemma {:induction false} TruthfulIff(a: AiReplication, squad: nat, was: set<nat>, run: seq<Round>)
    requires Runs(a, was, run) && a.maxEntities > 0
    ensures Truthful(Told(squad, run), squad in was, squad in SeenAfter(was, run)) <==> NeverSilent(squad, was, run)
    decreases |run|
  {
    hide Follows, About;
    if run != [] {
      var left := run[0].Left();
      var rest := Told(squad, run[1..]);
      RoundTells(a, squad, was, run[0]);
      TruthfulIff(a, squad, left, run[1..]);
      if Silent(squad, was, run[0]) {
        EntersFirst(a, squad, left, run[1..]);
        assert Told(squad, run) == rest;
      } else if squad in was <==> squad in left {
        assert Told(squad, run) == rest;
      } else {
        TruthfulStep(squad in left, rest, squad in SeenAfter(was, run));
      }
    }
  }

  // ---- Runs of the registry ------------------------------------------------------------------------

  /** Between ticks squads are registered, and a wire id goes only with the release of its squad. */
  predicate Registered(run: seq<Round>)
    decreases |run|
  {
    |run| <= 1 || (run[0].entityIDs.Keys - run[0].released <= run[1].entityIDs.Keys && Registered(run[1..]))
  }

  lemma {:induction false} VisibleHaveIds(a: AiReplication, squad: nat, was: set<nat>, run: seq<Round>)
    requires Runs(a, was, run) && a.maxEntities > 0 && Registered(run)
    requires run != [] && squad in was ==> squad in run[0].entityIDs
    ensures NeverSilent(squad, was, run)
    decreases |run|
  {
    hide Follows;
    if run != [] {
      RoundTells(a, squad, was, run[0]);
      VisibleHaveIds(a, squad, run[0].Left(), run[1..]);
    }
  }

  /** As the registry is kept, a session is told the truth about every squad from its first tick on. */
  lemma SessionToldTruth(a: AiReplication, squad: nat, run: seq<Round>)
    requires Runs(a, {}, run) && a.maxEntities > 0 && Registered(run)
    ensures Truthful(Told(squad, run), false, squad in SeenAfter({}, run))
  {
    VisibleHaveIds(a, squad, {}, run);
    TruthfulIff(a, squad, {}, run);
  }
}
