/** Whole runs of the cleanup, and histories of runs. */
module VpcRuns {
  import opened Ec2World
  import opened VpcCleanup
  import opened VpcListings
  import opened VpcEnis
  import opened VpcGroups
  import opened VpcSubnets

  /** Nothing the cleanup is responsible for is left in the VPC. */
  ghost predicate Emptied(w: World, vpc: Id) {
    NoEnis(w, vpc) && NoTargets(w, vpc) && NoSubnets(w, vpc)
  }

  ghost predicate Shrinks(w: World, w': World) {
    && w'.enis.Keys <= w.enis.Keys && w'.groups.Keys <= w.groups.Keys && w'.subnets.Keys <= w.subnets.Keys
    && (forall id :: id in w'.enis ==> Aged(w.enis[id], w'.enis[id]))
    && (forall id :: id in w'.groups ==> Shrunk(w.groups[id], w'.groups[id]))
    && (forall id :: id in w'.subnets ==> w'.subnets[id] == w.subnets[id])
  }

  ghost predicate DefaultsKept(w: World, w': World) {
    forall id :: id in w.groups && w.groups[id].name == "default" ==>
      id in w'.groups && w'.groups[id] == w.groups[id]
  }

  /** What every phase and every run keeps. */
  ghost predicate RunStep(w: World, w': World, vpc: Id) {
    Shrinks(w, w') && Later(w, w') && Foreign(w, w', vpc) && DefaultsKept(w, w')
  }

  lemma RunStepTrans(w0: World, w1: World, w2: World, vpc: Id)
    requires RunStep(w0, w1, vpc) && RunStep(w1, w2, vpc)
    ensures RunStep(w0, w2, vpc)
  {
  }

  lemma EniRunStep(svc: Service, t: Timing, w: World, vpc: Id)
    ensures RunStep(w, CleanEnis(svc, t, w, vpc).0, vpc)
  {
    hide CleanEnis;
    CleanEnisFrame(svc, t, w, vpc);
  }

  lemma GroupRunStep(svc: Service, w: World, vpc: Id)
    requires Distinct(svc.order)
    ensures RunStep(w, CleanGroups(svc, w, vpc).0, vpc)
  {
    hide CleanGroups;
    CleanGroupsFrame(svc, w, vpc);
  }

  lemma SubnetRunStep(svc: Service, w: World, vpc: Id)
    ensures RunStep(w, CleanSubnets(svc, w, vpc).0, vpc)
  {
    hide CleanSubnets;
    CleanSubnetsFrame(svc, w, vpc);
  }

  /**
   Frame, under every weather: no run lets a resource appear or a group gain a rule, and every other
   VPC and every default group (its rules included) stays exactly as it was.
   */
  lemma RunFrame(svc: Service, t: Timing, w: World, vpc: Id)
    requires Distinct(svc.order)
    ensures RunStep(w, Cleanup(svc, t, w, vpc).0, vpc)
  {
    hide CleanEnis, CleanGroups, CleanSubnets, RunStep;
    var (w1, r1) := CleanEnis(svc, t, w, vpc);
    EniRunStep(svc, t, w, vpc);
    if r1.Nil? {
      var (w2, r2) := CleanGroups(svc, w1, vpc);
      GroupRunStep(svc, w1, vpc);
      RunStepTrans(w, w1, w2, vpc);
      if r2.Nil? {
        SubnetRunStep(svc, w2, vpc);
        RunStepTrans(w, w2, CleanSubnets(svc, w2, vpc).0, vpc);
      }
    }
  }

  /** Soundness of nil, under every weather: a run that returns nil has emptied the VPC. */
  lemma NilMeansEmptied(svc: Service, t: Timing, w: World, vpc: Id)
    requires Distinct(svc.order) && Covers(svc, w)
    requires Cleanup(svc, t, w, vpc).1.Nil?
    ensures Emptied(Cleanup(svc, t, w, vpc).0, vpc)
  {
    hide CleanEnis, CleanGroups, CleanSubnets;
    var w1 := CleanEnis(svc, t, w, vpc).0;
    var w2 := CleanGroups(svc, w1, vpc).0;
    CleanEnisFrame(svc, t, w, vpc);
    CleanGroupsFrame(svc, w1, vpc);
    CleanSubnetsFrame(svc, w2, vpc);
  }

  // ----- Phase barriers -----

  function Stage(op: Op): nat {
    match op
    case ListEnis => 0
    case DetachEni => 0
    case PollEni => 0
    case RemoveEni => 0
    case ListGroups => 1
    case RevokeIngress => 2
    case RevokeEgress => 2
    case RemoveGroup => 3
    case ListSubnets => 4
    case RemoveSubnet => 5
  }

  /** The calls between the two worlds pass through the stages in order, from `lo` to `hi`. */
  ghost predicate Staged(w: World, w': World, lo: nat, hi: nat) {
    && w.log <= w'.log
    && (forall i :: |w.log| <= i < |w'.log| ==> lo <= Stage(w'.log[i].op) <= hi)
    && (forall i, j :: |w.log| <= i < j < |w'.log| ==> Stage(w'.log[i].op) <= Stage(w'.log[j].op))
  }

  lemma StagedTrans(w0: World, w1: World, w2: World, lo: nat, mid: nat, mid': nat, hi: nat)
    requires Staged(w0, w1, lo, mid) && Staged(w1, w2, mid', hi) && lo <= mid <= mid' <= hi
    ensures Staged(w0, w2, lo, hi)
  {
    assert forall i :: |w0.log| <= i < |w1.log| ==> w2.log[i] == w1.log[i];
  }

  lemma StagedUpTo(w: World, w': World, lo: nat, mid: nat, hi: nat)
    requires Staged(w, w', lo, mid) && mid <= hi
    ensures Staged(w, w', lo, hi)
  {
  }

  lemma StagedOnly(w: World, w': World, ops: set<Op>, stage: nat)
    requires w.log <= w'.log && OnlyOps(w, w', ops)
    requires forall op :: op in ops ==> Stage(op) == stage
    ensures Staged(w, w', stage, stage)
  {
  }

  lemma PassStages(svc: Service, w1: World, groups: seq<GroupView>)
    ensures var w2 := RevokeAll(svc, w1, groups).0;
      var w3 := DeleteAll(svc, w2, groups).0;
      Staged(w1, w3, 2, 3)
  {
    hide RevokeAll, DeleteAll;
    var (w2, revoking) := RevokeAll(svc, w1, groups);
    var (w3, deleting) := DeleteAll(svc, w2, groups);
    RevokeMade(svc, w1, groups);
    RevokeScriptOps(groups);
    MadeOps(w1, w2, RevokeScript(groups), revoking, {RevokeIngress, RevokeEgress});
    StagedOnly(w1, w2, {RevokeIngress, RevokeEgress}, 2);
    DeleteMade(svc, w2, groups);
    MadeOps(w2, w3, DeleteScript(groups), deleting, {RemoveGroup});
    StagedOnly(w2, w3, {RemoveGroup}, 3);
    StagedTrans(w1, w2, w3, 2, 2, 3, 3);
  }

  lemma GroupStages(svc: Service, w: World, vpc: Id)
    ensures Staged(w, CleanGroups(svc, w, vpc).0, 1, 3)
  {
    hide Staged, RevokeAll, DeleteAll, NonDefault, Fetch;
    var ids := Ids(GroupKind, w, vpc, svc.order);
    var (w1, listed) := Fetch(svc, w, ListGroups, vpc, ids, ViewGroup);
    FetchFrame(svc, w, ListGroups, vpc, ids, ViewGroup);
    StagedOnly(w, w1, {ListGroups}, 1);
    StagedUpTo(w, w1, 1, 1, 3);
    if listed.Some? {
      var groups := NonDefault(listed.value);
      PassStages(svc, w1, groups);
      StagedTrans(w, w1, DeleteAll(svc, RevokeAll(svc, w1, groups).0, groups).0, 1, 1, 2, 3);
    }
  }

  lemma SubnetStages(svc: Service, w: World, vpc: Id)
    ensures Staged(w, CleanSubnets(svc, w, vpc).0, 4, 5)
  {
    var ids := Ids(SubnetKind, w, vpc, svc.order);
    var (w1, listed) := Fetch(svc, w, ListSubnets, vpc, ids, ViewSubnet);
    ListedSubnets(svc, w, vpc);
    StagedOnly(w, w1, {ListSubnets}, 4);
    if listed.Some? {
      var (w2, failed) := DeleteSubnets(svc, w1, ids);
      SubnetsMade(svc, w1, ids);
      MadeOps(w1, w2, SubnetScript(ids), failed, {RemoveSubnet});
      StagedOnly(w1, w2, {RemoveSubnet}, 5);
      StagedTrans(w, w1, w2, 4, 4, 5, 5);
    }
  }

  /**
   Phase barriers, read off the call trace of any run: the stages (interfaces, group listing, revokes,
   group deletes, subnet listing, subnet deletes) never go back; once a group call is made, the world
   in which it is made has no interface left in the VPC; and once a subnet call is made, every
   revoke and every group delete of the run has been acknowledged.
   */
  lemma PhaseBarriers(svc: Service, t: Timing, w: World, vpc: Id) returns (afterEnis: World)
    requires Distinct(svc.order) && Covers(svc, w)
    ensures var w' := Cleanup(svc, t, w, vpc).0;
      && Staged(w, w', 0, 5)
      && afterEnis == CleanEnis(svc, t, w, vpc).0 && w.log <= afterEnis.log <= w'.log
      && (forall i :: |w.log| <= i < |w'.log| ==> (Stage(w'.log[i].op) == 0 <==> i < |afterEnis.log|))
      && (|afterEnis.log| < |w'.log| ==> NoEnis(afterEnis, vpc))
      && ((exists i :: |w.log| <= i < |w'.log| && 4 <= Stage(w'.log[i].op)) ==>
            forall i :: |w.log| <= i < |w'.log| && 1 <= Stage(w'.log[i].op) <= 3 ==> w'.log[i].reply == Ok)
  {
    hide CleanEnis, CleanGroups, CleanSubnets;
    var (w1, r1) := CleanEnis(svc, t, w, vpc);
    afterEnis := w1;
    CleanEnisFrame(svc, t, w, vpc);
    StagedOnly(w, w1, ENI_OPS, 0);
    if r1.Nil? {
      var (w2, r2) := CleanGroups(svc, w1, vpc);
      CleanGroupsFrame(svc, w1, vpc);
      GroupStages(svc, w1, vpc);
      StagedTrans(w, w1, w2, 0, 0, 1, 3);
      assert forall i :: |w.log| <= i < |w1.log| ==> w2.log[i] == w1.log[i];
      if r2.Nil? {
        var w3 := CleanSubnets(svc, w2, vpc).0;
        NilMeansOk(svc, w1, vpc);
        CleanSubnetsFrame(svc, w2, vpc);
        SubnetStages(svc, w2, vpc);
        StagedTrans(w, w2, w3, 0, 3, 4, 5);
        assert forall i :: |w.log| <= i < |w2.log| ==> w3.log[i] == w2.log[i];
      }
    }
  }

  lemma {:induction false} FetchOk<T>(svc: Service, w: World, op: Op, vpc: Id, ids: seq<Id>, view: (World, Id) -> T)
    ensures var (w', r) := Fetch(svc, w, op, vpc, ids, view);
      && w.log <= w'.log && |w.log| < |w'.log|
      && (forall i :: |w.log| <= i < |w'.log| - 1 ==> w'.log[i].reply == Ok)
      && (r.Some? <==> w'.log[|w'.log| - 1].reply == Ok)
    decreases |ids|
  {
    var n := PageLength(svc.weather(w.tick), ids);
    if svc.weather(w.tick).fate == Honoured && n < |ids| {
      FetchOk(svc, Answer(svc, w, op, vpc, Ok), op, vpc, ids[n..], view);
    }
  }

  /** A group phase that returns nil had every call acknowledged. */
  lemma NilMeansOk(svc: Service, w: World, vpc: Id)
    requires CleanGroups(svc, w, vpc).1.Nil?
    ensures var w' := CleanGroups(svc, w, vpc).0;
      w.log <= w'.log && forall i :: |w.log| <= i < |w'.log| ==> w'.log[i].reply == Ok
  {
    hide CleanGroups, Attempted, Failures, Acknowledged, Fetch;
    var ids := Ids(GroupKind, w, vpc, svc.order);
    var (w1, listed) := Fetch(svc, w, ListGroups, vpc, ids, ViewGroup);
    FetchOk(svc, w, ListGroups, vpc, ids, ViewGroup);
    GroupErrors(svc, w, vpc);
    assert forall i :: |w.log| <= i < |w1.log| ==> CleanGroups(svc, w, vpc).0.log[i] == w1.log[i];
  }
}
