/** When a run succeeds, and what a history of runs converges to. */
module VpcConvergence {
  import opened Ec2World
  import opened VpcCleanup
  import opened VpcListings
  import opened VpcEnis
  import opened VpcFair
  import opened VpcGroups
  import opened VpcSubnets
  import opened VpcRuns

  const LISTINGS := {ListEnis, ListGroups, ListSubnets}

  // ----- Idempotence -----

  lemma {:induction false} NoIds(kind: Kind, w: World, vpc: Id, order: seq<Id>)
    requires forall id :: !InVpc(kind, w, id, vpc)
    ensures Ids(kind, w, vpc, order) == []
  {
    if order != [] {
      NoIds(kind, w, vpc, order[1..]);
    }
  }

  lemma HasId(groups: seq<GroupView>)
    ensures groups == [] || exists id :: id in GroupIds(groups)
  {
    if groups != [] {
      assert groups[0].id in GroupIds(groups);
    }
  }

  lemma IdleGroups(svc: Service, w: World, vpc: Id)
    requires Distinct(svc.order) && NoTargets(w, vpc)
    ensures var w' := CleanGroups(svc, w, vpc).0;
      SameResources(w, w') && w.log <= w'.log && OnlyOps(w, w', {ListGroups})
  {
    var (w1, listed) := Fetch(svc, w, ListGroups, vpc, Ids(GroupKind, w, vpc, svc.order), ViewGroup);
    ListedGroups(svc, w, vpc);
    if listed.Some? {
      var groups := NonDefault(listed.value);
      HasId(groups);
    }
  }

  /** A run on an emptied VPC, such as any run after one that returned nil, only lists. */
  lemma IdleRun(svc: Service, t: Timing, w: World, vpc: Id)
    requires Distinct(svc.order) && Emptied(w, vpc)
    ensures var w' := Cleanup(svc, t, w, vpc).0;
      SameResources(w, w') && OnlyOps(w, w', LISTINGS)
  {
    hide CleanGroups;
    NoIds(EniKind, w, vpc, svc.order);
    FetchFrame(svc, w, ListEnis, vpc, [], ViewEni);
    var w1 := CleanEnis(svc, t, w, vpc).0;
    assert SameResources(w, w1) && OnlyOps(w, w1, LISTINGS);
    IdleGroups(svc, w1, vpc);
    var w2 := CleanGroups(svc, w1, vpc).0;
    assert OnlyOps(w, w2, LISTINGS);
    NoIds(SubnetKind, w2, vpc, svc.order);
    FetchFrame(svc, w2, ListSubnets, vpc, [], ViewSubnet);
  }

  // ----- The group and subnet phases in fair weather -----

  /** A rule the cleanup never revokes, of a default group or of another VPC, names one of its targets. */
  ghost predicate Pinned(w: World, vpc: Id) {
    exists h, g :: h in w.groups && IsTarget(w, g, vpc) && !IsTarget(w, h, vpc) && RefersTo(w.groups[h], g)
  }

  /** EC2 keeps interfaces, their groups and their subnet within one VPC. */
  ghost predicate Placed(w: World) {
    && (forall e, g :: e in w.enis && g in w.enis[e].groups && g in w.groups ==> w.groups[g].vpc == w.enis[e].vpc)
    && (forall e :: e in w.enis && w.enis[e].subnet in w.subnets ==> w.subnets[w.enis[e].subnet].vpc == w.enis[e].vpc)
  }

  lemma {:induction false} FairRevoke(svc: Service, t: Timing, slow: nat, w: World, groups: seq<GroupView>)
    requires FairFrom(svc, t, slow, w.tick)
    requires forall i :: 0 <= i < |groups| ==> groups[i].id in w.groups
    ensures RevokeAll(svc, w, groups).1 == []
    decreases |groups|
  {
    if groups != [] {
      var w1 := RevokeGroup(svc, w, groups[0]).0;
      OneFrame(svc, w, groups[0]);
      FairRevoke(svc, t, slow, w1, groups[1..]);
    }
  }

  lemma {:induction false} FairDelete(svc: Service, t: Timing, slow: nat, w: World, groups: seq<GroupView>)
    requires FairFrom(svc, t, slow, w.tick)
    requires forall i :: 0 <= i < |groups| ==>
      groups[i].id in w.groups && !Referenced(w, groups[i].id) && !Worn(w, groups[i].id)
    requires forall i, j :: 0 <= i < j < |groups| ==> groups[i].id != groups[j].id
    ensures DeleteAll(svc, w, groups).1 == []
    decreases |groups|
  {
    if groups != [] {
      var w1 := DeleteGroup(svc, w, groups[0].id).0;
      DeleteOne(svc, w, groups[0].id);
      assert forall i :: 0 <= i < |groups[1..]| ==> groups[1..][i] == groups[i + 1];
      FairDelete(svc, t, slow, w1, groups[1..]);
    }
  }

  lemma Bare(svc: Service, t: Timing, slow: nat, w1: World, groups: seq<GroupView>, k: nat)
    requires FairFrom(svc, t, slow, w1.tick)
    requires Describes(w1, groups) && k < |groups|
    ensures var w2 := RevokeAll(svc, w1, groups).0;
      groups[k].id in w2.groups && w2.groups[groups[k].id].ingress == {} && w2.groups[groups[k].id].egress == {}
  {
    RevokeExact(svc, w1, groups, k);
  }

  lemma AllBare(svc: Service, t: Timing, slow: nat, w1: World, groups: seq<GroupView>)
    requires FairFrom(svc, t, slow, w1.tick) && Describes(w1, groups)
    ensures var w2 := RevokeAll(svc, w1, groups).0;
      forall id :: id in GroupIds(groups) ==>
        id in w2.groups && w2.groups[id].ingress == {} && w2.groups[id].egress == {}
  {
    var w2 := RevokeAll(svc, w1, groups).0;
    forall id | id in GroupIds(groups)
      ensures id in w2.groups && w2.groups[id].ingress == {} && w2.groups[id].egress == {}
    {
      var g :| g in groups && g.id == id;
      var k :| 0 <= k < |groups| && groups[k] == g;
      Bare(svc, t, slow, w1, groups, k);
    }
  }

  /** Once every target's rules are gone and nothing else refers to a target, all targets are free. */
  lemma Freed(w1: World, w2: World, vpc: Id, id: Id)
    requires GroupStep(w1, w2, w1.groups.Keys)
    requires NoEnis(w1, vpc) && Placed(w1) && !Pinned(w1, vpc) && IsTarget(w1, id, vpc)
    requires forall h :: h in w2.groups && IsTarget(w1, h, vpc) ==>
      w2.groups[h].ingress == {} && w2.groups[h].egress == {}
    requires forall h :: h in w1.groups && !IsTarget(w1, h, vpc) ==> h in w2.groups && w2.groups[h] == w1.groups[h]
    ensures !Referenced(w2, id) && !Worn(w2, id)
  {
    forall h | h in w2.groups ensures !RefersTo(w2.groups[h], id) {
    }
  }

  lemma SamePlaces(svc: Service, w: World, vpc: Id, w1: World)
    requires Placed(w) && !Pinned(w, vpc)
    requires w1 == Fetch(svc, w, ListGroups, vpc, Ids(GroupKind, w, vpc, svc.order), ViewGroup).0
    ensures Placed(w1) && !Pinned(w1, vpc)
  {
    FetchFrame(svc, w, ListGroups, vpc, Ids(GroupKind, w, vpc, svc.order), ViewGroup);
    if Pinned(w1, vpc) {
      PinnedBefore(w, w1, vpc);
    }
  }

  lemma FairGroups(svc: Service, t: Timing, slow: nat, w: World, vpc: Id)
    requires FairFrom(svc, t, slow, w.tick)
    requires Distinct(svc.order) && forall id :: id in w.groups ==> id in svc.order
    requires NoEnis(w, vpc) && Placed(w) && !Pinned(w, vpc)
    ensures CleanGroups(svc, w, vpc).1.Nil?
  {
    hide RevokeAll, DeleteAll, Placed, NonDefault, Fetch, Fair;
    var ids := Ids(GroupKind, w, vpc, svc.order);
    var (w1, listed) := Fetch(svc, w, ListGroups, vpc, ids, ViewGroup);
    assert Placed(w1) && !Pinned(w1, vpc) by { SamePlaces(svc, w, vpc, w1); }
    FairFetch(svc, t, slow, w, ListGroups, vpc, ids, ViewGroup);
    ListedGroups(svc, w, vpc);
    FairPasses(svc, t, slow, w1, NonDefault(listed.value), vpc);
  }

  lemma FairPasses(svc: Service, t: Timing, slow: nat, w1: World, groups: seq<GroupView>, vpc: Id)
    requires FairFrom(svc, t, slow, w1.tick) && Describes(w1, groups)
    requires NoEnis(w1, vpc) && Placed(w1) && !Pinned(w1, vpc)
    requires forall id :: id in GroupIds(groups) <==> IsTarget(w1, id, vpc)
    ensures var (w2, revoking) := RevokeAll(svc, w1, groups);
      revoking == [] && DeleteAll(svc, w2, groups).1 == []
  {
    hide RevokeAll, DeleteAll, Pinned, Placed, Fair;
    var w2 := RevokeAll(svc, w1, groups).0;
    FairRevoke(svc, t, slow, w1, groups);
    RevokeFrame(svc, w1, groups);
    AllBare(svc, t, slow, w1, groups);
    forall k | 0 <= k < |groups|
      ensures groups[k].id in w2.groups && !Referenced(w2, groups[k].id) && !Worn(w2, groups[k].id)
    {
      assert groups[k] in groups && groups[k].id in GroupIds(groups);
      Freed(w1, w2, vpc, groups[k].id);
    }
    FairDelete(svc, t, slow, w2, groups);
  }

  lemma {:induction false} FairDeleteSubnets(svc: Service, t: Timing, slow: nat, w: World, subnets: seq<Id>)
    requires FairFrom(svc, t, slow, w.tick)
    requires Distinct(subnets)
    requires forall id :: id in subnets ==> id in w.subnets && !Occupied(w, id)
    ensures DeleteSubnets(svc, w, subnets).1 == []
    decreases |subnets|
  {
    if subnets != [] {
      assert subnets[0] in subnets;
      var w1 := DeleteSubnet(svc, w, subnets[0]).0;
      assert forall id :: id in subnets[1..] ==> id in subnets && id != subnets[0];
      FairDeleteSubnets(svc, t, slow, w1, subnets[1..]);
    }
  }

  lemma FairSubnets(svc: Service, t: Timing, slow: nat, w: World, vpc: Id)
    requires FairFrom(svc, t, slow, w.tick)
    requires Distinct(svc.order) && NoEnis(w, vpc) && Placed(w)
    ensures CleanSubnets(svc, w, vpc).1.Nil?
  {
    var ids := Ids(SubnetKind, w, vpc, svc.order);
    var w1 := Fetch(svc, w, ListSubnets, vpc, ids, ViewSubnet).0;
    FairFetch(svc, t, slow, w, ListSubnets, vpc, ids, ViewSubnet);
    ListedSubnets(svc, w, vpc);
    IdsDistinct(SubnetKind, w, vpc, svc.order);
    FairDeleteSubnets(svc, t, slow, w1, ids);
  }

  // ----- Fault-free runs -----

  /** What a fault-free run needs from the account: all of it is kept by every run. */
  ghost predicate Clearable(svc: Service, w: World, vpc: Id) {
    && Distinct(svc.order) && Covers(svc, w) && Placed(w)
    && Detachable(w, vpc) && !Pinned(w, vpc)
  }

  /** A pin can only be removed, never added. */
  lemma PinnedBefore(w: World, w1: World, vpc: Id)
    requires Pinned(w1, vpc)
    requires forall id :: id in w1.groups ==> id in w.groups && Shrunk(w.groups[id], w1.groups[id])
    ensures Pinned(w, vpc)
  {
    var h, g :| h in w1.groups && IsTarget(w1, g, vpc) && !IsTarget(w1, h, vpc) && RefersTo(w1.groups[h], g);
    assert IsTarget(w, g, vpc) && !IsTarget(w, h, vpc) && RefersTo(w.groups[h], g);
  }

  lemma EniPhaseKeeps(svc: Service, t: Timing, w: World, vpc: Id)
    requires Placed(w) && Covers(svc, w)
    ensures var w1 := CleanEnis(svc, t, w, vpc).0;
      && w1.groups == w.groups && w.tick <= w1.tick
      && Placed(w1) && Covers(svc, w1)
      && (Pinned(w1, vpc) ==> Pinned(w, vpc))
  {
    hide CleanEnis, Pinned;
    CleanEnisFrame(svc, t, w, vpc);
    var w1 := CleanEnis(svc, t, w, vpc).0;
    if Pinned(w1, vpc) {
      PinnedBefore(w, w1, vpc);
    }
  }

  lemma GroupPhaseKeeps(svc: Service, w: World, vpc: Id)
    requires Placed(w) && Distinct(svc.order)
    ensures var w1 := CleanGroups(svc, w, vpc).0;
      && w1.enis == w.enis && w.tick <= w1.tick && Placed(w1)
  {
    hide CleanGroups;
    CleanGroupsFrame(svc, w, vpc);
  }

  /**
   Completeness: a fault-free run on a clearable VPC empties it, whatever the reference graph of its
   groups, cycles included, exactly when no left-over detachment makes an interface late; a run that
   this stops leaves strictly fewer detachments in flight.
   */
  lemma FairRun(svc: Service, t: Timing, slow: nat, w: World, vpc: Id)
    requires FairFrom(svc, t, slow, w.tick)
    requires Clearable(svc, w, vpc)
    ensures var (w', r) := Cleanup(svc, t, w, vpc);
      && (r.Nil? <==> AllOnTime(svc, t, w, vpc))
      && (r.Nil? ==> Emptied(w', vpc))
      && (r.Err? ==> MidDetach(w', vpc) < MidDetach(w, vpc))
  {
    hide CleanEnis, CleanGroups, CleanSubnets, Pinned, AllOnTime, MidDetach, Emptied;
    var (w1, r1) := CleanEnis(svc, t, w, vpc);
    FairEnis(svc, t, slow, w, vpc);
    EniPhaseKeeps(svc, t, w, vpc);
    if r1.Nil? {
      CleanEnisFrame(svc, t, w, vpc);
      var w2 := CleanGroups(svc, w1, vpc).0;
      FairGroups(svc, t, slow, w1, vpc);
      GroupPhaseKeeps(svc, w1, vpc);
      FairSubnets(svc, t, slow, w2, vpc);
      NilMeansEmptied(svc, t, w, vpc);
    }
  }

  /** The default group's and other VPCs' rules are never revoked, so what they name is never deleted. */
  lemma PinHolds(svc: Service, w: World, vpc: Id)
    requires Distinct(svc.order) && (forall id :: id in w.groups ==> id in svc.order) && Pinned(w, vpc)
    ensures !NoTargets(CleanGroups(svc, w, vpc).0, vpc)
  {
    var h, g :| h in w.groups && IsTarget(w, g, vpc) && !IsTarget(w, h, vpc) && RefersTo(w.groups[h], g);
    var (w1, listed) := Fetch(svc, w, ListGroups, vpc, Ids(GroupKind, w, vpc, svc.order), ViewGroup);
    ListedGroups(svc, w, vpc);
    if listed.Some? {
      var groups := NonDefault(listed.value);
      PinHoldsIn(svc, w1, groups, h, g);
      CleanGroupsFrame(svc, w, vpc);
    }
    assert g in CleanGroups(svc, w, vpc).0.groups;
    CleanGroupsFrame(svc, w, vpc);
  }

  lemma PinHoldsIn(svc: Service, w: World, groups: seq<GroupView>, h: Id, g: Id)
    requires Describes(w, groups)
    requires h in w.groups && h !in GroupIds(groups)
    requires g in w.groups && g != h && RefersTo(w.groups[h], g)
    ensures g in DeleteAll(svc, RevokeAll(svc, w, groups).0, groups).0.groups
  {
    hide RevokeAll, DeleteAll;
    var w2 := RevokeAll(svc, w, groups).0;
    RevokeFrame(svc, w, groups);
    DeleteFrame(svc, w2, groups);
    if g in GroupIds(groups) {
      var v :| v in groups && v.id == g;
      var k :| 0 <= k < |groups| && groups[k] == v;
      DeleteExact(svc, w2, groups, k);
    }
  }

  /**
   The exact condition for every account: a fault-free run returns nil iff no rule outside its remit
   names a target, no attachment lacks an id, and no left-over detachment makes an interface late.
   */
  lemma FairRunExact(svc: Service, t: Timing, slow: nat, w: World, vpc: Id)
    requires FairFrom(svc, t, slow, w.tick)
    requires Distinct(svc.order) && Covers(svc, w) && Placed(w)
    ensures Cleanup(svc, t, w, vpc).1.Nil? <==>
            Detachable(w, vpc) && !Pinned(w, vpc) && AllOnTime(svc, t, w, vpc)
  {
    hide Cleanup, Pinned, AllOnTime, FairFrom;
    if Detachable(w, vpc) && !Pinned(w, vpc) {
      FairRun(svc, t, slow, w, vpc);
    } else {
      NeverNil(svc, t, w, vpc);
    }
  }

  /** With nothing mid-detach at the start, the last condition holds by itself. */
  lemma QuietRunExact(svc: Service, t: Timing, slow: nat, w: World, vpc: Id)
    requires FairFrom(svc, t, slow, w.tick)
    requires Distinct(svc.order) && Covers(svc, w) && Placed(w) && Quiet(w, vpc)
    ensures Cleanup(svc, t, w, vpc).1.Nil? <==> Detachable(w, vpc) && !Pinned(w, vpc)
  {
    hide Cleanup, Pinned, AllOnTime, FairFrom;
    FairRunExact(svc, t, slow, w, vpc);
    if Detachable(w, vpc) {
      QuietIsOrderly(svc, w, vpc);
      OrderlyOnTime(svc, t, slow, w, vpc);
    }
  }

  lemma PinnedAfter(w: World, w1: World, vpc: Id)
    requires Pinned(w, vpc) && w1.groups == w.groups
    ensures Pinned(w1, vpc)
  {
    var h, g :| h in w.groups && IsTarget(w, g, vpc) && !IsTarget(w, h, vpc) && RefersTo(w.groups[h], g);
    assert IsTarget(w1, g, vpc) && !IsTarget(w1, h, vpc) && RefersTo(w1.groups[h], g);
  }

  /** Under every weather, a pin or an attachment without an id keeps the run from returning nil. */
  lemma NeverNil(svc: Service, t: Timing, w: World, vpc: Id)
    requires Distinct(svc.order) && Covers(svc, w)
    requires Pinned(w, vpc) || !Detachable(w, vpc)
    ensures Cleanup(svc, t, w, vpc).1.Err?
  {
    hide CleanEnis, CleanGroups, CleanSubnets, Pinned;
    var (w1, r1) := CleanEnis(svc, t, w, vpc);
    CleanEnisFrame(svc, t, w, vpc);
    if r1.Nil? && Pinned(w, vpc) {
      PinnedAfter(w, w1, vpc);
      PinHolds(svc, w1, vpc);
      CleanGroupsFrame(svc, w1, vpc);
    }
  }
}
