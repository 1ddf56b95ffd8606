/** What the subnet phase achieves, under every weather. */
module VpcSubnets {
  import opened Ec2World
  import opened VpcCleanup
  import opened VpcListings
  import opened VpcGroups

  const SUBNET_OPS := {ListSubnets, RemoveSubnet}

  ghost predicate SubnetStep(w: World, w': World, touched: seq<Id>) {
    && w'.enis == w.enis && w'.groups == w.groups
    && Later(w, w') && OnlyOps(w, w', SUBNET_OPS)
    && (forall id :: id in w'.subnets ==> id in w.subnets && w'.subnets[id] == w.subnets[id])
    && (forall id :: id in w.subnets && id !in touched ==> id in w'.subnets)
  }

  ghost predicate NoSubnets(w: World, vpc: Id) {
    forall id :: id in w.subnets ==> w.subnets[id].vpc != vpc
  }

  function SubnetScript(subnets: seq<Id>): seq<Call> {
    seq(|subnets|, i requires 0 <= i < |subnets| => Call(RemoveSubnet, subnets[i]))
  }

  lemma {:induction false} SubnetsMade(svc: Service, w: World, subnets: seq<Id>)
    ensures var (w', failed) := DeleteSubnets(svc, w, subnets); Made(w, w', SubnetScript(subnets), failed)
    decreases |subnets|
  {
    if subnets != [] {
      var id := subnets[0];
      var (w1, reply) := DeleteSubnet(svc, w, id);
      var (w2, failed) := DeleteSubnets(svc, w1, subnets[1..]);
      MadeOne(w, w1, RemoveSubnet, id, reply);
      SubnetsMade(svc, w1, subnets[1..]);
      MadeTrans(w, w1, w2, [Call(RemoveSubnet, id)], Complaint(RemoveSubnet, id, reply),
                SubnetScript(subnets[1..]), failed);
      assert SubnetScript(subnets) == [Call(RemoveSubnet, id)] + SubnetScript(subnets[1..]);
    }
  }

  /** Every subnet that is not reported is gone: those deleted and those reported make up the list. */
  lemma {:induction false} SubnetsFrame(svc: Service, w: World, subnets: seq<Id>)
    ensures var (w', failed) := DeleteSubnets(svc, w, subnets);
      && SubnetStep(w, w', subnets)
      && (forall id :: id in subnets ==> id !in w'.subnets || Call(RemoveSubnet, id) in failed)
      && (forall c :: c in failed ==> c.op == RemoveSubnet && c.id in subnets)
      && |failed| <= |subnets|
    decreases |subnets|
  {
    if subnets != [] {
      var w1 := DeleteSubnet(svc, w, subnets[0]).0;
      SubnetsFrame(svc, w1, subnets[1..]);
    }
  }

  lemma ListedSubnets(svc: Service, w: World, vpc: Id)
    ensures var ids := Ids(SubnetKind, w, vpc, svc.order);
      var (w1, listed) := Fetch(svc, w, ListSubnets, vpc, ids, ViewSubnet);
      && SubnetStep(w, w1, []) && SameResources(w, w1) && OnlyOps(w, w1, {ListSubnets}) && w.tick < w1.tick
      && (listed.Some? ==> listed.value == ids)
      && (forall id :: id in ids <==> id in svc.order && InVpc(SubnetKind, w, id, vpc))
  {
    var ids := Ids(SubnetKind, w, vpc, svc.order);
    IdsMembers(SubnetKind, w, vpc, svc.order);
    FetchFrame(svc, w, ListSubnets, vpc, ids, ViewSubnet);
    FetchSubnets(svc, w, vpc, ids);
  }

  lemma CleanSubnetsFrame(svc: Service, w: World, vpc: Id)
    ensures var (w', r) := CleanSubnets(svc, w, vpc);
      && SubnetStep(w, w', Ids(SubnetKind, w, vpc, svc.order))
      && (forall id :: id in w.subnets && w.subnets[id].vpc != vpc ==> id in w'.subnets)
      && (r.Nil? && (forall id :: id in w.subnets ==> id in svc.order) ==> NoSubnets(w', vpc))
  {
    var ids := Ids(SubnetKind, w, vpc, svc.order);
    var (w1, listed) := Fetch(svc, w, ListSubnets, vpc, ids, ViewSubnet);
    ListedSubnets(svc, w, vpc);
    if listed.Some? {
      SubnetsFrame(svc, w1, ids);
    }
  }

  /** The calls of the phase and its report, from the world after the listing on. */
  ghost predicate SubnetPhase(w1: World, w': World, r: Outcome, ids: seq<Id>) {
    && Attempted(w1, w', SubnetScript(ids))
    && Tells(w1, w', r, {RemoveSubnet})
    && (forall id :: id in ids && id in w'.subnets ==> r.Err? && Call(RemoveSubnet, id) in r.error.calls)
  }

  /**
   Error conservation: every listed subnet's delete is attempted once, those not acknowledged are
   reported, and a subnet that is still there is among them.
   */
  lemma SubnetErrors(svc: Service, w: World, vpc: Id)
    ensures var ids := Ids(SubnetKind, w, vpc, svc.order);
      var (w1, listed) := Fetch(svc, w, ListSubnets, vpc, ids, ViewSubnet);
      var (w', r) := CleanSubnets(svc, w, vpc);
      if listed.None? then w' == w1 && r == Err(ListingFailed(ListSubnets))
      else SubnetPhase(w1, w', r, ids)
  {
    var ids := Ids(SubnetKind, w, vpc, svc.order);
    var (w1, listed) := Fetch(svc, w, ListSubnets, vpc, ids, ViewSubnet);
    ListedSubnets(svc, w, vpc);
    if listed.Some? {
      var (w2, deleting) := DeleteSubnets(svc, w1, ids);
      SubnetsMade(svc, w1, ids);
      SubnetsFrame(svc, w1, ids);
      VerdictTells(w1, w2, SubnetScript(ids), deleting, {RemoveSubnet});
    }
  }
}
