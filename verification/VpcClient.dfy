/**
 The cleanup in the form the source has: loops over a client whose calls change the account.
 Each method is proved to do what its function in VpcCleanup says.
 */
module VpcClient {
  import opened Prelude
  import opened Ec2World
  import opened VpcCleanup
  import opened VpcListings
  import opened VpcEnis
  import opened VpcGroups
  import opened VpcSubnets
  import opened VpcRuns
  import opened VpcTrace

  /** The EC2 client: every call is one tick of the account behind it. */
  class Ec2VpcClient {
    const svc: Service
    var world: World

    constructor (svc: Service, world: World)
      ensures this.svc == svc && this.world == world
    {
      this.svc := svc;
      this.world := world;
    }

    /** One page of a listing (None when the call failed), and the ids left for later pages. */
    method NextPage<T>(op: Op, vpc: Id, ids: seq<Id>, view: (World, Id) -> T)
      returns (page: Option<seq<T>>, rest: seq<Id>)
      modifies this
      ensures var whole := Fetch(svc, old(world), op, vpc, ids, view);
        if page.None? then whole == (world, None)
        else if rest == [] then whole == (world, page)
        else |rest| < |ids| && Resumes(whole, page.value, Fetch(svc, world, op, vpc, rest, view))
    {
      var before := world;
      var sky := svc.weather(before.tick);
      if sky.fate != Honoured {
        world := Answer(svc, before, op, vpc, Failed);
        return None, ids;
      }
      var n := PageLength(sky, ids);
      page := Some(seq(n, i requires 0 <= i < n => view(before, ids[i])));
      world := Answer(svc, before, op, vpc, Ok);
      rest := ids[n..];
    }

    method DetachNetworkInterface(id: Id) returns (reply: Reply)
      modifies this
      ensures (world, reply) == Detach(svc, old(world), id)
    {
      var (w, r) := Detach(svc, world, id);
      world, reply := w, r;
    }

    method DescribeNetworkInterface(id: Id) returns (sighting: Sighting)
      modifies this
      ensures (world, sighting) == Poll(svc, old(world), id)
    {
      var (w, s) := Poll(svc, world, id);
      world, sighting := w, s;
    }

    method DeleteNetworkInterface(id: Id) returns (reply: Reply)
      modifies this
      ensures (world, reply) == DeleteEni(svc, old(world), id)
    {
      var (w, r) := DeleteEni(svc, world, id);
      world, reply := w, r;
    }

    method RevokeSecurityGroup(op: Op, id: Id, rules: set<Rule>) returns (reply: Reply)
      modifies this
      ensures (world, reply) == Revoke(svc, old(world), op, id, rules)
    {
      var (w, r) := Revoke(svc, world, op, id, rules);
      world, reply := w, r;
    }

    method DeleteSecurityGroup(id: Id) returns (reply: Reply)
      modifies this
      ensures (world, reply) == DeleteGroup(svc, old(world), id)
    {
      var (w, r) := DeleteGroup(svc, world, id);
      world, reply := w, r;
    }

    method DeleteVpcSubnet(id: Id) returns (reply: Reply)
      modifies this
      ensures (world, reply) == DeleteSubnet(svc, old(world), id)
    {
      var (w, r) := DeleteSubnet(svc, world, id);
      world, reply := w, r;
    }

    /** time.After in a select with ctx.Done(): either the context fires or the time passes. */
    method Sleep(time: nat) returns (cancelled: bool)
      modifies this
      ensures cancelled == Interrupted(svc, old(world))
      ensures world == if cancelled then old(world) else Pause(old(world), time)
    {
      cancelled := Interrupted(svc, world);
      if !cancelled {
        world := Pause(world, time);
      }
    }
  }

  method CleanupVPCResources(client: Ec2VpcClient, t: Timing, vpc: Id) returns (r: Outcome)
    modifies client
    ensures (client.world, r) == Cleanup(client.svc, t, old(client.world), vpc)
    ensures Distinct(client.svc.order) ==> RunStep(old(client.world), client.world, vpc)
    ensures Distinct(client.svc.order) && Covers(client.svc, old(client.world)) && r.Nil? ==>
              Emptied(client.world, vpc)
    ensures RunReport(t, old(client.world), client.world, r,
                      Ids(EniKind, old(client.world), vpc, client.svc.order))
  {
    ghost var start := client.world;
    RunErrors(client.svc, t, start, vpc);
    if Distinct(client.svc.order) {
      RunFrame(client.svc, t, start, vpc);
      if Covers(client.svc, start) && Cleanup(client.svc, t, start, vpc).1.Nil? {
        NilMeansEmptied(client.svc, t, start, vpc);
      }
    }
    r := CleanupENIs(client, t, vpc);
    if r.Err? { return; }
    r := CleanupSecurityGroups(client, vpc);
    if r.Err? { return; }
    r := CleanupSubnets(client, vpc);
  }

  method CleanupENIs(client: Ec2VpcClient, t: Timing, vpc: Id) returns (r: Outcome)
    modifies client
    ensures (client.world, r) == CleanEnis(client.svc, t, old(client.world), vpc)
    ensures EniPhase(client.svc, t, old(client.world), client.world, r, vpc)
  {
    EniTrace(client.svc, t, client.world, vpc);
    var svc := client.svc;
    var listed := ListAll(client, ListEnis, vpc, Ids(EniKind, client.world, vpc, svc.order), ViewEni);
    if listed.None? { return Err(ListingFailed(ListEnis)); }
    var enis := listed.value;
    if |enis| == 0 { return Nil; }

    r := DrainENIs(client, t, enis);
  }

  method DrainENIs(client: Ec2VpcClient, t: Timing, enis: seq<EniView>) returns (r: Outcome)
    modifies client
    ensures (client.world, r) == Drain(client.svc, t, old(client.world), enis)
  {
    hide ClearEni;
    ghost var drained := Drain(client.svc, t, client.world, enis);
    for i := 0 to |enis|
      invariant drained == Drain(client.svc, t, client.world, enis[i..])
    {
      assert enis[i..][1..] == enis[i + 1..];
      r := DetachAndDelete(client, t, enis[i]);
      if r.Err? { return; }
    }
    r := Nil;
  }

  method DetachAndDelete(client: Ec2VpcClient, t: Timing, eni: EniView) returns (r: Outcome)
    modifies client
    ensures (client.world, r) == ClearEni(client.svc, t, old(client.world), eni)
  {
    if eni.attached {
      var reply := client.DetachNetworkInterface(eni.id);
      if reply != Ok { return Err(DetachFailed(eni.id)); }
      r := WaitForENIAvailable(client, t, eni.id);
      if r.Err? { return; }
    }
    var _, gone := DeleteENIWithRetry(client, t, eni.id);
    r := gone;
  }

  method WaitForENIAvailable(client: Ec2VpcClient, t: Timing, id: Id) returns (r: Outcome)
    modifies client
    ensures (client.world, r) == Await(client.svc, t, old(client.world), id, old(client.world).clock + t.timeout)
  {
    var deadline := client.world.clock + t.timeout;
    ghost var awaited := Await(client.svc, t, client.world, id, deadline);
    while true
      invariant awaited == Await(client.svc, t, client.world, id, deadline)
      decreases deadline + 1 - client.world.clock
    {
      if deadline < client.world.clock { return Err(WaitFailed(id, TimedOut)); }
      var sighting := client.DescribeNetworkInterface(id);
      if sighting == Unanswered { return Err(WaitFailed(id, Broken)); }
      if sighting == UnknownId || sighting == NotListed || sighting == Ready { return Nil; }
      var cancelled := client.Sleep(t.interval);
      if cancelled { return Err(WaitFailed(id, Cancelled)); }
    }
  }

  method DeleteENIWithRetry(client: Ec2VpcClient, t: Timing, id: Id) returns (alreadyGone: bool, r: Outcome)
    modifies client
    ensures (client.world, r) == Expunge(client.svc, t, old(client.world), id, 0)
    ensures alreadyGone ==> r.Nil?
    ensures r.Nil? ==> 0 < |client.world.log| &&
                       alreadyGone == (client.world.log[|client.world.log| - 1].reply == NotFound)
  {
    ghost var expunged := Expunge(client.svc, t, client.world, id, 0);
    for attempt := 0 to t.retries
      invariant expunged == Expunge(client.svc, t, client.world, id, attempt)
    {
      var reply := client.DeleteNetworkInterface(id);
      if reply == Ok { return false, Nil; }
      if reply == NotFound { return true, Nil; }
      if attempt + 1 < t.retries {
        var cancelled := client.Sleep(t.delay);
        if cancelled { return false, Err(DeleteFailed(id, Cancelled)); }
      }
    }
    return false, Err(DeleteFailed(id, Exhausted));
  }

  method CleanupSecurityGroups(client: Ec2VpcClient, vpc: Id) returns (r: Outcome)
    modifies client
    ensures (client.world, r) == CleanGroups(client.svc, old(client.world), vpc)
    ensures
      var (w1, listed) := Fetch(client.svc, old(client.world), ListGroups, vpc,
                                Ids(GroupKind, old(client.world), vpc, client.svc.order), ViewGroup);
      if listed.None? then client.world == w1 && r == Err(ListingFailed(ListGroups))
      else GroupPhase(w1, client.world, r, NonDefault(listed.value))
  {
    GroupErrors(client.svc, client.world, vpc);
    var svc := client.svc;
    var listed := ListNonDefaultGroups(client, vpc);
    if listed.None? { return Err(ListingFailed(ListGroups)); }
    var sgs := listed.value;
    if sgs == [] { return Nil; }

    var revokeErrors := RevokeRules(client, sgs);
    var deleteErrors := DeleteGroups(client, sgs);
    var allErrors := revokeErrors + deleteErrors;
    if 0 < |allErrors| { return Err(CallsFailed(allErrors)); }
    r := Nil;
  }

  method CleanupSubnets(client: Ec2VpcClient, vpc: Id) returns (r: Outcome)
    modifies client
    ensures (client.world, r) == CleanSubnets(client.svc, old(client.world), vpc)
    ensures
      var ids := Ids(SubnetKind, old(client.world), vpc, client.svc.order);
      var (w1, listed) := Fetch(client.svc, old(client.world), ListSubnets, vpc, ids, ViewSubnet);
      if listed.None? then client.world == w1 && r == Err(ListingFailed(ListSubnets))
      else SubnetPhase(w1, client.world, r, ids)
  {
    SubnetErrors(client.svc, client.world, vpc);
    var svc := client.svc;
    var listed := ListAll(client, ListSubnets, vpc, Ids(SubnetKind, client.world, vpc, svc.order), ViewSubnet);
    if listed.None? { return Err(ListingFailed(ListSubnets)); }
    var subnets := listed.value;
    if subnets == [] { return Nil; }

    var deleteErrors := DeleteAllSubnets(client, subnets);
    if 0 < |deleteErrors| { return Err(CallsFailed(deleteErrors)); }
    r := Nil;
  }

  /** The paginator loop of the interface and subnet listings: append every page, stop at an error. */
  method ListAll<T>(client: Ec2VpcClient, op: Op, vpc: Id, ids: seq<Id>, view: (World, Id) -> T)
    returns (all: Option<seq<T>>)
    modifies client
    ensures (client.world, all) == Fetch(client.svc, old(client.world), op, vpc, ids, view)
  {
    var svc, rest := client.svc, ids;
    ghost var fetched := Fetch(svc, client.world, op, vpc, ids, view);
    var entries: seq<T>, hasMorePages := [], true;
    while hasMorePages
      invariant hasMorePages ==> Resumes(fetched, entries, Fetch(svc, client.world, op, vpc, rest, view))
      invariant !hasMorePages ==> fetched == (client.world, Some(entries))
      decreases hasMorePages, |rest|
    {
      ghost var mid := Fetch(svc, client.world, op, vpc, rest, view);
      var page;
      page, rest := client.NextPage(op, vpc, rest, view);
      if page.None? { return None; }
      if rest != [] {
        ResumesStep(fetched, entries, mid, page.value, Fetch(svc, client.world, op, vpc, rest, view));
      }
      entries := entries + page.value;
      hasMorePages := rest != [];
    }
    all := Some(entries);
  }

  /** The security-group listing drops "default" page by page; that equals dropping it from the whole. */
  method ListNonDefaultGroups(client: Ec2VpcClient, vpc: Id) returns (all: Option<seq<GroupView>>)
    modifies client
    ensures
      var (w, listed) := Fetch(client.svc, old(client.world), ListGroups, vpc,
                               Ids(GroupKind, old(client.world), vpc, client.svc.order), ViewGroup);
      client.world == w && all == if listed.None? then None else Some(NonDefault(listed.value))
  {
    var svc := client.svc;
    var rest := Ids(GroupKind, client.world, vpc, svc.order);
    ghost var fetched := Fetch(svc, client.world, ListGroups, vpc, rest, ViewGroup);
    ghost var listed: seq<GroupView> := [];
    var sgs: seq<GroupView>, hasMorePages := [], true;
    while hasMorePages
      invariant sgs == NonDefault(listed)
      invariant hasMorePages ==> Resumes(fetched, listed, Fetch(svc, client.world, ListGroups, vpc, rest, ViewGroup))
      invariant !hasMorePages ==> fetched == (client.world, Some(listed))
      decreases hasMorePages, |rest|
    {
      ghost var mid := Fetch(svc, client.world, ListGroups, vpc, rest, ViewGroup);
      var page;
      page, rest := client.NextPage(ListGroups, vpc, rest, ViewGroup);
      if page.None? { return None; }
      if rest != [] {
        ResumesStep(fetched, listed, mid, page.value, Fetch(svc, client.world, ListGroups, vpc, rest, ViewGroup));
      }
      var kept := KeepNonDefault(page.value);
      NonDefaultConcat(listed, page.value);
      sgs := sgs + kept;
      listed := listed + page.value;
      hasMorePages := rest != [];
    }
    all := Some(sgs);
  }

  method KeepNonDefault(page: seq<GroupView>) returns (kept: seq<GroupView>)
    ensures kept == NonDefault(page)
  {
    kept := [];
    for i := 0 to |page|
      invariant kept == NonDefault(page[..i])
    {
      NonDefaultConcat(page[..i], [page[i]]);
      assert page[..i + 1] == page[..i] + [page[i]];
      if page[i].name != DEFAULT_GROUP {
        kept := kept + [page[i]];
      }
    }
    assert page[..|page|] == page;
  }

  method RevokeRules(client: Ec2VpcClient, sgs: seq<GroupView>) returns (revokeErrors: seq<Call>)
    modifies client
    ensures (client.world, revokeErrors) == RevokeAll(client.svc, old(client.world), sgs)
  {
    var svc := client.svc;
    ghost var revoked := RevokeAll(svc, client.world, sgs);
    revokeErrors := [];
    for i := 0 to |sgs|
      invariant Accrues(revoked, revokeErrors, RevokeAll(svc, client.world, sgs[i..]))
    {
      assert sgs[i..][1..] == sgs[i + 1..];
      var errors := RevokeOne(client, sgs[i]);
      AccruesStep(revoked, revokeErrors, errors, RevokeAll(svc, client.world, sgs[i + 1..]));
      revokeErrors := revokeErrors + errors;
    }
    assert revoked.1 == revokeErrors;
  }

  method RevokeOne(client: Ec2VpcClient, sg: GroupView) returns (errors: seq<Call>)
    modifies client
    ensures (client.world, errors) == RevokeGroup(client.svc, old(client.world), sg)
  {
    errors := [];
    if sg.ingress != {} {
      var reply := client.RevokeSecurityGroup(RevokeIngress, sg.id, sg.ingress);
      if reply != Ok { errors := errors + [Call(RevokeIngress, sg.id)]; }
    }
    if sg.egress != {} {
      var reply := client.RevokeSecurityGroup(RevokeEgress, sg.id, sg.egress);
      if reply != Ok { errors := errors + [Call(RevokeEgress, sg.id)]; }
    }
    assert errors == RevokeGroup(client.svc, old(client.world), sg).1;
  }

  method DeleteGroups(client: Ec2VpcClient, sgs: seq<GroupView>) returns (deleteErrors: seq<Call>)
    modifies client
    ensures (client.world, deleteErrors) == DeleteAll(client.svc, old(client.world), sgs)
  {
    var svc := client.svc;
    ghost var deleted := DeleteAll(svc, client.world, sgs);
    deleteErrors := [];
    for i := 0 to |sgs|
      invariant Accrues(deleted, deleteErrors, DeleteAll(svc, client.world, sgs[i..]))
    {
      assert sgs[i..][1..] == sgs[i + 1..];
      var reply := client.DeleteSecurityGroup(sgs[i].id);
      var errors := Complaint(RemoveGroup, sgs[i].id, reply);
      AccruesStep(deleted, deleteErrors, errors, DeleteAll(svc, client.world, sgs[i + 1..]));
      deleteErrors := deleteErrors + errors;
    }
    assert deleted.1 == deleteErrors;
  }

  method DeleteAllSubnets(client: Ec2VpcClient, subnets: seq<Id>) returns (deleteErrors: seq<Call>)
    modifies client
    ensures (client.world, deleteErrors) == DeleteSubnets(client.svc, old(client.world), subnets)
  {
    var svc := client.svc;
    ghost var deleted := DeleteSubnets(svc, client.world, subnets);
    deleteErrors := [];
    for i := 0 to |subnets|
      invariant Accrues(deleted, deleteErrors, DeleteSubnets(svc, client.world, subnets[i..]))
    {
      assert subnets[i..][1..] == subnets[i + 1..];
      var reply := client.DeleteVpcSubnet(subnets[i]);
      var errors := Complaint(RemoveSubnet, subnets[i], reply);
      AccruesStep(deleted, deleteErrors, errors, DeleteSubnets(svc, client.world, subnets[i + 1..]));
      deleteErrors := deleteErrors + errors;
    }
    assert deleted.1 == deleteErrors;
  }
}
