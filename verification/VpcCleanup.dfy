/**
 The VPC cascade cleanup (pkg/framework/vpc_cleanup.go) as functions from one world to the next.
 The methods of VpcClient are proved to compute these; the lemmas of the other Vpc modules say what
 they achieve.
 */
module VpcCleanup {
  import opened Ec2World

  /** The package-level timing variables, in milliseconds.  Polling must let time pass. */
  datatype Timers = Timers(timeout: nat, interval: nat, retries: nat, delay: nat)
  type Timing = t: Timers | 0 < t.interval witness Timers(120000, 5000, 5, 3000)

  const DEFAULTS: Timing := Timers(120000, 5000, 5, 3000)

  const DEFAULT_GROUP := "default"

  datatype Why = TimedOut | Cancelled | Broken | Exhausted

  /** A call and the resource it names, which is what a collected error string tells. */
  datatype Call = Call(op: Op, id: Id)

  datatype Error =
    | ListingFailed(op: Op)
    | DetachFailed(id: Id)
    | WaitFailed(id: Id, why: Why)
    | DeleteFailed(id: Id, why: Why)
    | CallsFailed(calls: seq<Call>)

  datatype Outcome = Nil | Err(error: Error)

  // ----- Network interfaces: detach, wait, delete, and stop at the first failure -----

  datatype EniView = EniView(id: Id, attached: bool)

  function ViewEni(w: World, id: Id): EniView {
    EniView(id, id in w.enis && ShowsAttachment(w.enis[id], w.clock))
  }

  function CleanEnis(svc: Service, t: Timing, w: World, vpc: Id): (World, Outcome) {
    var (w1, listed) := Fetch(svc, w, ListEnis, vpc, Ids(EniKind, w, vpc, svc.order), ViewEni);
    if listed.None? then (w1, Err(ListingFailed(ListEnis))) else Drain(svc, t, w1, listed.value)
  }

  function Drain(svc: Service, t: Timing, w: World, enis: seq<EniView>): (World, Outcome)
    decreases |enis|
  {
    if enis == [] then (w, Nil)
    else
      var (w1, r) := ClearEni(svc, t, w, enis[0]);
      if r.Err? then (w1, r) else Drain(svc, t, w1, enis[1..])
  }

  function ClearEni(svc: Service, t: Timing, w: World, eni: EniView): (World, Outcome) {
    if eni.attached then
      var (w1, reply) := Detach(svc, w, eni.id);
      if reply != Ok then (w1, Err(DetachFailed(eni.id)))
      else
        var (w2, r) := Await(svc, t, w1, eni.id, w1.clock + t.timeout);
        if r.Err? then (w2, r) else Expunge(svc, t, w2, eni.id, 0)
    else Expunge(svc, t, w, eni.id, 0)
  }

  /** waitForENIAvailable */
  function Await(svc: Service, t: Timing, w: World, id: Id, deadline: nat): (World, Outcome)
    decreases deadline + 1 - w.clock
  {
    if deadline < w.clock then (w, Err(WaitFailed(id, TimedOut)))
    else
      var (w1, s) := Poll(svc, w, id);
      match s
      case Unanswered => (w1, Err(WaitFailed(id, Broken)))
      case UnknownId => (w1, Nil)
      case NotListed => (w1, Nil)
      case Ready => (w1, Nil)
      case Busy =>
        if Interrupted(svc, w1) then (w1, Err(WaitFailed(id, Cancelled)))
        else Await(svc, t, Pause(w1, t.interval), id, deadline)
  }

  /** deleteENIWithRetry, from the given attempt on; "already gone" is success. */
  function Expunge(svc: Service, t: Timing, w: World, id: Id, attempt: nat): (World, Outcome)
    decreases t.retries - attempt
  {
    if t.retries <= attempt then (w, Err(DeleteFailed(id, Exhausted)))
    else
      var (w1, reply) := DeleteEni(svc, w, id);
      if reply != Failed then (w1, Nil)
      else if attempt + 1 < t.retries then
        if Interrupted(svc, w1) then (w1, Err(DeleteFailed(id, Cancelled)))
        else Expunge(svc, t, Pause(w1, t.delay), id, attempt + 1)
      else Expunge(svc, t, w1, id, attempt + 1)
  }

  // ----- Security groups: revoke every rule, then delete, collecting failures -----

  datatype GroupView = GroupView(id: Id, name: string, ingress: set<Rule>, egress: set<Rule>)

  function ViewGroup(w: World, id: Id): GroupView {
    if id in w.groups then GroupView(id, w.groups[id].name, w.groups[id].ingress, w.groups[id].egress)
    else GroupView(id, "", {}, {})
  }

  function NonDefault(groups: seq<GroupView>): seq<GroupView> {
    if groups == [] then []
    else (if groups[0].name != DEFAULT_GROUP then [groups[0]] else []) + NonDefault(groups[1..])
  }

  function CleanGroups(svc: Service, w: World, vpc: Id): (World, Outcome) {
    var (w1, listed) := Fetch(svc, w, ListGroups, vpc, Ids(GroupKind, w, vpc, svc.order), ViewGroup);
    if listed.None? then (w1, Err(ListingFailed(ListGroups)))
    else
      var groups := NonDefault(listed.value);
      var (w2, revoking) := RevokeAll(svc, w1, groups);
      var (w3, deleting) := DeleteAll(svc, w2, groups);
      (w3, Verdict(revoking + deleting))
  }

  function Verdict(failed: seq<Call>): Outcome {
    if failed == [] then Nil else Err(CallsFailed(failed))
  }

  function Complaint(op: Op, id: Id, reply: Reply): seq<Call> {
    if reply == Ok then [] else [Call(op, id)]
  }

  function RevokeSide(svc: Service, w: World, op: Op, id: Id, rules: set<Rule>): (World, seq<Call>) {
    if rules == {} then (w, [])
    else
      var (w1, reply) := Revoke(svc, w, op, id, rules);
      (w1, Complaint(op, id, reply))
  }

  function RevokeGroup(svc: Service, w: World, g: GroupView): (World, seq<Call>) {
    var (w1, e1) := RevokeSide(svc, w, RevokeIngress, g.id, g.ingress);
    var (w2, e2) := RevokeSide(svc, w1, RevokeEgress, g.id, g.egress);
    (w2, e1 + e2)
  }

  function RevokeAll(svc: Service, w: World, groups: seq<GroupView>): (World, seq<Call>)
    decreases |groups|
  {
    if groups == [] then (w, [])
    else
      var (w1, e1) := RevokeGroup(svc, w, groups[0]);
      var (w2, e2) := RevokeAll(svc, w1, groups[1..]);
      (w2, e1 + e2)
  }

  function DeleteAll(svc: Service, w: World, groups: seq<GroupView>): (World, seq<Call>)
    decreases |groups|
  {
    if groups == [] then (w, [])
    else
      var (w1, reply) := DeleteGroup(svc, w, groups[0].id);
      var (w2, e2) := DeleteAll(svc, w1, groups[1..]);
      (w2, Complaint(RemoveGroup, groups[0].id, reply) + e2)
  }

  // ----- Subnets: delete, collecting failures -----

  function ViewSubnet(w: World, id: Id): Id {
    id
  }

  function CleanSubnets(svc: Service, w: World, vpc: Id): (World, Outcome) {
    var (w1, listed) := Fetch(svc, w, ListSubnets, vpc, Ids(SubnetKind, w, vpc, svc.order), ViewSubnet);
    if listed.None? then (w1, Err(ListingFailed(ListSubnets)))
    else
      var (w2, deleting) := DeleteSubnets(svc, w1, listed.value);
      (w2, Verdict(deleting))
  }

  function DeleteSubnets(svc: Service, w: World, subnets: seq<Id>): (World, seq<Call>)
    decreases |subnets|
  {
    if subnets == [] then (w, [])
    else
      var (w1, reply) := DeleteSubnet(svc, w, subnets[0]);
      var (w2, e2) := DeleteSubnets(svc, w1, subnets[1..]);
      (w2, Complaint(RemoveSubnet, subnets[0], reply) + e2)
  }

  // ----- The cascade -----

  function Cleanup(svc: Service, t: Timing, w: World, vpc: Id): (World, Outcome) {
    var (w1, r1) := CleanEnis(svc, t, w, vpc);
    if r1.Err? then (w1, r1)
    else
      var (w2, r2) := CleanGroups(svc, w1, vpc);
      if r2.Err? then (w2, r2) else CleanSubnets(svc, w2, vpc)
  }
}
