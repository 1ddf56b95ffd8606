/**
 The part of EC2 that the VPC cleanup talks to: network interfaces, security groups and subnets
 with their dependency rules, and one function per API call.

 Nothing here is the repository's own code.  It states what a call may do to the account.  Every
 call consults the weather of its tick, so quantifying over `Service` quantifies over every pattern
 of refused calls, lost acknowledgements, latencies, detach delays, page sizes and cancellations.
 */
module Ec2World {
  import opened Prelude

  type Id = string

  /** What ties a network interface to an instance.  A `Detaching` link is in flight until its time. */
  datatype Link = Free | Attached(named: bool) | Detaching(until: nat)

  datatype Eni = Eni(vpc: Id, subnet: Id, groups: set<Id>, link: Link)

  /** A permission, with the groups it names as peers. */
  datatype Rule = Rule(protocol: string, peers: set<Id>)

  datatype Group = Group(vpc: Id, name: string, ingress: set<Rule>, egress: set<Rule>)

  datatype Subnet = Subnet(vpc: Id)

  datatype Op =
    | ListEnis | DetachEni | PollEni | RemoveEni
    | ListGroups | RevokeIngress | RevokeEgress | RemoveGroup
    | ListSubnets | RemoveSubnet

  /** `NotFound` is the error kind the source recognises by "InvalidNetworkInterfaceID". */
  datatype Reply = Ok | NotFound | Failed

  datatype Event = Event(op: Op, id: Id, reply: Reply)

  /** What the service makes of one call. */
  datatype Fate = Honoured | Refused | Unacknowledged

  /**
   The circumstances of one call: its fate, its latency, the time a detach started by it needs,
   whether such a detach also deletes the interface, whether the caller's context is cancelled in
   the pause after it, and how many entries beyond the first a page holds.
   */
  datatype Weather = Weather(fate: Fate, lag: nat, settle: nat, vanish: bool, cancel: bool, page: nat)

  /** The weather of every tick, and the order in which listings enumerate resources. */
  datatype Service = Service(weather: nat -> Weather, order: seq<Id>)

  datatype World = World(
    enis: map<Id, Eni>, groups: map<Id, Group>, subnets: map<Id, Subnet>,
    clock: nat, tick: nat, log: seq<Event>)

  datatype Kind = EniKind | GroupKind | SubnetKind

  // ----- Reading the world -----

  predicate Available(e: Eni, clock: nat) {
    match e.link
    case Free => true
    case Attached(_) => false
    case Detaching(until) => until <= clock
  }

  predicate InFlight(e: Eni, clock: nat) {
    e.link.Detaching? && clock < e.link.until
  }

  /** Whether a description of the interface carries an attachment with an id. */
  predicate ShowsAttachment(e: Eni, clock: nat) {
    e.link == Attached(true) || InFlight(e, clock)
  }

  predicate Names(rules: set<Rule>, id: Id) {
    exists r :: r in rules && id in r.peers
  }

  predicate RefersTo(g: Group, id: Id) {
    Names(g.ingress, id) || Names(g.egress, id)
  }

  /** A group is referenced when a group other than itself holds a rule naming it. */
  predicate Referenced(w: World, id: Id) {
    exists h :: h in w.groups && h != id && RefersTo(w.groups[h], id)
  }

  predicate Worn(w: World, group: Id) {
    exists e :: e in w.enis && group in w.enis[e].groups
  }

  predicate Occupied(w: World, subnet: Id) {
    exists e :: e in w.enis && w.enis[e].subnet == subnet
  }

  predicate InVpc(kind: Kind, w: World, id: Id, vpc: Id) {
    match kind
    case EniKind => id in w.enis && w.enis[id].vpc == vpc
    case GroupKind => id in w.groups && w.groups[id].vpc == vpc
    case SubnetKind => id in w.subnets && w.subnets[id].vpc == vpc
  }

  /** The ids a listing filtered by "vpc-id" enumerates. */
  function Ids(kind: Kind, w: World, vpc: Id, order: seq<Id>): seq<Id> {
    if order == [] then []
    else (if InVpc(kind, w, order[0], vpc) then [order[0]] else []) + Ids(kind, w, vpc, order[1..])
  }

  // ----- The calls -----

  /** The world after a call that changes no resource. */
  function Answer(svc: Service, w: World, op: Op, id: Id, reply: Reply): World {
    w.(clock := w.clock + svc.weather(w.tick).lag, tick := w.tick + 1, log := w.log + [Event(op, id, reply)])
  }

  function Pause(w: World, time: nat): World {
    w.(clock := w.clock + time)
  }

  /** Whether the context is cancelled in the pause after the latest call. */
  predicate Interrupted(svc: Service, w: World) {
    0 < w.tick && svc.weather(w.tick - 1).cancel
  }

  /** An acknowledgement that may be lost. */
  function Ack(fate: Fate): Reply {
    if fate == Honoured then Ok else Failed
  }

  /**
   A paginated listing: one call a page, each page a non-empty chunk of what is left.  The first
   failing page fails the listing.
   */
  function Fetch<T>(svc: Service, w: World, op: Op, vpc: Id, ids: seq<Id>, view: (World, Id) -> T)
    : (r: (World, Option<seq<T>>))
    decreases |ids|
  {
    var sky := svc.weather(w.tick);
    if sky.fate != Honoured then (Answer(svc, w, op, vpc, Failed), None)
    else
      var n := PageLength(sky, ids);
      var page := seq(n, i requires 0 <= i < n => view(w, ids[i]));
      var w1 := Answer(svc, w, op, vpc, Ok);
      if n == |ids| then (w1, Some(page))
      else
        var (w2, rest) := Fetch(svc, w1, op, vpc, ids[n..], view);
        (w2, if rest.None? then None else Some(page + rest.value))
  }

  function PageLength(sky: Weather, ids: seq<Id>): (n: nat)
    ensures n <= |ids| && (ids != [] ==> 0 < n)
  {
    if sky.page < |ids| then sky.page + 1 else |ids|
  }

  /** A forced detach.  An attachment that has been released is unknown to the service. */
  function Detach(svc: Service, w: World, id: Id): (World, Reply) {
    var sky := svc.weather(w.tick);
    if id !in w.enis || !ShowsAttachment(w.enis[id], w.clock) || sky.fate == Refused then
      (Answer(svc, w, DetachEni, id, Failed), Failed)
    else
      var enis := if sky.vanish then w.enis - {id}
                  else w.enis[id := w.enis[id].(link := Detaching(w.clock + sky.settle))];
      (Answer(svc, w.(enis := enis), DetachEni, id, Ack(sky.fate)), Ack(sky.fate))
  }

  /** How a description of one interface reads. */
  datatype Sighting = UnknownId | NotListed | Ready | Busy | Unanswered

  function Poll(svc: Service, w: World, id: Id): (World, Sighting) {
    var sky := svc.weather(w.tick);
    if sky.fate != Honoured then (Answer(svc, w, PollEni, id, Failed), Unanswered)
    else if id !in w.enis && sky.vanish then (Answer(svc, w, PollEni, id, NotFound), UnknownId)
    else (Answer(svc, w, PollEni, id, Ok),
          if id !in w.enis then NotListed
          else if Available(w.enis[id], w.clock) then Ready
          else Busy)
  }

  function DeleteEni(svc: Service, w: World, id: Id): (World, Reply) {
    var fate := svc.weather(w.tick).fate;
    if id !in w.enis then
      var reply := if fate == Honoured then NotFound else Failed;
      (Answer(svc, w, RemoveEni, id, reply), reply)
    else if fate == Refused || !Available(w.enis[id], w.clock) then
      (Answer(svc, w, RemoveEni, id, Failed), Failed)
    else
      (Answer(svc, w.(enis := w.enis - {id}), RemoveEni, id, Ack(fate)), Ack(fate))
  }

  function Revoke(svc: Service, w: World, op: Op, id: Id, rules: set<Rule>): (World, Reply) {
    var fate := svc.weather(w.tick).fate;
    if id !in w.groups || fate == Refused then (Answer(svc, w, op, id, Failed), Failed)
    else
      var g := w.groups[id];
      var h := if op == RevokeIngress then g.(ingress := g.ingress - rules) else g.(egress := g.egress - rules);
      (Answer(svc, w.(groups := w.groups[id := h]), op, id, Ack(fate)), Ack(fate))
  }

  /** A group goes only when no other group's rule names it and no interface wears it. */
  function DeleteGroup(svc: Service, w: World, id: Id): (World, Reply) {
    var fate := svc.weather(w.tick).fate;
    if id !in w.groups || fate == Refused || Referenced(w, id) || Worn(w, id) then
      (Answer(svc, w, RemoveGroup, id, Failed), Failed)
    else
      (Answer(svc, w.(groups := w.groups - {id}), RemoveGroup, id, Ack(fate)), Ack(fate))
  }

  /** A subnet goes only when no interface lives in it. */
  function DeleteSubnet(svc: Service, w: World, id: Id): (World, Reply) {
    var fate := svc.weather(w.tick).fate;
    if id !in w.subnets || fate == Refused || Occupied(w, id) then
      (Answer(svc, w, RemoveSubnet, id, Failed), Failed)
    else
      (Answer(svc, w.(subnets := w.subnets - {id}), RemoveSubnet, id, Ack(fate)), Ack(fate))
  }
}
