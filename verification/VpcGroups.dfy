/** What the security-group phase achieves, under every weather. */
module VpcGroups {
  import opened Ec2World
  import opened VpcCleanup
  import opened VpcListings

  const GROUP_OPS := {ListGroups, RevokeIngress, RevokeEgress, RemoveGroup}

  /** A group keeps its name and VPC and never gains a rule. */
  ghost predicate Shrunk(g: Group, g': Group) {
    g'.vpc == g.vpc && g'.name == g.name && g'.ingress <= g.ingress && g'.egress <= g.egress
  }

  ghost predicate GroupStep(w: World, w': World, touched: set<Id>) {
    && w'.enis == w.enis && w'.subnets == w.subnets
    && Later(w, w') && OnlyOps(w, w', GROUP_OPS)
    && (forall id :: id in w'.groups ==> id in w.groups && Shrunk(w.groups[id], w'.groups[id]))
    && (forall id :: id in w.groups && id !in touched ==> id in w'.groups && w'.groups[id] == w.groups[id])
  }

  lemma GroupStepTrans(w0: World, w1: World, w2: World, a: set<Id>, b: set<Id>)
    requires GroupStep(w0, w1, a) && GroupStep(w1, w2, b)
    ensures GroupStep(w0, w2, a + b)
  {
    assert forall i :: |w0.log| <= i < |w1.log| ==> w2.log[i] == w1.log[i];
  }

  ghost function GroupIds(groups: seq<GroupView>): set<Id> {
    set g | g in groups :: g.id
  }

  /** The descriptions are those of distinct groups that exist. */
  ghost predicate Describes(w: World, groups: seq<GroupView>) {
    && (forall i :: 0 <= i < |groups| ==> groups[i].id in w.groups && groups[i] == ViewGroup(w, groups[i].id))
    && (forall i, j :: 0 <= i < j < |groups| ==> groups[i].id != groups[j].id)
  }

  // ----- The calls a pass makes, and the failures it reports -----

  function Calls(events: seq<Event>): seq<Call> {
    if events == [] then [] else [Call(events[0].op, events[0].id)] + Calls(events[1..])
  }

  function FailedCalls(events: seq<Event>): seq<Call> {
    if events == [] then [] else Complaint(events[0].op, events[0].id, events[0].reply) + FailedCalls(events[1..])
  }

  lemma {:induction false} CallsConcat(a: seq<Event>, b: seq<Event>)
    ensures Calls(a + b) == Calls(a) + Calls(b)
  {
    if a == [] {
      assert a + b == b;
    } else {
      assert (a + b)[1..] == a[1..] + b;
      CallsConcat(a[1..], b);
      var call := [Call(a[0].op, a[0].id)];
      assert Calls(a + b) == call + (Calls(a[1..]) + Calls(b));
    }
  }

  lemma {:induction false} FailedConcat(a: seq<Event>, b: seq<Event>)
    ensures FailedCalls(a + b) == FailedCalls(a) + FailedCalls(b)
  {
    hide Complaint;
    if a == [] {
      assert a + b == b;
    } else {
      assert (a + b)[1..] == a[1..] + b;
      FailedConcat(a[1..], b);
      var first := Complaint(a[0].op, a[0].id, a[0].reply);
      assert FailedCalls(a + b) == first + (FailedCalls(a[1..]) + FailedCalls(b));
    }
  }

  /** Between the two worlds exactly these calls were made, and exactly these of them failed. */
  ghost predicate Made(w: World, w': World, calls: seq<Call>, failed: seq<Call>) {
    w.log <= w'.log && Calls(w'.log[|w.log|..]) == calls && FailedCalls(w'.log[|w.log|..]) == failed
  }

  lemma MadeTrans(w0: World, w1: World, w2: World, c1: seq<Call>, f1: seq<Call>, c2: seq<Call>, f2: seq<Call>)
    requires Made(w0, w1, c1, f1) && Made(w1, w2, c2, f2)
    ensures Made(w0, w2, c1 + c2, f1 + f2)
  {
    var a, b := w1.log[|w0.log|..], w2.log[|w1.log|..];
    assert w2.log[|w0.log|..] == a + b;
    CallsConcat(a, b);
    FailedConcat(a, b);
  }

  lemma MadeOne(w: World, w': World, op: Op, id: Id, reply: Reply)
    requires w'.log == w.log + [Event(op, id, reply)]
    ensures Made(w, w', [Call(op, id)], Complaint(op, id, reply))
  {
    assert w'.log[|w.log|..] == [Event(op, id, reply)];
  }

  /** How many calls were acknowledged. */
  function Acknowledged(events: seq<Event>): nat {
    if events == [] then 0 else Acknowledged(events[1..]) + if events[0].reply == Ok then 1 else 0
  }

  lemma {:induction false} CallsAt(events: seq<Event>)
    ensures |Calls(events)| == |events|
    ensures forall i :: 0 <= i < |events| ==> Calls(events)[i] == Call(events[i].op, events[i].id)
  {
    if events != [] {
      CallsAt(events[1..]);
      assert forall i :: 0 < i < |events| ==> events[i] == events[1..][i - 1];
    }
  }

  lemma {:induction false} FailedCount(events: seq<Event>)
    ensures |FailedCalls(events)| + Acknowledged(events) == |events|
    ensures FailedCalls(events) == [] <==> forall i :: 0 <= i < |events| ==> events[i].reply == Ok
  {
    if events != [] {
      FailedCount(events[1..]);
      assert forall i :: 0 < i < |events| ==> events[i] == events[1..][i - 1];
    }
  }

  lemma MadeOk(w: World, w': World, calls: seq<Call>, failed: seq<Call>)
    requires Made(w, w', calls, failed)
    ensures failed == [] <==> forall i :: |w.log| <= i < |w'.log| ==> w'.log[i].reply == Ok
  {
    var events := w'.log[|w.log|..];
    FailedCount(events);
    assert forall i :: |w.log| <= i < |w'.log| ==> w'.log[i] == events[i - |w.log|];
    assert forall j :: 0 <= j < |events| ==> events[j] == w'.log[|w.log| + j];
  }

  lemma MadeOps(w: World, w': World, calls: seq<Call>, failed: seq<Call>, ops: set<Op>)
    requires Made(w, w', calls, failed)
    requires forall c :: c in calls ==> c.op in ops
    ensures OnlyOps(w, w', ops)
  {
    var events := w'.log[|w.log|..];
    CallsAt(events);
    forall i | |w.log| <= i < |w'.log| ensures w'.log[i].op in ops {
      assert w'.log[i] == events[i - |w.log|];
      assert calls[i - |w.log|] in calls;
    }
  }

  // ----- What a collecting phase tells its caller -----

  /** Between the two worlds exactly these calls were made, in this order. */
  ghost predicate Attempted(w: World, w': World, calls: seq<Call>) {
    && w.log <= w'.log && |w'.log| == |w.log| + |calls|
    && (forall i :: |w.log| <= i < |w'.log| ==>
          w'.log[i].op == calls[i - |w.log|].op && w'.log[i].id == calls[i - |w.log|].id)
  }

  /** These calls were not acknowledged: they stand in the log at these positions, in this order. */
  ghost predicate FailuresAt(log: seq<Event>, from: nat, ops: set<Op>, calls: seq<Call>, at: seq<nat>) {
    && |at| == |calls|
    && (forall i, j :: 0 <= i < j < |at| ==> at[i] < at[j])
    && (forall j :: 0 <= j < |at| ==>
          from <= at[j] < |log| && calls[j].op == log[at[j]].op && calls[j].id == log[at[j]].id)
    && (forall k :: from <= k < |log| ==> (k in at <==> log[k].op in ops && log[k].reply != Ok))
  }

  /** Exactly the calls with one of these operations, from that event on, that were not acknowledged, in order. */
  ghost predicate Failures(log: seq<Event>, from: nat, ops: set<Op>, calls: seq<Call>) {
    exists at :: FailuresAt(log, from, ops, calls, at)
  }

  /** Nil when every call was acknowledged, otherwise a report of exactly those that were not. */
  ghost predicate Tells(w: World, w': World, r: Outcome, ops: set<Op>) {
    && w.log <= w'.log && OnlyOps(w, w', ops)
    && (r.Nil? <==> forall i :: |w.log| <= i < |w'.log| ==> w'.log[i].reply == Ok)
    && (r.Err? ==>
          && r.error.CallsFailed?
          && Failures(w'.log, |w.log|, ops, r.error.calls)
          && Acknowledged(w'.log[|w.log|..]) + |r.error.calls| == |w'.log| - |w.log|)
  }

  lemma FailuresSnoc(log: seq<Event>, e: Event, from: nat, ops: set<Op>, calls: seq<Call>, at: seq<nat>)
    requires from <= |log| && e.op in ops
    requires FailuresAt(log, from, ops, calls, at)
    ensures e.reply == Ok ==> FailuresAt(log + [e], from, ops, calls, at)
    ensures e.reply != Ok ==> FailuresAt(log + [e], from, ops, calls + [Call(e.op, e.id)], at + [|log|])
  {
    var all := log + [e];
    assert forall k :: 0 <= k < |log| ==> all[k] == log[k];
    if e.reply == Ok {
      assert |log| !in at;
    } else {
      var at' := at + [|log|];
      assert forall k :: k in at' <==> k in at || k == |log|;
    }
  }

  lemma NoFailures(log: seq<Event>, ops: set<Op>)
    ensures FailuresAt(log, |log|, ops, FailedCalls(log[|log|..]), [])
  {
  }

  lemma {:induction false} FailedIndices(log: seq<Event>, from: nat, ops: set<Op>) returns (at: seq<nat>)
    requires from <= |log| && forall k :: from <= k < |log| ==> log[k].op in ops
    ensures FailuresAt(log, from, ops, FailedCalls(log[from..]), at)
    decreases |log|
  {
    hide FailuresAt, FailedCalls;
    if from == |log| {
      at := [];
      NoFailures(log, ops);
    } else {
      var front, e := log[..|log| - 1], log[|log| - 1];
      var at0 := FailedIndices(front, from, ops);
      FailuresSnoc(front, e, from, ops, FailedCalls(front[from..]), at0);
      FailedSnoc(front, e, from);
      at := if e.reply == Ok then at0 else at0 + [|front|];
      assert FailuresAt(front + [e], from, ops, FailedCalls((front + [e])[from..]), at);
      assert log == front + [e];
    }
  }

  lemma FailedSnoc(log: seq<Event>, e: Event, from: nat)
    requires from <= |log|
    ensures FailedCalls((log + [e])[from..])
            == if e.reply == Ok then FailedCalls(log[from..]) else FailedCalls(log[from..]) + [Call(e.op, e.id)]
  {
    assert (log + [e])[from..] == log[from..] + [e];
    FailedConcat(log[from..], [e]);
    assert [e][1..] == [];
    assert FailedCalls([e]) == if e.reply == Ok then [] else [Call(e.op, e.id)];
  }

  lemma VerdictTells(w: World, w': World, calls: seq<Call>, failed: seq<Call>, ops: set<Op>)
    requires Made(w, w', calls, failed)
    requires forall c :: c in calls ==> c.op in ops
    ensures Attempted(w, w', calls) && Tells(w, w', Verdict(failed), ops)
  {
    var events := w'.log[|w.log|..];
    CallsAt(events);
    FailedCount(events);
    MadeOk(w, w', calls, failed);
    MadeOps(w, w', calls, failed, ops);
    assert forall i :: |w.log| <= i < |w'.log| ==> w'.log[i] == events[i - |w.log|];
    var at := FailedIndices(w'.log, |w.log|, ops);
  }

  // ----- The scripts of the two passes -----

  function SideScript(op: Op, id: Id, rules: set<Rule>): seq<Call> {
    if rules == {} then [] else [Call(op, id)]
  }

  function RevokeScript(groups: seq<GroupView>): seq<Call> {
    if groups == [] then []
    else SideScript(RevokeIngress, groups[0].id, groups[0].ingress)
         + SideScript(RevokeEgress, groups[0].id, groups[0].egress)
         + RevokeScript(groups[1..])
  }

  function DeleteScript(groups: seq<GroupView>): seq<Call> {
    seq(|groups|, i requires 0 <= i < |groups| => Call(RemoveGroup, groups[i].id))
  }

  lemma {:induction false} RevokeScriptOps(groups: seq<GroupView>)
    ensures forall c :: c in RevokeScript(groups) ==> c.op in {RevokeIngress, RevokeEgress}
  {
    if groups != [] {
      RevokeScriptOps(groups[1..]);
    }
  }

  lemma SideMade(svc: Service, w: World, op: Op, id: Id, rules: set<Rule>)
    ensures var (w', failed) := RevokeSide(svc, w, op, id, rules); Made(w, w', SideScript(op, id, rules), failed)
  {
    if rules != {} {
      var (w', reply) := Revoke(svc, w, op, id, rules);
      MadeOne(w, w', op, id, reply);
    }
  }

  /** The revoke pass makes every revoke call of its script whatever fails, and reports each failure. */
  lemma {:induction false} RevokeMade(svc: Service, w: World, groups: seq<GroupView>)
    ensures var (w', failed) := RevokeAll(svc, w, groups); Made(w, w', RevokeScript(groups), failed)
    decreases |groups|
  {
    if groups != [] {
      var g := groups[0];
      var (w1, e1) := RevokeSide(svc, w, RevokeIngress, g.id, g.ingress);
      var (w2, e2) := RevokeSide(svc, w1, RevokeEgress, g.id, g.egress);
      var (w3, e3) := RevokeAll(svc, w2, groups[1..]);
      var c1, c2 := SideScript(RevokeIngress, g.id, g.ingress), SideScript(RevokeEgress, g.id, g.egress);
      SideMade(svc, w, RevokeIngress, g.id, g.ingress);
      SideMade(svc, w1, RevokeEgress, g.id, g.egress);
      RevokeMade(svc, w2, groups[1..]);
      MadeTrans(w, w1, w2, c1, e1, c2, e2);
      MadeTrans(w, w2, w3, c1 + c2, e1 + e2, RevokeScript(groups[1..]), e3);
    }
  }

  lemma {:induction false} DeleteMade(svc: Service, w: World, groups: seq<GroupView>)
    ensures var (w', failed) := DeleteAll(svc, w, groups); Made(w, w', DeleteScript(groups), failed)
    decreases |groups|
  {
    if groups != [] {
      var id := groups[0].id;
      var (w1, reply) := DeleteGroup(svc, w, id);
      var (w2, failed) := DeleteAll(svc, w1, groups[1..]);
      MadeOne(w, w1, RemoveGroup, id, reply);
      DeleteMade(svc, w1, groups[1..]);
      MadeTrans(w, w1, w2, [Call(RemoveGroup, id)], Complaint(RemoveGroup, id, reply),
                DeleteScript(groups[1..]), failed);
      assert DeleteScript(groups) == [Call(RemoveGroup, id)] + DeleteScript(groups[1..]);
    }
  }

  // ----- The revoke pass -----

  predicate Effective(svc: Service, tick: nat) {
    svc.weather(tick).fate != Refused
  }

  function SideCalls(rules: set<Rule>): nat {
    if rules == {} then 0 else 1
  }

  /** How many revoke calls come before those of the k-th group. */
  function CallsBefore(groups: seq<GroupView>, k: nat): nat
    requires k <= |groups|
  {
    if k == 0 then 0
    else SideCalls(groups[0].ingress) + SideCalls(groups[0].egress) + CallsBefore(groups[1..], k - 1)
  }

  /** The rules one side of a group still has after the pass: all of them if its call had no effect. */
  function Unrevoked(svc: Service, tick: nat, rules: set<Rule>): set<Rule> {
    if Effective(svc, tick) then {} else rules
  }

  /** A group after its revoke calls, the first of them at the given tick. */
  function Left(svc: Service, tick: nat, g: Group): Group {
    g.(ingress := Unrevoked(svc, tick, g.ingress),
       egress := Unrevoked(svc, tick + SideCalls(g.ingress), g.egress))
  }

  lemma SideFrame(svc: Service, w: World, op: Op, id: Id, rules: set<Rule>)
    requires op == RevokeIngress || op == RevokeEgress
    ensures var w' := RevokeSide(svc, w, op, id, rules).0;
      && GroupStep(w, w', {id}) && w'.groups.Keys == w.groups.Keys
      && w'.tick == w.tick + SideCalls(rules)
      && (id in w.groups ==>
            var revoked := rules - Unrevoked(svc, w.tick, rules);
            w'.groups[id] == if op == RevokeIngress
                             then w.groups[id].(ingress := w.groups[id].ingress - revoked)
                             else w.groups[id].(egress := w.groups[id].egress - revoked))
  {
    if rules == {} && id in w.groups {
      assert w.groups[id].ingress - (rules - Unrevoked(svc, w.tick, rules)) == w.groups[id].ingress;
      assert w.groups[id].egress - (rules - Unrevoked(svc, w.tick, rules)) == w.groups[id].egress;
    }
  }

  lemma OneFrame(svc: Service, w: World, g: GroupView)
    ensures var w' := RevokeGroup(svc, w, g).0;
      && GroupStep(w, w', {g.id}) && w'.groups.Keys == w.groups.Keys
      && w'.tick == w.tick + SideCalls(g.ingress) + SideCalls(g.egress)
      && (g.id in w.groups && g == ViewGroup(w, g.id) ==>
            w'.groups[g.id] == Left(svc, w.tick, w.groups[g.id]))
  {
    var w1 := RevokeSide(svc, w, RevokeIngress, g.id, g.ingress).0;
    SideFrame(svc, w, RevokeIngress, g.id, g.ingress);
    SideFrame(svc, w1, RevokeEgress, g.id, g.egress);
    GroupStepTrans(w, w1, RevokeGroup(svc, w, g).0, {g.id}, {g.id});
    assert {g.id} + {g.id} == {g.id};
  }

  lemma {:induction false} RevokeFrame(svc: Service, w: World, groups: seq<GroupView>)
    ensures var w' := RevokeAll(svc, w, groups).0;
      GroupStep(w, w', GroupIds(groups)) && w'.groups.Keys == w.groups.Keys
    decreases |groups|
  {
    if groups != [] {
      OneFrame(svc, w, groups[0]);
      var w1 := RevokeGroup(svc, w, groups[0]).0;
      RevokeFrame(svc, w1, groups[1..]);
      RevokeFrameStep(w, w1, RevokeAll(svc, w1, groups[1..]).0, groups);
    }
  }

  lemma RevokeFrameStep(w: World, w1: World, w': World, groups: seq<GroupView>)
    requires groups != []
    requires GroupStep(w, w1, {groups[0].id}) && GroupStep(w1, w', GroupIds(groups[1..]))
    ensures GroupStep(w, w', GroupIds(groups))
  {
    GroupStepTrans(w, w1, w', {groups[0].id}, GroupIds(groups[1..]));
    assert GroupIds(groups) == {groups[0].id} + GroupIds(groups[1..]);
  }

  /** Exactly the rules whose revoke call had no effect are left. */
  lemma {:induction false} RevokeExact(svc: Service, w: World, groups: seq<GroupView>, k: nat)
    requires Describes(w, groups) && k < |groups|
    ensures var w' := RevokeAll(svc, w, groups).0;
      var id := groups[k].id;
      && id in w'.groups
      && w'.groups[id] == Left(svc, w.tick + CallsBefore(groups, k), w.groups[id])
    decreases |groups|
  {
    hide RevokeGroup, Left, ViewGroup, GroupStep, Describes;
    RevokeFirst(svc, w, groups);
    if k != 0 {
      RevokeExact(svc, RevokeGroup(svc, w, groups[0]).0, groups[1..], k - 1);
    }
  }

  lemma RevokeFirst(svc: Service, w: World, groups: seq<GroupView>)
    requires Describes(w, groups) && groups != []
    ensures var w1 := RevokeGroup(svc, w, groups[0]).0;
      var w', id := RevokeAll(svc, w, groups).0, groups[0].id;
      && Describes(w1, groups[1..])
      && w1.tick == w.tick + SideCalls(groups[0].ingress) + SideCalls(groups[0].egress)
      && id in w'.groups && w'.groups[id] == Left(svc, w.tick, w.groups[id])
      && (forall i :: 0 < i < |groups| ==>
            groups[i].id in w1.groups && w1.groups[groups[i].id] == w.groups[groups[i].id])
  {
    hide RevokeGroup, Left;
    OneFrame(svc, w, groups[0]);
    var w1 := RevokeGroup(svc, w, groups[0]).0;
    DescribesRest(w, w1, groups);
    RevokeFrame(svc, w1, groups[1..]);
  }

  lemma DescribesRest(w: World, w1: World, groups: seq<GroupView>)
    requires groups != [] && Describes(w, groups)
    requires GroupStep(w, w1, {groups[0].id})
    ensures Describes(w1, groups[1..])
    ensures groups[0].id !in GroupIds(groups[1..])
  {
  }

  // ----- The delete pass -----

  lemma DeleteOne(svc: Service, w: World, id: Id)
    ensures var (w', reply) := DeleteGroup(svc, w, id);
      && GroupStep(w, w', {id})
      && (w'.groups == w.groups || w'.groups == w.groups - {id})
      && (reply == Ok ==> id !in w'.groups)
      && w'.tick == w.tick + 1
      && (id in w.groups ==>
            (id !in w'.groups <==> Effective(svc, w.tick) && !Worn(w, id) && !Referenced(w, id)))
  {
  }

  lemma {:induction false} DeleteFrame(svc: Service, w: World, groups: seq<GroupView>)
    ensures var (w', failed) := DeleteAll(svc, w, groups);
      && GroupStep(w, w', GroupIds(groups))
      && (forall id :: id in w'.groups ==> w'.groups[id] == w.groups[id])
      && (failed == [] ==> forall g :: g in groups ==> g.id !in w'.groups)
    decreases |groups|
  {
    if groups != [] {
      DeleteOne(svc, w, groups[0].id);
      var w1 := DeleteGroup(svc, w, groups[0].id).0;
      DeleteFrame(svc, w1, groups[1..]);
      RevokeFrameStep(w, w1, DeleteAll(svc, w1, groups[1..]).0, groups);
      assert forall g :: g in groups ==> g == groups[0] || g in groups[1..];
    }
  }

  /** h stands earlier in the list than position k and was itself deleted. */
  ghost predicate WentBefore(w': World, groups: seq<GroupView>, k: nat, h: Id)
    requires k <= |groups|
  {
    h !in w'.groups && exists j :: 0 <= j < k && groups[j].id == h
  }

  /** Every other group with a rule to the k-th group stands before it and was itself deleted. */
  ghost predicate Released(w: World, w': World, groups: seq<GroupView>, k: nat)
    requires k < |groups|
  {
    forall h :: h in w.groups && h != groups[k].id && RefersTo(w.groups[h], groups[k].id) ==>
      WentBefore(w', groups, k, h)
  }

  /**
   Exact survivors: the in-order delete pass removes the k-th group exactly when its own call takes
   effect, no interface wears it, and every other group that still refers to it stands earlier in
   the list and was itself removed.
   */
  lemma {:induction false} DeleteExact(svc: Service, w: World, groups: seq<GroupView>, k: nat)
    requires forall i :: 0 <= i < |groups| ==> groups[i].id in w.groups
    requires forall i, j :: 0 <= i < j < |groups| ==> groups[i].id != groups[j].id
    requires k < |groups|
    ensures var w' := DeleteAll(svc, w, groups).0;
      groups[k].id !in w'.groups <==>
      Effective(svc, w.tick + k) && !Worn(w, groups[k].id) && Released(w, w', groups, k)
    decreases |groups|
  {
    hide DeleteGroup, Effective, Worn, GroupStep, RefersTo;
    var w1 := DeleteGroup(svc, w, groups[0].id).0;
    var w' := DeleteAll(svc, w, groups).0;
    DeleteOne(svc, w, groups[0].id);
    Untouched(svc, w, groups);
    if k == 0 {
      assert Released(w, w', groups, 0) <==> !Referenced(w, groups[0].id);
    } else {
      DeleteExact(svc, w1, groups[1..], k - 1);
      ReleasedStep(w, w1, w', groups, k);
    }
  }

  /** The rest of the pass does not concern the first group, nor what wears a group. */
  lemma Untouched(svc: Service, w: World, groups: seq<GroupView>)
    requires groups != []
    requires forall i, j :: 0 <= i < j < |groups| ==> groups[i].id != groups[j].id
    ensures var w1 := DeleteGroup(svc, w, groups[0].id).0;
      var w' := DeleteAll(svc, w, groups).0;
      && (groups[0].id in w1.groups <==> groups[0].id in w'.groups)
      && (forall id :: id in w1.groups ==> id in w.groups && w1.groups[id] == w.groups[id])
      && (forall id :: id in w.groups && id != groups[0].id ==> id in w1.groups)
      && (forall id :: Worn(w1, id) <==> Worn(w, id))
      && w1.tick == w.tick + 1
  {
    hide DeleteGroup;
    var w1 := DeleteGroup(svc, w, groups[0].id).0;
    DeleteOne(svc, w, groups[0].id);
    DeleteFrame(svc, w1, groups[1..]);
    assert groups[0].id !in GroupIds(groups[1..]);
  }

  lemma ReleasedStep(w: World, w1: World, w': World, groups: seq<GroupView>, k: nat)
    requires 0 < k < |groups|
    requires w1.groups == w.groups || w1.groups == w.groups - {groups[0].id}
    requires groups[0].id in w1.groups <==> groups[0].id in w'.groups
    ensures Released(w, w', groups, k) <==> Released(w1, w', groups[1..], k - 1)
  {
    var id, rest := groups[k].id, groups[1..];
    forall h | h in w1.groups ensures WentBefore(w', groups, k, h) <==> WentBefore(w', rest, k - 1, h) {
      if WentBefore(w', groups, k, h) {
        var j :| 0 <= j < k && groups[j].id == h;
        assert rest[j - 1].id == h;
      }
      if WentBefore(w', rest, k - 1, h) {
        var j :| 0 <= j < k - 1 && rest[j].id == h;
        assert groups[j + 1].id == h;
      }
    }
    assert forall h :: h in w.groups && h !in w1.groups ==> h == groups[0].id && WentBefore(w', groups, k, h);
  }

  /** Distinct groups whose delete calls all take effect and which no interface wears. */
  ghost predicate Unimpeded(svc: Service, w: World, groups: seq<GroupView>) {
    && (forall i :: 0 <= i < |groups| ==>
          groups[i].id in w.groups && Effective(svc, w.tick + i) && !Worn(w, groups[i].id))
    && (forall i, j :: 0 <= i < j < |groups| ==> groups[i].id != groups[j].id)
  }

  /**
   When every delete call takes effect and no interface wears a group, the pass removes the whole list
   exactly when every reference between groups that is left comes from an earlier group of the list.
   */
  lemma AllGoIffForward(svc: Service, w: World, groups: seq<GroupView>)
    requires Unimpeded(svc, w, groups)
    ensures var w' := DeleteAll(svc, w, groups).0;
      (forall k :: 0 <= k < |groups| ==> groups[k].id !in w'.groups) <==>
      (forall k :: 0 <= k < |groups| ==> Forward(w, groups, k))
  {
    hide DeleteAll;
    var w' := DeleteAll(svc, w, groups).0;
    if forall k :: 0 <= k < |groups| ==> groups[k].id !in w'.groups {
      forall k | 0 <= k < |groups| ensures Forward(w, groups, k) {
        DeleteExact(svc, w, groups, k);
      }
    }
    if forall k :: 0 <= k < |groups| ==> Forward(w, groups, k) {
      ForwardGo(svc, w, groups, |groups|);
    }
  }

  /** Every other group with a rule to the k-th one stands before it in the list. */
  ghost predicate Forward(w: World, groups: seq<GroupView>, k: nat)
    requires k < |groups|
  {
    forall h :: h in w.groups && h != groups[k].id && RefersTo(w.groups[h], groups[k].id) ==>
      exists j :: 0 <= j < k && groups[j].id == h
  }

  lemma {:induction false} ForwardGo(svc: Service, w: World, groups: seq<GroupView>, n: nat)
    requires n <= |groups|
    requires Unimpeded(svc, w, groups)
    requires forall k :: 0 <= k < |groups| ==> Forward(w, groups, k)
    ensures var w' := DeleteAll(svc, w, groups).0; forall k :: 0 <= k < n ==> groups[k].id !in w'.groups
  {
    hide DeleteAll;
    if n != 0 {
      ForwardGo(svc, w, groups, n - 1);
      assert Forward(w, groups, n - 1);
      DeleteExact(svc, w, groups, n - 1);
    }
  }

  ghost predicate Held(w: World, knot: set<Id>, x: Id) {
    exists y :: y in knot && y in w.groups && y != x && RefersTo(w.groups[y], x)
  }

  /** A set of groups each of which another member refers to, such as the groups on a reference cycle. */
  ghost predicate Knot(w: World, knot: set<Id>) {
    knot <= w.groups.Keys && forall x {:trigger Held(w, knot, x)} :: x in knot ==> Held(w, knot, x)
  }

  /** Without a revoke, no sequence of delete calls, in any order and under any weather, removes any of it. */
  lemma {:induction false} KnotStays(svc: Service, w: World, groups: seq<GroupView>, knot: set<Id>)
    requires Knot(w, knot)
    ensures Knot(DeleteAll(svc, w, groups).0, knot)
    decreases |groups|
  {
    if groups != [] {
      DeleteOne(svc, w, groups[0].id);
      var w1 := DeleteGroup(svc, w, groups[0].id).0;
      KnotStep(w, w1, groups[0].id, knot);
      KnotStays(svc, w1, groups[1..], knot);
    }
  }

  lemma KnotStep(w: World, w1: World, id: Id, knot: set<Id>)
    requires Knot(w, knot)
    requires w1.groups == w.groups || (w1.groups == w.groups - {id} && !Referenced(w, id))
    ensures Knot(w1, knot)
  {
    if id in knot {
      assert Held(w, knot, id);
    }
    forall x | x in knot ensures Held(w1, knot, x) {
      assert Held(w, knot, x);
      var y :| y in knot && y != x && RefersTo(w.groups[y], x);
      assert w1.groups[y] == w.groups[y];
    }
  }

  // ----- The whole phase -----

  ghost predicate IsTarget(w: World, id: Id, vpc: Id) {
    InVpc(GroupKind, w, id, vpc) && w.groups[id].name != "default"
  }

  ghost predicate NoTargets(w: World, vpc: Id) {
    forall id :: id in w.groups ==> !IsTarget(w, id, vpc)
  }

  lemma {:induction false} NonDefaultDescribes(w: World, groups: seq<GroupView>)
    requires Describes(w, groups)
    ensures Describes(w, NonDefault(groups))
    ensures forall g :: g in NonDefault(groups) <==> g in groups && g.name != DEFAULT_GROUP
  {
    if groups != [] {
      NonDefaultDescribes(w, groups[1..]);
      assert forall g :: g in groups <==> g == groups[0] || g in groups[1..];
      assert forall g :: g in groups[1..] ==> g.id != groups[0].id;
    }
  }

  /** The groups the phase works on are the VPC's groups that are not named "default". */
  lemma ListedGroups(svc: Service, w: World, vpc: Id)
    requires Distinct(svc.order)
    ensures var (w1, listed) := Fetch(svc, w, ListGroups, vpc, Ids(GroupKind, w, vpc, svc.order), ViewGroup);
      && GroupStep(w, w1, {}) && SameResources(w, w1) && OnlyOps(w, w1, {ListGroups}) && w.tick < w1.tick
      && (listed.Some? ==>
            && Describes(w1, NonDefault(listed.value))
            && (forall id :: id in GroupIds(NonDefault(listed.value)) <==> id in svc.order && IsTarget(w, id, vpc)))
  {
    var ids := Ids(GroupKind, w, vpc, svc.order);
    var (w1, listed) := Fetch(svc, w, ListGroups, vpc, ids, ViewGroup);
    FetchFrame(svc, w, ListGroups, vpc, ids, ViewGroup);
    FetchGroups(svc, w, vpc, ids);
    if listed.Some? {
      Targets(svc, w, vpc, listed.value);
    }
  }

  lemma Targets(svc: Service, w: World, vpc: Id, all: seq<GroupView>)
    requires Distinct(svc.order)
    requires var ids := Ids(GroupKind, w, vpc, svc.order);
      |all| == |ids| && forall i :: 0 <= i < |ids| ==> all[i] == ViewGroup(w, ids[i])
    ensures Describes(w, NonDefault(all))
    ensures forall id :: id in GroupIds(NonDefault(all)) <==> id in svc.order && IsTarget(w, id, vpc)
  {
    hide NonDefault, Ids, Describes, GroupIds;
    var ids := Ids(GroupKind, w, vpc, svc.order);
    IdsMembers(GroupKind, w, vpc, svc.order);
    IdsDistinct(GroupKind, w, vpc, svc.order);
    assert forall i :: 0 <= i < |ids| ==> ids[i] in ids;
    ViewsDescribe(w, ids, all);
    NonDefaultDescribes(w, all);
    KeptIds(w, ids, all, NonDefault(all));
  }

  lemma KeptIds(w: World, ids: seq<Id>, all: seq<GroupView>, kept: seq<GroupView>)
    requires |all| == |ids| && forall i :: 0 <= i < |ids| ==> all[i].id == ids[i]
    requires forall g :: g in all ==> g.id in w.groups && g == ViewGroup(w, g.id)
    requires forall g :: g in kept <==> g in all && g.name != DEFAULT_GROUP
    ensures forall id :: id in GroupIds(kept) <==> id in ids && w.groups[id].name != "default"
  {
    forall id | id in ids ensures exists g :: g in all && g.id == id {
      var i :| 0 <= i < |ids| && ids[i] == id;
      assert all[i] in all;
    }
    forall id | id in GroupIds(kept) ensures id in ids {
      var g :| g in kept && g.id == id;
      var i :| 0 <= i < |all| && all[i] == g;
    }
  }

  lemma ViewsDescribe(w: World, ids: seq<Id>, all: seq<GroupView>)
    requires Distinct(ids) && |all| == |ids|
    requires forall i :: 0 <= i < |ids| ==> ids[i] in w.groups && all[i] == ViewGroup(w, ids[i])
    ensures Describes(w, all)
    ensures forall g :: g in all ==> g.id in ids && g == ViewGroup(w, g.id)
  {
    assert forall i :: 0 <= i < |ids| ==> all[i].id == ids[i];
  }

  const PASS_OPS := {RevokeIngress, RevokeEgress, RemoveGroup}

  /** The calls of the phase and its report, from the world after the listing on. */
  ghost predicate GroupPhase(w1: World, w': World, r: Outcome, groups: seq<GroupView>) {
    && Attempted(w1, w', RevokeScript(groups) + DeleteScript(groups))
    && Tells(w1, w', r, PASS_OPS)
  }

  /**
   Error conservation: whatever fails, every revoke of the script and then every delete is attempted;
   the phase succeeds exactly when every call was acknowledged, and otherwise reports exactly the calls
   that were not, in order.
   */
  lemma GroupErrors(svc: Service, w: World, vpc: Id)
    ensures var (w1, listed) := Fetch(svc, w, ListGroups, vpc, Ids(GroupKind, w, vpc, svc.order), ViewGroup);
      var (w', r) := CleanGroups(svc, w, vpc);
      if listed.None? then w' == w1 && r == Err(ListingFailed(ListGroups))
      else GroupPhase(w1, w', r, NonDefault(listed.value))
  {
    var (w1, listed) := Fetch(svc, w, ListGroups, vpc, Ids(GroupKind, w, vpc, svc.order), ViewGroup);
    if listed.Some? {
      var groups := NonDefault(listed.value);
      var (w2, revoking) := RevokeAll(svc, w1, groups);
      var (w3, deleting) := DeleteAll(svc, w2, groups);
      RevokeMade(svc, w1, groups);
      RevokeScriptOps(groups);
      DeleteMade(svc, w2, groups);
      MadeTrans(w1, w2, w3, RevokeScript(groups), revoking, DeleteScript(groups), deleting);
      VerdictTells(w1, w3, RevokeScript(groups) + DeleteScript(groups), revoking + deleting, PASS_OPS);
    }
  }

  lemma CleanGroupsFrame(svc: Service, w: World, vpc: Id)
    requires Distinct(svc.order)
    ensures var (w', r) := CleanGroups(svc, w, vpc);
      && GroupStep(w, w', w.groups.Keys)
      && (forall id :: id in w.groups && !IsTarget(w, id, vpc) ==> id in w'.groups && w'.groups[id] == w.groups[id])
      && (r.Nil? && (forall id :: id in w.groups ==> id in svc.order) ==> NoTargets(w', vpc))
  {
    var (w1, listed) := Fetch(svc, w, ListGroups, vpc, Ids(GroupKind, w, vpc, svc.order), ViewGroup);
    ListedGroups(svc, w, vpc);
    if listed.Some? {
      var groups := NonDefault(listed.value);
      var w2 := RevokeAll(svc, w1, groups).0;
      var w3 := DeleteAll(svc, w2, groups).0;
      RevokeFrame(svc, w1, groups);
      DeleteFrame(svc, w2, groups);
      GroupStepTrans(w1, w2, w3, GroupIds(groups), GroupIds(groups));
      GroupStepTrans(w, w1, w3, {}, GroupIds(groups) + GroupIds(groups));
    }
  }

  /** A group as the revoke pass leaves it: listed groups lose what was effectively revoked. */
  ghost predicate StillRefers(svc: Service, w1: World, groups: seq<GroupView>, h: Id, id: Id)
    requires h in w1.groups
  {
    if h in GroupIds(groups)
    then exists i :: 0 <= i < |groups| && groups[i].id == h &&
                     RefersTo(Left(svc, w1.tick + CallsBefore(groups, i), w1.groups[h]), id)
    else RefersTo(w1.groups[h], id)
  }

  /**
   Exact survivors of the phase, under every weather, in terms of the groups as they were listed: the
   k-th group goes exactly when its delete takes effect, no interface wears it, and every other group
   that still refers to it, because it was not listed or because its own revoke call had no effect,
   stands earlier in the list and went itself.
   */
  lemma GroupSurvivors(svc: Service, w1: World, groups: seq<GroupView>, k: nat)
    requires Describes(w1, groups) && k < |groups|
    ensures var w2 := RevokeAll(svc, w1, groups).0;
      var w3 := DeleteAll(svc, w2, groups).0;
      var id := groups[k].id;
      id !in w3.groups <==>
        && Effective(svc, w2.tick + k) && !Worn(w1, id)
        && forall h :: h in w1.groups && h != id && StillRefers(svc, w1, groups, h, id) ==> WentBefore(w3, groups, k, h)
  {
    hide RevokeAll, DeleteAll, StillRefers, WentBefore;
    var w2 := RevokeAll(svc, w1, groups).0;
    var w3 := DeleteAll(svc, w2, groups).0;
    var id := groups[k].id;
    RevokeFrame(svc, w1, groups);
    DeleteExact(svc, w2, groups, k);
    forall h | h in w1.groups ensures StillRefers(svc, w1, groups, h, id) <==> RefersTo(w2.groups[h], id) {
      StillRefersExact(svc, w1, groups, h, id);
    }
  }

  lemma RevokeUntouched(svc: Service, w1: World, groups: seq<GroupView>)
    ensures var w2 := RevokeAll(svc, w1, groups).0;
      forall h :: h in w1.groups && h !in GroupIds(groups) ==> h in w2.groups && w2.groups[h] == w1.groups[h]
  {
    hide RevokeAll;
    RevokeFrame(svc, w1, groups);
  }

  lemma StillRefersExact(svc: Service, w1: World, groups: seq<GroupView>, h: Id, id: Id)
    requires Describes(w1, groups) && h in w1.groups
    ensures var w2 := RevokeAll(svc, w1, groups).0;
      h in w2.groups && (StillRefers(svc, w1, groups, h, id) <==> RefersTo(w2.groups[h], id))
  {
    hide RevokeAll, RefersTo, Left, GroupStep;
    RevokeUntouched(svc, w1, groups);
    if h in GroupIds(groups) {
      var g :| g in groups && g.id == h;
      var i :| 0 <= i < |groups| && groups[i] == g;
      RevokeExact(svc, w1, groups, i);
      assert forall j :: 0 <= j < |groups| && groups[j].id == h ==> j == i;
    }
  }

  /** x is still referred to, after the revoke pass, by another member. */
  ghost predicate StillHeld(svc: Service, w1: World, groups: seq<GroupView>, knot: set<Id>, x: Id) {
    exists y :: y in knot && y in w1.groups && y != x && StillRefers(svc, w1, groups, y, x)
  }

  /**
   Groups on an unrevoked cycle always stay: a set of groups each of which another member still refers
   to after the revoke pass survives both passes, under every weather.
   */
  lemma UnrevokedKnotSurvives(svc: Service, w1: World, groups: seq<GroupView>, knot: set<Id>)
    requires Describes(w1, groups) && knot <= w1.groups.Keys
    requires forall x {:trigger StillHeld(svc, w1, groups, knot, x)} ::
      x in knot ==> StillHeld(svc, w1, groups, knot, x)
    ensures knot <= DeleteAll(svc, RevokeAll(svc, w1, groups).0, groups).0.groups.Keys
  {
    hide RevokeAll, DeleteAll, StillRefers, RefersTo;
    var w2 := RevokeAll(svc, w1, groups).0;
    RevokeFrame(svc, w1, groups);
    forall x | x in knot ensures Held(w2, knot, x) {
      assert StillHeld(svc, w1, groups, knot, x);
      var y :| y in knot && y in w1.groups && y != x && StillRefers(svc, w1, groups, y, x);
      StillRefersExact(svc, w1, groups, y, x);
    }
    KnotStays(svc, w2, groups, knot);
  }

  /** A reference cycle, given as the groups in order: each refers to the next, the last to the first. */
  ghost predicate Cycle(w: World, path: seq<Id>) {
    && 2 <= |path|
    && (forall i :: 0 <= i < |path| ==> path[i] in w.groups)
    && (forall i, j :: 0 <= i < j < |path| ==> path[i] != path[j])
    && (forall i :: 0 < i < |path| ==> RefersTo(w.groups[path[i - 1]], path[i]))
    && RefersTo(w.groups[path[|path| - 1]], path[0])
  }

  lemma CycleIsKnot(w: World, path: seq<Id>)
    requires Cycle(w, path)
    ensures Knot(w, set id | id in path)
  {
    hide RefersTo;
    var knot := set id | id in path;
    forall x | x in knot ensures Held(w, knot, x) {
      var i :| 0 <= i < |path| && path[i] == x;
      var y := if i == 0 then path[|path| - 1] else path[i - 1];
      assert y in knot && y != x && RefersTo(w.groups[y], x);
    }
  }
}
