/** What a run does and reports, read off its calls, under every weather. */
module VpcTrace {
  import opened Ec2World
  import opened VpcCleanup
  import opened VpcListings
  import opened VpcEnis
  import opened VpcGroups
  import opened VpcSubnets
  import opened VpcTiming
  import opened VpcRuns
  import Polling

  /** All calls between the two worlds are this one. */
  ghost predicate OnlyCalls(w: World, w': World, op: Op, id: Id) {
    && w.log <= w'.log
    && (forall i :: |w.log| <= i < |w'.log| ==> w'.log[i].op == op && w'.log[i].id == id)
  }

  // ----- One interface -----

  /**
   Status calls for one interface, from the end of its detach call on: the first decisive status within
   the timeout gives the result.
   */
  ghost predicate Waited(svc: Service, t: Timing, w: World, w': World, id: Id, result: Polling.Result<Why>) {
    && OnlyCalls(w, w', PollEni, id) && SameResources(w, w')
    && Polling.FirstDecisive(PollScript(svc, t, w, id), w.clock, w.clock + t.timeout, t.interval,
                             |w'.log| - |w.log|, result, w'.clock)
  }

  /** The error of a wait that did not find the interface available. */
  ghost predicate WaitError(r: Outcome, id: Id, result: Polling.Result<Why>) {
    && r.Err? && r.error.WaitFailed? && r.error.id == id
    && match result
       case Done => false
       case TimedOut => r.error.why == Why.TimedOut
       case Cancelled => r.error.why == Why.Cancelled
       case Error(why) => r.error.why == why
  }

  /** Delete calls for one interface, up to the first that succeeds, within the retry budget. */
  ghost predicate Deleted(svc: Service, t: Timing, w: World, w': World, r: Outcome, id: Id) {
    var calls := |w'.log| - |w.log|;
    && OnlyCalls(w, w', RemoveEni, id)
    && calls <= t.retries && (0 < t.retries ==> 0 < calls)
    && (forall i :: |w.log| <= i < |w'.log| - 1 ==> w'.log[i].reply == Failed)
    && (if 0 < calls && w'.log[|w'.log| - 1].reply != Failed then r == Nil
        else if calls == t.retries then r == Err(DeleteFailed(id, Exhausted))
        else svc.weather(w.tick + calls - 1).cancel && r == Err(DeleteFailed(id, Why.Cancelled)))
  }

  /**
   The calls for one listed interface, and their outcome.  One listed as attached is detached, then
   waited for, and deleted only if the wait found it available; one listed as unattached is deleted.
   */
  ghost predicate Cleared(svc: Service, t: Timing, w: World, w': World, r: Outcome, eni: EniView) {
    if !eni.attached then Deleted(svc, t, w, w', r, eni.id)
    else
      var (w1, reply) := Detach(svc, w, eni.id);
      if reply != Ok then w' == w1 && r == Err(DetachFailed(eni.id))
      else exists w2, result :: WaitedAndDeleted(svc, t, w1, w2, w', result, r, eni.id)
  }

  ghost predicate WaitedAndDeleted(svc: Service, t: Timing, w1: World, w2: World, w': World,
                                   result: Polling.Result<Why>, r: Outcome, id: Id) {
    && Waited(svc, t, w1, w2, id, result)
    && (if result == Polling.Done then Deleted(svc, t, w2, w', r, id)
        else w' == w2 && WaitError(r, id, result))
  }

  lemma ExpungeDeletes(svc: Service, t: Timing, w: World, id: Id)
    ensures var (w', r) := Expunge(svc, t, w, id, 0); Deleted(svc, t, w, w', r, id)
  {
    if 0 < t.retries {
      hide Expunge;
      ExpungeCalls(svc, t, w, id, 0);
      ExpungeLog(svc, t, w, id, 0);
    }
  }

  lemma {:induction false} AwaitLog(svc: Service, t: Timing, w: World, id: Id, deadline: nat)
    ensures OnlyCalls(w, Await(svc, t, w, id, deadline).0, PollEni, id)
    decreases deadline + 1 - w.clock
  {
    if w.clock <= deadline {
      var (w1, s) := Poll(svc, w, id);
      if s == Busy && !Interrupted(svc, w1) {
        AwaitLog(svc, t, Pause(w1, t.interval), id, deadline);
      }
    }
  }

  lemma AwaitWaits(svc: Service, t: Timing, w: World, id: Id)
    ensures var (w', r) := Await(svc, t, w, id, w.clock + t.timeout);
      && Waited(svc, t, w, w', id, WaitResult(r))
      && (r.Nil? <==> WaitResult(r) == Polling.Done)
      && (r.Err? ==> WaitError(r, id, WaitResult(r)))
  {
    hide Await, Polling.FirstDecisive;
    AwaitLog(svc, t, w, id, w.clock + t.timeout);
    AwaitFrame(svc, t, w, id, w.clock + t.timeout);
    AwaitPolls(svc, t, w, id, w.clock + t.timeout);
    AwaitBlames(svc, t, w, id, w.clock + t.timeout);
  }

  lemma ClearedBy(svc: Service, t: Timing, w: World, eni: EniView)
    ensures var (w', r) := ClearEni(svc, t, w, eni); Cleared(svc, t, w, w', r, eni)
  {
    hide Await, Expunge, Detach, Waited, Deleted, WaitError;
    if eni.attached {
      var (w1, reply) := Detach(svc, w, eni.id);
      var (w2, r) := Await(svc, t, w1, eni.id, w1.clock + t.timeout);
      AwaitWaits(svc, t, w1, eni.id);
      ExpungeDeletes(svc, t, w2, eni.id);
      var (w', r') := ClearEni(svc, t, w, eni);
      assert reply == Ok ==> WaitedAndDeleted(svc, t, w1, w2, w', WaitResult(r), r', eni.id);
    } else {
      ExpungeDeletes(svc, t, w, eni.id);
    }
  }

  // ----- The interface phase -----

  /** One interface after the other in listing order, up to the first that fails; no call after that one. */
  ghost predicate Course(svc: Service, t: Timing, at: seq<World>, r: Outcome, enis: seq<EniView>) {
    && 0 < |at| <= |enis| + 1
    && (if r.Nil? then |at| == |enis| + 1 else 1 < |at|)
    && (forall i :: 0 <= i < |at| - 1 ==>
          Cleared(svc, t, at[i], at[i + 1], if i == |at| - 2 then r else Nil, enis[i]))
  }

  lemma {:induction false} DrainCourse(svc: Service, t: Timing, w: World, enis: seq<EniView>) returns (at: seq<World>)
    ensures var (w', r) := Drain(svc, t, w, enis);
      Course(svc, t, at, r, enis) && Leads(at, w, w')
    decreases |enis|
  {
    at := [w];
    if enis != [] {
      hide Cleared, ClearEni;
      var (w1, r1) := ClearEni(svc, t, w, enis[0]);
      ClearedBy(svc, t, w, enis[0]);
      if r1.Err? {
        at := [w, w1];
      } else {
        var rest := DrainCourse(svc, t, w1, enis[1..]);
        at := [w] + rest;
      }
    }
  }

  /** What the interface phase does from world w to w' and what it returns. */
  ghost predicate EniPhase(svc: Service, t: Timing, w: World, w': World, r: Outcome, vpc: Id) {
    var (w1, listed) := Fetch(svc, w, ListEnis, vpc, Ids(EniKind, w, vpc, svc.order), ViewEni);
    if listed.None? then w' == w1 && r == Err(ListingFailed(ListEnis))
    else exists at :: Leads(at, w1, w') && Course(svc, t, at, r, listed.value)
  }

  ghost predicate Leads(at: seq<World>, w: World, w': World) {
    at != [] && at[0] == w && at[|at| - 1] == w'
  }

  /** Under every weather the phase follows that course. */
  lemma EniTrace(svc: Service, t: Timing, w: World, vpc: Id)
    ensures var (w', r) := CleanEnis(svc, t, w, vpc); EniPhase(svc, t, w, w', r, vpc)
  {
    hide Course, Drain, Fetch;
    var (w1, listed) := Fetch(svc, w, ListEnis, vpc, Ids(EniKind, w, vpc, svc.order), ViewEni);
    if listed.Some? {
      var at := DrainCourse(svc, t, w1, listed.value);
    }
  }

  lemma ClearedGrows(svc: Service, t: Timing, w: World, w': World, r: Outcome, eni: EniView)
    requires Cleared(svc, t, w, w', r, eni)
    ensures w.log <= w'.log
  {
    hide Polling.FirstDecisive;
    if eni.attached && Detach(svc, w, eni.id).1 == Ok {
      var w1 := Detach(svc, w, eni.id).0;
      var w2, result :| WaitedAndDeleted(svc, t, w1, w2, w', result, r, eni.id);
    }
  }

  /**
   A delete call for an interface listed as attached comes only after its detach call was acknowledged
   and the status calls from the end of that call on found it available.
   */
  ghost predicate DueDelete(svc: Service, t: Timing, w: World, eni: EniView, log: seq<Event>, i: nat) {
    && i < |log| && log[i].id == eni.id
    && (eni.attached ==>
          var (w1, reply) := Detach(svc, w, eni.id);
          reply == Ok && exists w2 ::
            Waited(svc, t, w1, w2, eni.id, Polling.Done) && w2.log <= log && |w2.log| <= i)
  }

  lemma ClearedDeletes(svc: Service, t: Timing, w: World, w': World, r: Outcome, eni: EniView, i: nat)
    requires Cleared(svc, t, w, w', r, eni)
    requires |w.log| <= i < |w'.log| && w'.log[i].op == RemoveEni
    ensures DueDelete(svc, t, w, eni, w'.log, i)
  {
    hide Polling.FirstDecisive;
    if eni.attached {
      var (w1, reply) := Detach(svc, w, eni.id);
      assert w1.log == w.log + [Event(DetachEni, eni.id, reply)];
      if reply == Ok {
        var w2, result :| WaitedAndDeleted(svc, t, w1, w2, w', result, r, eni.id);
        assert w2.log[|w.log|] == w1.log[|w.log|];
      }
    }
  }

  lemma {:induction false} CourseDeletes(svc: Service, t: Timing, at: seq<World>, r: Outcome, enis: seq<EniView>,
                                         n: nat, i: nat) returns (k: nat)
    requires Course(svc, t, at, r, enis) && n < |at|
    requires |at[0].log| <= i < |at[n].log| && at[n].log[i].op == RemoveEni
    ensures k < n && at[k].log <= at[n].log && DueDelete(svc, t, at[k], enis[k], at[n].log, i)
  {
    hide Cleared, Waited, Detach;
    var r1 := if n - 1 == |at| - 2 then r else Nil;
    ClearedGrows(svc, t, at[n - 1], at[n], r1, enis[n - 1]);
    if i < |at[n - 1].log| {
      assert at[n].log[i] == at[n - 1].log[i];
      k := CourseDeletes(svc, t, at, r, enis, n - 1, i);
    } else {
      k := n - 1;
      ClearedDeletes(svc, t, at[n - 1], at[n], r1, enis[n - 1], i);
    }
  }

  /** Every delete call of the phase is due. */
  lemma NoEarlyDelete(svc: Service, t: Timing, w: World, vpc: Id, i: nat) returns (before: World, eni: EniView)
    requires |w.log| <= i < |CleanEnis(svc, t, w, vpc).0.log|
    requires CleanEnis(svc, t, w, vpc).0.log[i].op == RemoveEni
    ensures var listed := Fetch(svc, w, ListEnis, vpc, Ids(EniKind, w, vpc, svc.order), ViewEni).1;
      listed.Some? && eni in listed.value
    ensures var log := CleanEnis(svc, t, w, vpc).0.log;
      before.log <= log && DueDelete(svc, t, before, eni, log, i)
  {
    hide CleanEnis, DueDelete, Course, Fetch;
    EniTrace(svc, t, w, vpc);
    var ids := Ids(EniKind, w, vpc, svc.order);
    var (w', r) := CleanEnis(svc, t, w, vpc);
    var (w1, listed) := Fetch(svc, w, ListEnis, vpc, ids, ViewEni);
    FetchFrame(svc, w, ListEnis, vpc, ids, ViewEni);
    var at :| Leads(at, w1, w') && Course(svc, t, at, r, listed.value);
    CourseBounds(svc, t, at, r, listed.value);
    CourseGrows(svc, t, at, r, listed.value, |at| - 1);
    assert forall j :: |w.log| <= j < |w1.log| ==> w'.log[j] == w1.log[j];
    var k := CourseDeletes(svc, t, at, r, listed.value, |at| - 1, i);
    before, eni := at[k], listed.value[k];
  }

  lemma CourseBounds(svc: Service, t: Timing, at: seq<World>, r: Outcome, enis: seq<EniView>)
    requires Course(svc, t, at, r, enis)
    ensures 0 < |at| <= |enis| + 1
  {
  }

  lemma {:induction false} CourseGrows(svc: Service, t: Timing, at: seq<World>, r: Outcome, enis: seq<EniView>, n: nat)
    requires Course(svc, t, at, r, enis) && n < |at|
    ensures at[0].log <= at[n].log
  {
    if n != 0 {
      hide Cleared;
      CourseGrows(svc, t, at, r, enis, n - 1);
      ClearedGrows(svc, t, at[n - 1], at[n], if n - 1 == |at| - 2 then r else Nil, enis[n - 1]);
    }
  }

  // ----- What a run returns -----

  /** The error of a run whose last call concerns one interface tells the kind of that call and the interface. */
  ghost predicate BlamesCall(t: Timing, last: Event, r: Outcome) {
    match last.op
    case DetachEni => last.reply != Ok && r == Err(DetachFailed(last.id))
    case PollEni =>
      && r.Err?
      && ((r.error.WaitFailed? && r.error.id == last.id)
          || (t.retries == 0 && r == Err(DeleteFailed(last.id, Exhausted))))
    case RemoveEni => last.reply == Failed && r.Err? && r.error.DeleteFailed? && r.error.id == last.id
    case _ => false
  }

  /** Without any retries the first interface, listed as unattached, is given up without a call. */
  ghost predicate GivenUp(t: Timing, r: Outcome, ids: seq<Id>) {
    t.retries == 0 && ids != [] && r == Err(DeleteFailed(ids[0], Exhausted))
  }

  /**
   What a run returns, read off its calls alone: a failed listing as the last call is reported as such;
   a run that ends with a group call reports exactly its revoke and group delete calls that were not
   acknowledged; one that ends with a subnet delete exactly its subnet deletes that were not; one that
   ends with a call for an interface blames that interface.
   */
  ghost predicate RunReport(t: Timing, w: World, w': World, r: Outcome, ids: seq<Id>) {
    && w.log <= w'.log && |w.log| < |w'.log|
    && var last := w'.log[|w'.log| - 1];
      match last.op
      case ListEnis => if last.reply == Ok then GivenUp(t, r, ids) else r == Err(ListingFailed(ListEnis))
      case ListGroups => last.reply != Ok && r == Err(ListingFailed(ListGroups))
      case ListSubnets => r == if last.reply == Ok then Nil else Err(ListingFailed(ListSubnets))
      case RevokeIngress => r.Err? && Collects(w, w', r, {RevokeIngress, RevokeEgress, RemoveGroup})
      case RevokeEgress => r.Err? && Collects(w, w', r, {RevokeIngress, RevokeEgress, RemoveGroup})
      case RemoveGroup => r.Err? && Collects(w, w', r, {RevokeIngress, RevokeEgress, RemoveGroup})
      case RemoveSubnet => Collects(w, w', r, {RemoveSubnet})
      case _ => BlamesCall(t, last, r)
  }

  /** Among all calls of the run, those of these operations that were not acknowledged make up the report. */
  ghost predicate Collects(w: World, w': World, r: Outcome, ops: set<Op>) {
    && (r.Nil? <==> forall i :: |w.log| <= i < |w'.log| && w'.log[i].op in ops ==> w'.log[i].reply == Ok)
    && (r.Err? ==> r.error.CallsFailed? && Failures(w'.log, |w.log|, ops, r.error.calls))
  }

  lemma ClearedLast(svc: Service, t: Timing, w: World, w': World, r: Outcome, eni: EniView)
    requires Cleared(svc, t, w, w', r, eni)
    ensures w.log <= w'.log
    ensures r.Nil? ==> 0 < t.retries
    ensures r.Err? && |w.log| < |w'.log| ==> BlamesCall(t, w'.log[|w'.log| - 1], r)
    ensures r.Err? && |w.log| == |w'.log| ==> t.retries == 0 && r == Err(DeleteFailed(eni.id, Exhausted))
  {
    hide Polling.FirstDecisive;
    ClearedGrows(svc, t, w, w', r, eni);
    if eni.attached && Detach(svc, w, eni.id).1 == Ok {
      var w1 := Detach(svc, w, eni.id).0;
      var w2, result :| WaitedAndDeleted(svc, t, w1, w2, w', result, r, eni.id);
      Polling.CallBound(PollScript(svc, t, w1, eni.id), w1.clock, w1.clock + t.timeout, t.interval,
                        |w2.log| - |w1.log|, result, w2.clock);
    }
  }

  lemma EniEnds(svc: Service, t: Timing, w: World, vpc: Id)
    requires CleanEnis(svc, t, w, vpc).1.Err?
    ensures var (w', r) := CleanEnis(svc, t, w, vpc); RunReport(t, w, w', r, Ids(EniKind, w, vpc, svc.order))
  {
    hide CleanEnis, Cleared, Fetch;
    var ids := Ids(EniKind, w, vpc, svc.order);
    var (w', r) := CleanEnis(svc, t, w, vpc);
    var (w1, listed) := Fetch(svc, w, ListEnis, vpc, ids, ViewEni);
    EniTrace(svc, t, w, vpc);
    FetchFrame(svc, w, ListEnis, vpc, ids, ViewEni);
    FetchOk(svc, w, ListEnis, vpc, ids, ViewEni);
    ListedEnis(svc, w, vpc);
    if listed.Some? {
      var enis := listed.value;
      var at: seq<World> :| Leads(at, w1, w') && Course(svc, t, at, r, enis);
      var n := |at| - 2;
      CourseGrows(svc, t, at, r, enis, n);
      ClearedLast(svc, t, at[n], w', r, enis[n]);
      if |at[n].log| == |w'.log| {
        if n != 0 {
          ClearedLast(svc, t, at[0], at[1], Nil, enis[0]);
        }
        assert IdSeq(enis)[0] == enis[0].id;
      }
    }
  }

  lemma FailuresEarlier(log: seq<Event>, from: nat, mid: nat, ops: set<Op>, calls: seq<Call>)
    requires Failures(log, mid, ops, calls)
    requires from <= mid && forall i :: from <= i < mid && i < |log| ==> log[i].op !in ops
    ensures Failures(log, from, ops, calls)
  {
    var at :| FailuresAt(log, mid, ops, calls, at);
    assert FailuresAt(log, from, ops, calls, at);
  }

  /** A collecting phase's report is one on the whole run when no call before it was one of its operations. */
  lemma TellsCollects(w: World, w1: World, w': World, r: Outcome, ops: set<Op>)
    requires w.log <= w1.log && Tells(w1, w', r, ops)
    requires forall i :: |w.log| <= i < |w1.log| ==> w1.log[i].op !in ops
    ensures Collects(w, w', r, ops)
    ensures r.Err? ==> |w1.log| < |w'.log| && w'.log[|w'.log| - 1].op in ops
  {
    hide Failures;
    assert forall i :: |w.log| <= i < |w1.log| ==> w'.log[i] == w1.log[i];
    if r.Err? {
      FailuresEarlier(w'.log, |w.log|, |w1.log|, ops, r.error.calls);
    }
  }

  lemma GroupEnds(svc: Service, t: Timing, w0: World, w: World, vpc: Id, ids: seq<Id>)
    requires w0.log <= w.log && OnlyOps(w0, w, ENI_OPS)
    requires CleanGroups(svc, w, vpc).1.Err?
    ensures var (w', r) := CleanGroups(svc, w, vpc); RunReport(t, w0, w', r, ids)
  {
    hide CleanGroups, Collects, Tells, Fetch;
    var (w', r) := CleanGroups(svc, w, vpc);
    var vpcIds := Ids(GroupKind, w, vpc, svc.order);
    var (w1, listed) := Fetch(svc, w, ListGroups, vpc, vpcIds, ViewGroup);
    GroupErrors(svc, w, vpc);
    FetchFrame(svc, w, ListGroups, vpc, vpcIds, ViewGroup);
    FetchOk(svc, w, ListGroups, vpc, vpcIds, ViewGroup);
    assert forall i :: |w0.log| <= i < |w.log| ==> w1.log[i] == w.log[i];
    if listed.Some? {
      TellsCollects(w0, w1, w', r, PASS_OPS);
    }
  }

  lemma SubnetEnds(svc: Service, t: Timing, w0: World, w: World, vpc: Id, ids: seq<Id>)
    requires w0.log <= w.log && forall i :: |w0.log| <= i < |w.log| ==> w.log[i].op != RemoveSubnet
    ensures var (w', r) := CleanSubnets(svc, w, vpc); RunReport(t, w0, w', r, ids)
  {
    hide CleanSubnets, Collects, Fetch;
    var (w', r) := CleanSubnets(svc, w, vpc);
    var vpcIds := Ids(SubnetKind, w, vpc, svc.order);
    var (w1, listed) := Fetch(svc, w, ListSubnets, vpc, vpcIds, ViewSubnet);
    SubnetErrors(svc, w, vpc);
    FetchFrame(svc, w, ListSubnets, vpc, vpcIds, ViewSubnet);
    FetchOk(svc, w, ListSubnets, vpc, vpcIds, ViewSubnet);
    assert forall i :: |w0.log| <= i < |w.log| ==> w1.log[i] == w.log[i];
    if listed.Some? {
      TellsCollects(w0, w1, w', r, {RemoveSubnet});
      if |w1.log| == |w'.log| {
        assert w'.log == w1.log;
      }
    }
  }

  /** Every run, under every weather, returns what its calls say. */
  lemma RunErrors(svc: Service, t: Timing, w: World, vpc: Id)
    ensures var (w', r) := Cleanup(svc, t, w, vpc); RunReport(t, w, w', r, Ids(EniKind, w, vpc, svc.order))
  {
    hide CleanEnis, CleanGroups, CleanSubnets, RunReport;
    var ids := Ids(EniKind, w, vpc, svc.order);
    var (w1, r1) := CleanEnis(svc, t, w, vpc);
    CleanEnisFrame(svc, t, w, vpc);
    if r1.Err? {
      EniEnds(svc, t, w, vpc);
    } else {
      var (w2, r2) := CleanGroups(svc, w1, vpc);
      GroupStages(svc, w1, vpc);
      if r2.Err? {
        GroupEnds(svc, t, w, w1, vpc, ids);
      } else {
        assert forall i :: |w.log| <= i < |w1.log| ==> w2.log[i] == w1.log[i];
        SubnetEnds(svc, t, w, w2, vpc, ids);
      }
    }
  }
}
