/** The interface phase when the service honours every call: it can fail in one way only. */
module VpcFair {
  import opened Ec2World
  import opened VpcCleanup
  import opened VpcListings
  import opened VpcEnis

  /** Calls are honoured, never slower than `slow`, and a detach settles within the wait budget. */
  ghost predicate Fair(sky: Weather, t: Timing, slow: nat) {
    && sky.fate == Honoured && !sky.cancel && sky.lag <= slow
    && sky.settle + t.interval + slow <= t.timeout
  }

  ghost predicate FairFrom(svc: Service, t: Timing, slow: nat, tick: nat) {
    && 0 < t.retries
    && forall k :: tick <= k ==> Fair(svc.weather(k), t, slow)
  }

  lemma {:induction false} FairFetch<T>(svc: Service, t: Timing, slow: nat, w: World, op: Op, vpc: Id, ids: seq<Id>,
                                        view: (World, Id) -> T)
    requires FairFrom(svc, t, slow, w.tick)
    ensures Fetch(svc, w, op, vpc, ids, view).1.Some?
    decreases |ids|
  {
    var n := PageLength(svc.weather(w.tick), ids);
    if n < |ids| {
      FairFetch(svc, t, slow, Answer(svc, w, op, vpc, Ok), op, vpc, ids[n..], view);
    }
  }

  lemma {:induction false} FairAwait(svc: Service, t: Timing, slow: nat, w: World, id: Id, deadline: nat)
    requires FairFrom(svc, t, slow, w.tick)
    requires w.clock <= deadline
    requires id in w.enis ==> w.enis[id].link.Detaching? && w.enis[id].link.until + t.interval + slow <= deadline
    ensures var (w', r) := Await(svc, t, w, id, deadline);
      r.Nil? && (id in w'.enis ==> Available(w'.enis[id], w'.clock))
    decreases deadline + 1 - w.clock
  {
    var (w1, s) := Poll(svc, w, id);
    if s == Busy {
      FairAwait(svc, t, slow, Pause(w1, t.interval), id, deadline);
    }
  }

  lemma FairClear(svc: Service, t: Timing, slow: nat, w: World, eni: EniView)
    requires FairFrom(svc, t, slow, w.tick)
    requires if eni.attached then eni.id in w.enis && ShowsAttachment(w.enis[eni.id], w.clock)
             else eni.id in w.enis ==> Available(w.enis[eni.id], w.clock)
    ensures ClearEni(svc, t, w, eni).1.Nil?
  {
    if eni.attached {
      var (w1, reply) := Detach(svc, w, eni.id);
      FairAwait(svc, t, slow, w1, eni.id, w1.clock + t.timeout);
      AwaitFrame(svc, t, w1, eni.id, w1.clock + t.timeout);
    }
  }

  // ----- One interface after the other -----

  /** What a listing said about an interface, some time later: an attachment may be gone by then. */
  ghost predicate Seen(w: World, eni: EniView) {
    && eni.id in w.enis
    && (if eni.attached then w.enis[eni.id].link == Attached(true) || w.enis[eni.id].link.Detaching?
        else Available(w.enis[eni.id], w.clock))
  }

  /** The world in which the turn of the i-th listed interface comes. */
  function Turn(svc: Service, t: Timing, w: World, enis: seq<EniView>, i: nat): World
    requires i <= |enis|
  {
    Drain(svc, t, w, enis[..i]).0
  }

  /** What was listed as attached is still attached when its turn comes. */
  ghost predicate OnTime(svc: Service, t: Timing, w: World, enis: seq<EniView>, i: nat)
    requires i < |enis|
  {
    enis[i].attached ==>
      enis[i].id in w.enis && ShowsAttachment(w.enis[enis[i].id], Turn(svc, t, w, enis, i).clock)
  }

  /** The run stopped at an interface whose left-over detachment had completed before its turn. */
  ghost predicate Overtaken(w: World, w': World, r: Outcome, enis: seq<EniView>) {
    exists k :: 0 <= k < |enis| && Late(w, w', r, enis[k])
  }

  ghost predicate Late(w: World, w': World, r: Outcome, eni: EniView) {
    && r == Err(DetachFailed(eni.id)) && eni.attached
    && eni.id in w.enis && w.enis[eni.id].link.Detaching?
    && eni.id in w'.enis && w'.enis[eni.id] == w.enis[eni.id]
    && w.enis[eni.id].link.until <= w'.clock
  }

  lemma SeenRest(w: World, w1: World, enis: seq<EniView>)
    requires enis != [] && Distinct(IdSeq(enis)) && EniStep(w, w1, {enis[0].id})
    requires forall i :: 0 <= i < |enis| ==> Seen(w, enis[i])
    ensures Distinct(IdSeq(enis[1..]))
    ensures forall i :: 0 <= i < |enis[1..]| ==> Seen(w1, enis[1..][i])
    ensures forall i :: 0 < i < |enis| ==> enis[i].id in w1.enis && w1.enis[enis[i].id] == w.enis[enis[i].id]
  {
    var ids := IdSeq(enis);
    assert IdSeq(enis[1..]) == ids[1..];
    forall i | 0 < i < |enis|
      ensures enis[i].id in w1.enis && w1.enis[enis[i].id] == w.enis[enis[i].id] && Seen(w1, enis[i])
    {
      assert ids[i] != ids[0];
    }
    assert forall i :: 0 <= i < |enis[1..]| ==> enis[1..][i] == enis[i + 1];
  }

  lemma OnTimeRest(svc: Service, t: Timing, w: World, enis: seq<EniView>, i: nat)
    requires 0 < i < |enis|
    requires ClearEni(svc, t, w, enis[0]).1.Nil?
    requires var w1 := ClearEni(svc, t, w, enis[0]).0;
      enis[i].id in w.enis && enis[i].id in w1.enis && w1.enis[enis[i].id] == w.enis[enis[i].id]
    ensures var w1 := ClearEni(svc, t, w, enis[0]).0;
      OnTime(svc, t, w, enis, i) <==> OnTime(svc, t, w1, enis[1..], i - 1)
  {
    hide ClearEni;
    assert enis[..i][1..] == enis[1..][..i - 1];
  }

  lemma AllOnTimeRest(svc: Service, t: Timing, w: World, enis: seq<EniView>)
    requires enis != [] && ClearEni(svc, t, w, enis[0]).1.Nil? && OnTime(svc, t, w, enis, 0)
    requires var w1 := ClearEni(svc, t, w, enis[0]).0;
      forall i :: 0 < i < |enis| ==>
        enis[i].id in w.enis && enis[i].id in w1.enis && w1.enis[enis[i].id] == w.enis[enis[i].id]
    ensures var w1 := ClearEni(svc, t, w, enis[0]).0;
      (forall i :: 0 <= i < |enis| ==> OnTime(svc, t, w, enis, i)) <==>
      (forall j :: 0 <= j < |enis[1..]| ==> OnTime(svc, t, w1, enis[1..], j))
  {
    hide ClearEni, OnTime;
    var w1 := ClearEni(svc, t, w, enis[0]).0;
    if forall i :: 0 <= i < |enis| ==> OnTime(svc, t, w, enis, i) {
      forall j | 0 <= j < |enis[1..]| ensures OnTime(svc, t, w1, enis[1..], j) {
        OnTimeRest(svc, t, w, enis, j + 1);
      }
    }
    if forall j :: 0 <= j < |enis[1..]| ==> OnTime(svc, t, w1, enis[1..], j) {
      forall i | 0 <= i < |enis| ensures OnTime(svc, t, w, enis, i) {
        if i != 0 {
          OnTimeRest(svc, t, w, enis, i);
        }
      }
    }
  }

  /** Fault-free, all listed interfaces are cleared exactly when each is on time. */
  lemma {:induction false} FairDrain(svc: Service, t: Timing, slow: nat, w: World, enis: seq<EniView>)
    requires FairFrom(svc, t, slow, w.tick)
    requires Distinct(IdSeq(enis))
    requires forall i :: 0 <= i < |enis| ==> Seen(w, enis[i])
    ensures var (w', r) := Drain(svc, t, w, enis);
      && (r.Nil? <==> forall i :: 0 <= i < |enis| ==> OnTime(svc, t, w, enis, i))
      && (r.Err? ==> Overtaken(w, w', r, enis))
    decreases |enis|
  {
    hide ClearEni, OnTime, Fair;
    if enis != [] {
      var (w1, r1) := ClearEni(svc, t, w, enis[0]);
      ClearFrame(svc, t, w, enis[0]);
      FairTurn(svc, t, slow, w, enis);
      if r1.Nil? {
        SeenRest(w, w1, enis);
        FairDrain(svc, t, slow, w1, enis[1..]);
        AllOnTimeRest(svc, t, w, enis);
      } else {
        assert Late(w, w1, r1, enis[0]);
      }
    }
  }

  /** The first interface's turn comes at once. */
  lemma FairTurn(svc: Service, t: Timing, slow: nat, w: World, enis: seq<EniView>)
    requires FairFrom(svc, t, slow, w.tick)
    requires enis != [] && Seen(w, enis[0])
    ensures var (w', r) := ClearEni(svc, t, w, enis[0]);
      && (r.Nil? <==> OnTime(svc, t, w, enis, 0))
      && (r.Err? ==> Late(w, w', r, enis[0]))
  {
    assert enis[..0] == [];
    if OnTime(svc, t, w, enis, 0) {
      FairClear(svc, t, slow, w, enis[0]);
    }
  }

  // ----- The interface phase -----

  /** The interfaces of the VPC that are mid-detach. */
  ghost function MidDetach(w: World, vpc: Id): set<Id> {
    set id | id in w.enis && w.enis[id].vpc == vpc && InFlight(w.enis[id], w.clock)
  }

  /** No interface of the VPC is mid-detach. */
  ghost predicate Quiet(w: World, vpc: Id) {
    forall id :: id in w.enis && w.enis[id].vpc == vpc ==> !InFlight(w.enis[id], w.clock)
  }

  /** No interface of the VPC hangs on an attachment without an id, which the cleanup cannot detach. */
  ghost predicate Detachable(w: World, vpc: Id) {
    forall id :: id in w.enis && w.enis[id].vpc == vpc ==> w.enis[id].link != Attached(false)
  }

  /**
   No detachment left over from an earlier run completes between the listing and the turn of its
   interface.  One that does leaves the detach call with an attachment that no longer exists, which is
   the one way in which a fault-free service fails this phase.
   */
  ghost predicate AllOnTime(svc: Service, t: Timing, w: World, vpc: Id) {
    var (w1, listed) := Fetch(svc, w, ListEnis, vpc, Ids(EniKind, w, vpc, svc.order), ViewEni);
    listed.Some? && forall i :: 0 <= i < |listed.value| ==> OnTime(svc, t, w1, listed.value, i)
  }

  lemma SeenAtListing(svc: Service, w: World, vpc: Id)
    requires Detachable(w, vpc)
    ensures var (w1, listed) := Fetch(svc, w, ListEnis, vpc, Ids(EniKind, w, vpc, svc.order), ViewEni);
      listed.Some? ==> forall i :: 0 <= i < |listed.value| ==>
        && Seen(w1, listed.value[i])
        && InVpc(EniKind, w, listed.value[i].id, vpc)
        && (listed.value[i].attached ==> ShowsAttachment(w.enis[listed.value[i].id], w.clock))
  {
    hide Fetch;
    var ids := Ids(EniKind, w, vpc, svc.order);
    var (w1, listed) := Fetch(svc, w, ListEnis, vpc, ids, ViewEni);
    ListedEnis(svc, w, vpc);
    FetchEnis(svc, w, vpc, ids);
    if listed.Some? {
      assert forall i :: 0 <= i < |ids| ==> ids[i] in ids && listed.value[i].id == ids[i];
    }
  }

  /**
   Fault-free, the interface phase succeeds exactly when every interface is on time, however many
   detachments are in flight; when it fails, strictly fewer are in flight than before.
   */
  lemma FairEnis(svc: Service, t: Timing, slow: nat, w: World, vpc: Id)
    requires FairFrom(svc, t, slow, w.tick)
    requires Distinct(svc.order) && Detachable(w, vpc)
    ensures var (w', r) := CleanEnis(svc, t, w, vpc);
      && (r.Nil? <==> AllOnTime(svc, t, w, vpc))
      && (r.Err? ==> MidDetach(w', vpc) < MidDetach(w, vpc))
  {
    hide Fetch, OnTime, Fair, Drain;
    var ids := Ids(EniKind, w, vpc, svc.order);
    var (w1, listed) := Fetch(svc, w, ListEnis, vpc, ids, ViewEni);
    FairFetch(svc, t, slow, w, ListEnis, vpc, ids, ViewEni);
    ListedEnis(svc, w, vpc);
    IdsDistinct(EniKind, w, vpc, svc.order);
    SeenAtListing(svc, w, vpc);
    FairDrain(svc, t, slow, w1, listed.value);
    var (w', r) := Drain(svc, t, w1, listed.value);
    if r.Err? {
      FewerInFlight(svc, t, w, w1, vpc, listed.value);
    }
  }

  lemma FewerInFlight(svc: Service, t: Timing, w: World, w1: World, vpc: Id, enis: seq<EniView>)
    requires EniStep(w, w1, {}) && Distinct(IdSeq(enis))
    requires forall i :: 0 <= i < |enis| ==>
      && InVpc(EniKind, w, enis[i].id, vpc)
      && (enis[i].attached ==> ShowsAttachment(w.enis[enis[i].id], w.clock))
    requires var (w', r) := Drain(svc, t, w1, enis); r.Err? && Overtaken(w1, w', r, enis)
    ensures MidDetach(Drain(svc, t, w1, enis).0, vpc) < MidDetach(w, vpc)
  {
    hide Drain;
    var (w', r) := Drain(svc, t, w1, enis);
    var ids := IdSeq(enis);
    var m :| 0 <= m < |enis| && Late(w1, w', r, enis[m]);
    var k := DrainPrefix(svc, t, w1, enis);
    DrainFrame(svc, t, w1, enis);
    assert ids[k] == ids[m];
    forall id | id in MidDetach(w', vpc) ensures id in MidDetach(w, vpc) {
      if id in ViewIds(enis) {
        var v :| v in enis && v.id == id;
        var j :| 0 <= j < |enis| && enis[j] == v;
        assert ids[j] == id;
        assert k < j;
      }
    }
    assert enis[m].id in MidDetach(w, vpc) && enis[m].id !in MidDetach(w', vpc);
  }

  // ----- The special case that histories lead to -----

  /** Apart from some given interfaces, at most the first listed one of the VPC is mid-detach. */
  ghost predicate Orderly(svc: Service, w: World, vpc: Id, others: set<Id>) {
    var ids := Ids(EniKind, w, vpc, svc.order);
    forall id :: id in w.enis && w.enis[id].vpc == vpc && InFlight(w.enis[id], w.clock) ==>
      id in others || (ids != [] && id == ids[0])
  }

  lemma OrderlyCount(svc: Service, w: World, vpc: Id, others: set<Id>)
    requires Orderly(svc, w, vpc, others)
    ensures |MidDetach(w, vpc)| <= |others| + 1
  {
    var ids := Ids(EniKind, w, vpc, svc.order);
    var first := if ids == [] then {} else {ids[0]};
    SubsetCount(MidDetach(w, vpc), others + first);
    assert |others + first| <= |others| + |first|;
  }

  lemma SubsetCount(a: set<Id>, b: set<Id>)
    requires a <= b
    ensures |a| <= |b|
  {
    assert b == a + (b - a) && a !! (b - a);
  }

  /** The first listed interface's detachment completes while the listing is answered. */
  ghost predicate Raced(svc: Service, w: World, vpc: Id) {
    var ids := Ids(EniKind, w, vpc, svc.order);
    && ids != []
    && ids[0] in w.enis
    && InFlight(w.enis[ids[0]], w.clock)
    && w.enis[ids[0]].link.until <= Fetch(svc, w, ListEnis, vpc, ids, ViewEni).0.clock
  }

  /** With at most the first listed interface mid-detach, only that race can make one late. */
  lemma OrderlyOnTime(svc: Service, t: Timing, slow: nat, w: World, vpc: Id)
    requires FairFrom(svc, t, slow, w.tick)
    requires Distinct(svc.order) && Detachable(w, vpc) && Orderly(svc, w, vpc, {})
    ensures AllOnTime(svc, t, w, vpc) <==> !Raced(svc, w, vpc)
  {
    hide Fetch, Fair, Drain;
    var ids := Ids(EniKind, w, vpc, svc.order);
    var (w1, listed) := Fetch(svc, w, ListEnis, vpc, ids, ViewEni);
    FairFetch(svc, t, slow, w, ListEnis, vpc, ids, ViewEni);
    ListedEnis(svc, w, vpc);
    FetchEnis(svc, w, vpc, ids);
    IdsDistinct(EniKind, w, vpc, svc.order);
    var enis := listed.value;
    forall i | 0 <= i < |enis|
      ensures OnTime(svc, t, w1, enis, i) <==> (i == 0 ==> !Raced(svc, w, vpc))
    {
      assert ids[i] in ids && enis[i].id == ids[i] && (i != 0 ==> ids[i] != ids[0]);
      if i == 0 {
        FirstTurn(svc, t, w1, enis);
      }
    }
    assert |enis| == |ids|;
    assert enis != [] ==> (OnTime(svc, t, w1, enis, 0) <==> !Raced(svc, w, vpc));
  }

  lemma FirstTurn(svc: Service, t: Timing, w: World, enis: seq<EniView>)
    ensures Turn(svc, t, w, enis, 0) == w
  {
    assert enis[..0] == [];
  }

  lemma QuietIsOrderly(svc: Service, w: World, vpc: Id)
    requires Quiet(w, vpc)
    ensures Orderly(svc, w, vpc, {}) && !Raced(svc, w, vpc) && MidDetach(w, vpc) == {}
  {
    IdsMembers(EniKind, w, vpc, svc.order);
    var ids := Ids(EniKind, w, vpc, svc.order);
    assert ids == [] || ids[0] in ids;
  }
}
