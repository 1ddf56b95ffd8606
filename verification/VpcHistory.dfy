/** Histories: any number of failing runs, then fault-free ones. */
module VpcHistory {
  import opened Ec2World
  import opened VpcCleanup
  import opened VpcListings
  import opened VpcEnis
  import opened VpcFair
  import opened VpcGroups
  import opened VpcRuns
  import opened VpcConvergence

  /** The world after one run per gap, each followed by a pause of that length. */
  function After(svc: Service, t: Timing, vpc: Id, w: World, gaps: seq<nat>): World
    decreases |gaps|
  {
    if gaps == [] then w
    else After(svc, t, vpc, Pause(Cleanup(svc, t, w, vpc).0, gaps[0]), gaps[1..])
  }

  // ----- A run leaves at most one more interface mid-detach: the one that is then listed first -----

  lemma {:induction false} SameIds(w: World, w': World, vpc: Id, order: seq<Id>)
    requires w'.enis == w.enis
    ensures Ids(EniKind, w', vpc, order) == Ids(EniKind, w, vpc, order)
  {
    if order != [] {
      SameIds(w, w', vpc, order[1..]);
    }
  }

  /** When all listed before the k-th have left the VPC, the k-th is now listed first. */
  lemma {:induction false} FirstAfter(w: World, w': World, vpc: Id, order: seq<Id>, k: nat)
    requires var ids := Ids(EniKind, w, vpc, order);
      && k < |ids|
      && InVpc(EniKind, w', ids[k], vpc)
      && forall j :: 0 <= j < k ==> !InVpc(EniKind, w', ids[j], vpc)
    requires forall id :: InVpc(EniKind, w', id, vpc) ==> InVpc(EniKind, w, id, vpc)
    ensures var ids' := Ids(EniKind, w', vpc, order); ids' != [] && ids'[0] == Ids(EniKind, w, vpc, order)[k]
  {
    var ids := Ids(EniKind, w, vpc, order);
    var rest := Ids(EniKind, w, vpc, order[1..]);
    if InVpc(EniKind, w, order[0], vpc) {
      assert ids == [order[0]] + rest;
      if k != 0 {
        assert !InVpc(EniKind, w', ids[0], vpc);
        assert forall j :: 0 <= j < |rest| ==> rest[j] == ids[j + 1];
        FirstAfter(w, w', vpc, order[1..], k - 1);
      }
    } else {
      assert ids == rest;
      FirstAfter(w, w', vpc, order[1..], k);
    }
  }

  lemma OrderlyLater(svc: Service, w: World, w': World, vpc: Id, others: set<Id>)
    requires Orderly(svc, w, vpc, others) && w'.enis == w.enis && w.clock <= w'.clock
    ensures Orderly(svc, w', vpc, others)
  {
    SameIds(w, w', vpc, svc.order);
  }

  lemma OrderlyEnis(svc: Service, t: Timing, w: World, vpc: Id, others: set<Id>)
    requires Distinct(svc.order) && Covers(svc, w) && Orderly(svc, w, vpc, others)
    ensures Orderly(svc, CleanEnis(svc, t, w, vpc).0, vpc, others)
  {
    hide CleanEnis;
    var ids := Ids(EniKind, w, vpc, svc.order);
    var (w1, r) := CleanEnis(svc, t, w, vpc);
    CleanEnisFrame(svc, t, w, vpc);
    var k := EniPrefix(svc, t, w, vpc);
    IdsMembers(EniKind, w, vpc, svc.order);
    IdsDistinct(EniKind, w, vpc, svc.order);
    if r.Err? && r.error.ListingFailed? {
      OrderlyLater(svc, w, w1, vpc, others);
    } else if r.Err? {
      forall id | id in w1.enis && w1.enis[id].vpc == vpc && InFlight(w1.enis[id], w1.clock)
        ensures id in others || (Ids(EniKind, w1, vpc, svc.order) != [] && id == Ids(EniKind, w1, vpc, svc.order)[0])
      {
        assert id in ids;
        var j :| 0 <= j < |ids| && ids[j] == id;
        if j == k {
          FirstAfter(w, w1, vpc, svc.order, k);
        }
      }
    }
  }

  lemma OrderlyRun(svc: Service, t: Timing, w: World, vpc: Id, others: set<Id>)
    requires Distinct(svc.order) && Covers(svc, w) && Orderly(svc, w, vpc, others)
    ensures Orderly(svc, Cleanup(svc, t, w, vpc).0, vpc, others)
  {
    hide CleanEnis, CleanGroups, CleanSubnets, Orderly;
    var (w1, r1) := CleanEnis(svc, t, w, vpc);
    OrderlyEnis(svc, t, w, vpc, others);
    if r1.Nil? {
      var (w2, r2) := CleanGroups(svc, w1, vpc);
      CleanGroupsFrame(svc, w1, vpc);
      OrderlyLater(svc, w1, w2, vpc, others);
      if r2.Nil? {
        VpcSubnets.CleanSubnetsFrame(svc, w2, vpc);
        OrderlyLater(svc, w2, CleanSubnets(svc, w2, vpc).0, vpc, others);
      }
    }
  }

  // ----- What every history keeps -----

  lemma ClearableRun(svc: Service, t: Timing, w: World, vpc: Id)
    requires Clearable(svc, w, vpc)
    ensures Clearable(svc, Cleanup(svc, t, w, vpc).0, vpc)
  {
    hide Cleanup, Pinned;
    var w' := Cleanup(svc, t, w, vpc).0;
    RunFrame(svc, t, w, vpc);
    if Pinned(w', vpc) {
      PinnedBefore(w, w', vpc);
    }
  }

  lemma ClearablePause(svc: Service, w: World, vpc: Id, gap: nat)
    requires Clearable(svc, w, vpc)
    ensures Clearable(svc, Pause(w, gap), vpc)
  {
    hide Pinned;
    if Pinned(Pause(w, gap), vpc) {
      PinnedBefore(w, Pause(w, gap), vpc);
    }
  }

  lemma {:induction false} HistoryKeeps(svc: Service, t: Timing, vpc: Id, w: World, gaps: seq<nat>, others: set<Id>)
    requires Clearable(svc, w, vpc) && Orderly(svc, w, vpc, others)
    ensures var w' := After(svc, t, vpc, w, gaps);
      Clearable(svc, w', vpc) && Orderly(svc, w', vpc, others) && w.tick <= w'.tick
    decreases |gaps|
  {
    hide Cleanup, Orderly;
    if gaps != [] {
      var w1 := Cleanup(svc, t, w, vpc).0;
      RunFrame(svc, t, w, vpc);
      ClearableRun(svc, t, w, vpc);
      OrderlyRun(svc, t, w, vpc, others);
      ClearablePause(svc, w1, vpc, gaps[0]);
      OrderlyLater(svc, w1, Pause(w1, gaps[0]), vpc, others);
      HistoryKeeps(svc, t, vpc, Pause(w1, gaps[0]), gaps[1..], others);
    }
  }

  /** Whatever the weather, a history leaves at most one detachment in flight that was not when it began. */
  lemma AtMostOneMore(svc: Service, t: Timing, vpc: Id, w: World, gaps: seq<nat>)
    requires Clearable(svc, w, vpc)
    ensures |MidDetach(After(svc, t, vpc, w, gaps), vpc)| <= |MidDetach(w, vpc)| + 1
  {
    HistoryKeeps(svc, t, vpc, w, gaps, MidDetach(w, vpc));
    OrderlyCount(svc, After(svc, t, vpc, w, gaps), vpc, MidDetach(w, vpc));
  }

  // ----- Convergence -----

  lemma {:induction false} EmptiedStays(svc: Service, t: Timing, vpc: Id, w: World, gaps: seq<nat>)
    requires Distinct(svc.order) && Emptied(w, vpc)
    ensures Emptied(After(svc, t, vpc, w, gaps), vpc)
    decreases |gaps|
  {
    hide Cleanup;
    if gaps != [] {
      IdleRun(svc, t, w, vpc);
      EmptiedStays(svc, t, vpc, Pause(Cleanup(svc, t, w, vpc).0, gaps[0]), gaps[1..]);
    }
  }

  lemma StrictSubsetCount(a: set<Id>, b: set<Id>)
    requires a < b
    ensures |a| < |b|
  {
    assert b == a + (b - a) && a !! (b - a);
    assert b - a != {};
  }

  /**
   Fault-free runs: each either empties the VPC or has fewer detachments in flight than the one
   before, so among one more runs than there are detachments in flight one returns nil, and from then on
   the VPC stays empty.
   */
  lemma {:induction false} FairRuns(svc: Service, t: Timing, slow: nat, vpc: Id, w: World, gaps: seq<nat>)
    returns (i: nat)
    requires Clearable(svc, w, vpc)
    requires FairFrom(svc, t, slow, w.tick)
    requires |MidDetach(w, vpc)| < |gaps|
    ensures i <= |MidDetach(w, vpc)|
    ensures Cleanup(svc, t, After(svc, t, vpc, w, gaps[..i]), vpc).1.Nil?
    ensures Emptied(After(svc, t, vpc, w, gaps), vpc)
    decreases |gaps|
  {
    hide Cleanup, FairFrom, Clearable, MidDetach, Emptied;
    var (w1, r) := Cleanup(svc, t, w, vpc);
    var w2, rest := Pause(w1, gaps[0]), gaps[1..];
    ClearableDistinct(svc, w, vpc);
    FairRun(svc, t, slow, w, vpc);
    if r.Nil? {
      i := 0;
      assert gaps[..0] == [];
      EmptiedPause(w1, vpc, gaps[0]);
      EmptiedStays(svc, t, vpc, w2, rest);
    } else {
      RunFrame(svc, t, w, vpc);
      ClearableRun(svc, t, w, vpc);
      ClearablePause(svc, w1, vpc, gaps[0]);
      FairLater(svc, t, slow, w.tick, w2.tick);
      MidDetachPause(w1, vpc, gaps[0]);
      StrictSubsetCount(MidDetach(w2, vpc), MidDetach(w, vpc));
      var m := FairRuns(svc, t, slow, vpc, w2, rest);
      i := m + 1;
      assert gaps[..i][1..] == rest[..m];
    }
  }

  lemma EmptiedPause(w: World, vpc: Id, gap: nat)
    requires Emptied(w, vpc)
    ensures Emptied(Pause(w, gap), vpc)
  {
  }

  lemma MidDetachPause(w: World, vpc: Id, gap: nat)
    ensures MidDetach(Pause(w, gap), vpc) <= MidDetach(w, vpc)
  {
  }

  /**
   Convergence: from any clearable VPC, after any number of runs under any weather, fault-free runs
   empty it; two more of them than detachments were in flight at the very beginning are always enough.
   */
  lemma Convergence(svc: Service, t: Timing, slow: nat, vpc: Id, w: World, faulty: seq<nat>, fair: seq<nat>)
    requires Clearable(svc, w, vpc)
    requires FairFrom(svc, t, slow, After(svc, t, vpc, w, faulty).tick)
    requires |MidDetach(w, vpc)| + 2 <= |fair|
    ensures Emptied(After(svc, t, vpc, After(svc, t, vpc, w, faulty), fair), vpc)
  {
    hide Cleanup, FairFrom, Clearable, MidDetach, Emptied, After;
    AtMostOneMore(svc, t, vpc, w, faulty);
    OrderlyItself(svc, w, vpc);
    HistoryKeeps(svc, t, vpc, w, faulty, MidDetach(w, vpc));
    var i := FairRuns(svc, t, slow, vpc, After(svc, t, vpc, w, faulty), fair);
  }

  lemma OrderlyItself(svc: Service, w: World, vpc: Id)
    ensures Orderly(svc, w, vpc, MidDetach(w, vpc))
  {
  }

  /**
   In particular, from a start with nothing mid-detach the first fault-free run fails only if it hits
   the race on the interface listed first, and the second one never fails.
   */
  lemma QuietConvergence(svc: Service, t: Timing, slow: nat, vpc: Id, w: World, gaps: seq<nat>, gap: nat)
    requires Clearable(svc, w, vpc) && Quiet(w, vpc)
    requires FairFrom(svc, t, slow, After(svc, t, vpc, w, gaps).tick)
    ensures var w1 := After(svc, t, vpc, w, gaps);
      var (w2, r2) := Cleanup(svc, t, w1, vpc);
      && (r2.Nil? <==> !Raced(svc, w1, vpc))
      && Cleanup(svc, t, Pause(w2, gap), vpc).1.Nil?
  {
    hide Cleanup, After, FairFrom, Placed, Pinned, Covers, AllOnTime, Raced;
    var w1 := After(svc, t, vpc, w, gaps);
    QuietIsOrderly(svc, w, vpc);
    HistoryKeeps(svc, t, vpc, w, gaps, {});
    OrderlyOnTime(svc, t, slow, w1, vpc);
    OrderlyCount(svc, w1, vpc, {});
    FairRun(svc, t, slow, w1, vpc);
    var w2 := Cleanup(svc, t, w1, vpc).0;
    RunFrame(svc, t, w1, vpc);
    ClearableRun(svc, t, w1, vpc);
    ClearablePause(svc, w2, vpc, gap);
    FairLater(svc, t, slow, w1.tick, Pause(w2, gap).tick);
    QuietAgain(svc, t, w1, vpc, gap);
    QuietIsOrderly(svc, Pause(w2, gap), vpc);
    OrderlyOnTime(svc, t, slow, Pause(w2, gap), vpc);
    FairRun(svc, t, slow, Pause(w2, gap), vpc);
  }

  lemma QuietAgain(svc: Service, t: Timing, w: World, vpc: Id, gap: nat)
    requires var (w', r) := Cleanup(svc, t, w, vpc);
      if r.Nil? then Emptied(w', vpc) else |MidDetach(w, vpc)| <= 1 && MidDetach(w', vpc) < MidDetach(w, vpc)
    ensures Quiet(Pause(Cleanup(svc, t, w, vpc).0, gap), vpc)
  {
    hide Cleanup;
    var (w', r) := Cleanup(svc, t, w, vpc);
    if r.Err? {
      StrictSubsetCount(MidDetach(w', vpc), MidDetach(w, vpc));
      assert MidDetach(w', vpc) == {};
      forall id | id in w'.enis && w'.enis[id].vpc == vpc ensures !InFlight(w'.enis[id], w'.clock) {
        assert id !in MidDetach(w', vpc);
      }
    } else {
      assert NoEnis(w', vpc);
    }
  }

  lemma ClearableDistinct(svc: Service, w: World, vpc: Id)
    requires Clearable(svc, w, vpc)
    ensures Distinct(svc.order)
  {
  }

  lemma FairLater(svc: Service, t: Timing, slow: nat, tick: nat, tick': nat)
    requires FairFrom(svc, t, slow, tick) && tick <= tick'
    ensures FairFrom(svc, t, slow, tick')
  {
  }

  // ----- The race does happen -----

  /** Every call takes 10 ms and a detach 15 ms; only the acknowledgement of call 1 is lost. */
  function RaceService(): Service {
    Service(k => Weather(if k == 1 then Unacknowledged else Honoured, 10, 15, false, false, 0), ["eni-1"])
  }

  function RaceWorld(): World {
    World(map["eni-1" := Eni("vpc-1", "subnet-1", {}, Attached(true))], map[], map[], 0, 0, [])
  }

  /** The world a first run leaves behind: its detach took effect, but the run was told it failed. */
  lemma RaceFirstRun()
    ensures var (w, r) := Cleanup(RaceService(), DEFAULTS, RaceWorld(), "vpc-1");
      && r == Err(DetachFailed("eni-1"))
      && w.enis == map["eni-1" := Eni("vpc-1", "subnet-1", {}, Detaching(25))]
      && w.groups == map[] && w.subnets == map[] && w.clock == 20 && w.tick == 2
  {
    var svc, w := RaceService(), RaceWorld();
    var (w1, listed) := Fetch(svc, w, ListEnis, "vpc-1", ["eni-1"], ViewEni);
    assert svc.weather(0) == Weather(Honoured, 10, 15, false, false, 0);
    FetchEnis(svc, w, "vpc-1", ["eni-1"]);
    assert listed.Some? && listed.value[0] == EniView("eni-1", true);
    assert ClearEni(svc, DEFAULTS, w1, EniView("eni-1", true)).1 == Err(DetachFailed("eni-1"));
  }

  /**
   So one fault-free run is not always enough, even from a clearable VPC with nothing mid-detach: here
   a run whose detach acknowledgement was lost is followed by a fault-free run that fails.
   */
  lemma OneFairRunMayFail()
    ensures var svc, w := RaceService(), RaceWorld();
      var w1 := After(svc, DEFAULTS, "vpc-1", w, [0]);
      && Clearable(svc, w, "vpc-1") && Quiet(w, "vpc-1")
      && FairFrom(svc, DEFAULTS, 10, w1.tick)
      && Cleanup(svc, DEFAULTS, w1, "vpc-1").1.Err?
  {
    var svc, w := RaceService(), RaceWorld();
    RaceFirstRun();
    var w1 := Pause(Cleanup(svc, DEFAULTS, w, "vpc-1").0, 0);
    assert After(svc, DEFAULTS, "vpc-1", w, [0]) == w1 by {
      assert [0][1..] == [];
    }
    assert Clearable(svc, w, "vpc-1");
    QuietIsOrderly(svc, w, "vpc-1");
    HistoryKeeps(svc, DEFAULTS, "vpc-1", w, [0], {});
    assert Raced(svc, w1, "vpc-1");
    OrderlyOnTime(svc, DEFAULTS, 10, w1, "vpc-1");
    FairRun(svc, DEFAULTS, 10, w1, "vpc-1");
  }

  // ----- Any interface can be late, not only the first -----

  function LateService(): Service {
    Service(k => Weather(Honoured, 10, 15, false, false, 1), ["eni-1", "eni-2"])
  }

  /** Two detachments in flight: the first listed one is far from done, the second completes at 15. */
  function LateWorld(): World {
    World(map["eni-1" := Eni("vpc-1", "subnet-1", {}, Detaching(1000)),
              "eni-2" := Eni("vpc-1", "subnet-1", {}, Detaching(15))], map[], map[], 0, 0, [])
  }

  lemma DetachTakesTime(svc: Service, t: Timing, w: World, eni: EniView)
    requires eni.attached
    ensures w.clock + svc.weather(w.tick).lag <= ClearEni(svc, t, w, eni).0.clock
  {
    hide Await, Expunge;
    var (w1, reply) := Detach(svc, w, eni.id);
    AwaitFrame(svc, t, w1, eni.id, w1.clock + t.timeout);
    ExpungeFrame(svc, t, Await(svc, t, w1, eni.id, w1.clock + t.timeout).0, eni.id, 0);
  }

  lemma DrainOne(svc: Service, t: Timing, w: World, eni: EniView)
    ensures Drain(svc, t, w, [eni]).0 == ClearEni(svc, t, w, eni).0
  {
    hide ClearEni;
    assert [eni][1..] == [];
  }

  lemma LateListing()
    ensures var svc, w := LateService(), LateWorld();
      && Ids(EniKind, w, "vpc-1", svc.order) == ["eni-1", "eni-2"]
      && var (w1, listed) := Fetch(svc, w, ListEnis, "vpc-1", ["eni-1", "eni-2"], ViewEni);
      && listed.Some? && listed.value == [EniView("eni-1", true), EniView("eni-2", true)]
      && w1.clock == 10 && w1.enis == w.enis
  {
    var svc, w := LateService(), LateWorld();
    assert Ids(EniKind, w, "vpc-1", ["eni-1", "eni-2"][1..][1..]) == [];
    assert svc.weather(0) == Weather(Honoured, 10, 15, false, false, 1);
    var ids := ["eni-1", "eni-2"];
    var (w1, listed) := Fetch(svc, w, ListEnis, "vpc-1", ids, ViewEni);
    assert PageLength(svc.weather(0), ids) == 2;
    assert listed.Some? && |listed.value| == 2;
    assert listed.value[0] == ViewEni(w, "eni-1") && listed.value[1] == ViewEni(w, "eni-2");
  }

  /** A fault-free run that the second listed interface stops, though the first one is in time. */
  lemma LaterInterfaceCanBeLate()
    ensures var svc, w := LateService(), LateWorld();
      && FairFrom(svc, DEFAULTS, 10, w.tick) && Clearable(svc, w, "vpc-1")
      && !Raced(svc, w, "vpc-1")
      && Cleanup(svc, DEFAULTS, w, "vpc-1").1.Err?
  {
    hide ClearEni;
    var svc, w := LateService(), LateWorld();
    LateListing();
    assert Distinct(svc.order);
    var w1 := Fetch(svc, w, ListEnis, "vpc-1", ["eni-1", "eni-2"], ViewEni).0;
    var enis := [EniView("eni-1", true), EniView("eni-2", true)];
    DetachTakesTime(svc, DEFAULTS, w1, enis[0]);
    assert svc.weather(w1.tick).lag == 10;
    assert enis[..1] == [enis[0]];
    DrainOne(svc, DEFAULTS, w1, enis[0]);
    assert !OnTime(svc, DEFAULTS, w1, enis, 1);
    FairRun(svc, DEFAULTS, 10, w, "vpc-1");
  }
}
