/** What the interface phase achieves, under every weather and under a fair one. */
module VpcEnis {
  import opened Ec2World
  import opened VpcCleanup
  import opened VpcListings

  const ENI_OPS := {ListEnis, DetachEni, PollEni, RemoveEni}

  /** An interface keeps its place; only a named attachment can start to detach. */
  ghost predicate Aged(e: Eni, e': Eni) {
    e' == e || (e.link != Attached(false) && e'.link.Detaching? && e' == e.(link := e'.link))
  }

  /** Nothing but the touched interfaces changed, and none appeared. */
  ghost predicate EniStep(w: World, w': World, touched: set<Id>) {
    && w'.groups == w.groups && w'.subnets == w.subnets
    && Later(w, w') && OnlyOps(w, w', ENI_OPS)
    && (forall id :: id in w'.enis ==> id in w.enis && Aged(w.enis[id], w'.enis[id]))
    && (forall id :: id in w.enis && id !in touched ==> id in w'.enis && w'.enis[id] == w.enis[id])
  }

  // ----- One interface -----

  lemma {:induction false} AwaitFrame(svc: Service, t: Timing, w: World, id: Id, deadline: nat)
    ensures var w' := Await(svc, t, w, id, deadline).0;
      SameResources(w, w') && Later(w, w') && OnlyOps(w, w', {PollEni})
    decreases deadline + 1 - w.clock
  {
    if w.clock <= deadline {
      var (w1, s) := Poll(svc, w, id);
      if s == Busy && !Interrupted(svc, w1) {
        AwaitFrame(svc, t, Pause(w1, t.interval), id, deadline);
      }
    }
  }

  lemma DeleteEniFrame(svc: Service, w: World, id: Id)
    ensures var (w', reply) := DeleteEni(svc, w, id);
      && EniStep(w, w', {id}) && OnlyOps(w, w', {RemoveEni})
      && (w'.enis == w.enis || w'.enis == w.enis - {id})
      && (reply != Failed ==> id !in w'.enis)
      && (id in w.enis && w.enis[id].link == Attached(false) ==> w'.enis == w.enis)
  {
  }

  /**
   Deleting with retries: success means the interface is gone, also when a delete took effect behind
   an error and a later attempt learnt that the interface is unknown.
   */
  lemma {:induction false} ExpungeFrame(svc: Service, t: Timing, w: World, id: Id, attempt: nat)
    ensures var (w', r) := Expunge(svc, t, w, id, attempt);
      && EniStep(w, w', {id}) && OnlyOps(w, w', {RemoveEni})
      && (w'.enis == w.enis || w'.enis == w.enis - {id})
      && (r.Nil? ==> id !in w'.enis)
      && (id in w.enis && w.enis[id].link == Attached(false) ==> w'.enis == w.enis)
    decreases t.retries - attempt
  {
    hide DeleteEni;
    if attempt < t.retries {
      var (w1, reply) := DeleteEni(svc, w, id);
      DeleteEniFrame(svc, w, id);
      if reply == Failed && (attempt + 1 < t.retries ==> !Interrupted(svc, w1)) {
        var w2 := if attempt + 1 < t.retries then Pause(w1, t.delay) else w1;
        ExpungeFrame(svc, t, w2, id, attempt + 1);
      }
    }
  }

  ghost predicate Blames(r: Outcome, id: Id) {
    r.Err? && (r.error == DetachFailed(id) ||
               ((r.error.WaitFailed? || r.error.DeleteFailed?) && r.error.id == id))
  }

  lemma DetachFrame(svc: Service, w: World, id: Id)
    ensures var (w', reply) := Detach(svc, w, id);
      && EniStep(w, w', {id})
      && (id in w.enis && w.enis[id].link == Attached(false) ==> w'.enis == w.enis && reply == Failed)
  {
  }

  lemma ClearFrame(svc: Service, t: Timing, w: World, eni: EniView)
    ensures var (w', r) := ClearEni(svc, t, w, eni);
      && EniStep(w, w', {eni.id})
      && (if r.Nil? then eni.id !in w'.enis else Blames(r, eni.id))
      && (eni.id in w.enis && w.enis[eni.id].link == Attached(false) ==> w'.enis == w.enis)
  {
    hide Detach, Await, Expunge;
    if eni.attached {
      var (w1, reply) := Detach(svc, w, eni.id);
      DetachFrame(svc, w, eni.id);
      if reply == Ok {
        var deadline := w1.clock + t.timeout;
        AwaitFrame(svc, t, w1, eni.id, deadline);
        AwaitBlames(svc, t, w1, eni.id, deadline);
        var (w2, r) := Await(svc, t, w1, eni.id, deadline);
        assert EniStep(w1, w2, {});
        assert {eni.id} + {} == {eni.id};
        if r.Nil? {
          ExpungeFrame(svc, t, w2, eni.id, 0);
          ExpungeBlames(svc, t, w2, eni.id, 0);
          assert {eni.id} + {eni.id} == {eni.id};
        }
      }
    } else {
      ExpungeFrame(svc, t, w, eni.id, 0);
      ExpungeBlames(svc, t, w, eni.id, 0);
    }
  }

  lemma AwaitBlames(svc: Service, t: Timing, w: World, id: Id, deadline: nat)
    ensures var r := Await(svc, t, w, id, deadline).1; r.Nil? || (r.error.WaitFailed? && r.error.id == id)
    decreases deadline + 1 - w.clock
  {
  }

  lemma ExpungeBlames(svc: Service, t: Timing, w: World, id: Id, attempt: nat)
    ensures var r := Expunge(svc, t, w, id, attempt).1; r.Nil? || (r.error.DeleteFailed? && r.error.id == id)
    decreases t.retries - attempt
  {
  }

  // ----- All listed interfaces, stopping at the first failure -----

  ghost function ViewIds(enis: seq<EniView>): (ids: set<Id>) {
    set v | v in enis :: v.id
  }

  lemma {:induction false} DrainFrame(svc: Service, t: Timing, w: World, enis: seq<EniView>)
    ensures var (w', r) := Drain(svc, t, w, enis);
      && EniStep(w, w', ViewIds(enis))
      && (r.Nil? ==> forall v :: v in enis ==> v.id !in w'.enis)
      && (forall id :: id in w.enis && w.enis[id].link == Attached(false) ==>
            id in w'.enis && w'.enis[id] == w.enis[id])
    decreases |enis|
  {
    if enis != [] {
      var (w1, r) := ClearEni(svc, t, w, enis[0]);
      ClearFrame(svc, t, w, enis[0]);
      assert enis[0] in enis && ViewIds(enis) == {enis[0].id} + ViewIds(enis[1..]);
      if r.Nil? {
        DrainFrame(svc, t, w1, enis[1..]);
        assert forall v :: v in enis ==> v == enis[0] || v in enis[1..];
      } else {
        assert EniStep(w, w1, ViewIds(enis));
      }
    }
  }

  /** The drain stops at the k-th interface: all before it are gone, all after it untouched. */
  ghost predicate StopsAt(w: World, w': World, r: Outcome, ids: seq<Id>, k: nat) {
    && k < |ids|
    && Blames(r, ids[k])
    && (forall j :: 0 <= j < k ==> ids[j] !in w'.enis)
    && (forall j :: k < j < |ids| && ids[j] in w.enis ==> ids[j] in w'.enis && w'.enis[ids[j]] == w.enis[ids[j]])
  }

  function IdSeq(enis: seq<EniView>): seq<Id> {
    seq(|enis|, i requires 0 <= i < |enis| => enis[i].id)
  }

  lemma {:induction false} DrainPrefix(svc: Service, t: Timing, w: World, enis: seq<EniView>) returns (k: nat)
    requires Distinct(IdSeq(enis))
    requires Drain(svc, t, w, enis).1.Err?
    ensures var (w', r) := Drain(svc, t, w, enis); StopsAt(w, w', r, IdSeq(enis), k)
    decreases |enis|
  {
    var (w1, r1) := ClearEni(svc, t, w, enis[0]);
    ClearFrame(svc, t, w, enis[0]);
    var ids := IdSeq(enis);
    assert forall j :: 0 < j < |ids| ==> ids[j] != ids[0];
    if r1.Err? {
      k := 0;
    } else {
      assert IdSeq(enis[1..]) == ids[1..];
      var m := DrainPrefix(svc, t, w1, enis[1..]);
      DrainFrame(svc, t, w1, enis[1..]);
      k := m + 1;
      assert forall j :: 0 < j < |ids| ==> ids[j] == ids[1..][j - 1];
    }
  }

  // ----- The whole phase -----

  /** Listings enumerate every resource of the account. */
  ghost predicate Covers(svc: Service, w: World) {
    forall id :: id in w.enis || id in w.groups || id in w.subnets ==> id in svc.order
  }

  ghost predicate Foreign(w: World, w': World, vpc: Id) {
    && (forall id :: id in w.enis && w.enis[id].vpc != vpc ==> id in w'.enis && w'.enis[id] == w.enis[id])
    && (forall id :: id in w.groups && w.groups[id].vpc != vpc ==> id in w'.groups && w'.groups[id] == w.groups[id])
    && (forall id :: id in w.subnets && w.subnets[id].vpc != vpc ==>
          id in w'.subnets && w'.subnets[id] == w.subnets[id])
  }

  ghost predicate NoEnis(w: World, vpc: Id) {
    forall id :: id in w.enis ==> w.enis[id].vpc != vpc
  }

  /** The listed interfaces are the VPC's interfaces, in listing order. */
  lemma ListedEnis(svc: Service, w: World, vpc: Id)
    ensures var ids := Ids(EniKind, w, vpc, svc.order);
      var (w1, listed) := Fetch(svc, w, ListEnis, vpc, ids, ViewEni);
      && EniStep(w, w1, {}) && SameResources(w, w1)
      && (forall id :: id in ids <==> id in svc.order && InVpc(EniKind, w, id, vpc))
      && (listed.Some? ==> IdSeq(listed.value) == ids)
  {
    var ids := Ids(EniKind, w, vpc, svc.order);
    IdsMembers(EniKind, w, vpc, svc.order);
    FetchFrame(svc, w, ListEnis, vpc, ids, ViewEni);
    FetchEnis(svc, w, vpc, ids);
  }

  lemma CleanEnisFrame(svc: Service, t: Timing, w: World, vpc: Id)
    ensures var (w', r) := CleanEnis(svc, t, w, vpc);
      && EniStep(w, w', w.enis.Keys)
      && Foreign(w, w', vpc)
      && (r.Nil? && Covers(svc, w) ==> NoEnis(w', vpc))
      && (forall id :: id in w.enis && w.enis[id].link == Attached(false) ==>
            id in w'.enis && w'.enis[id] == w.enis[id])
  {
    var ids := Ids(EniKind, w, vpc, svc.order);
    var (w1, listed) := Fetch(svc, w, ListEnis, vpc, ids, ViewEni);
    ListedEnis(svc, w, vpc);
    if listed.Some? {
      var enis := listed.value;
      var (w', r) := Drain(svc, t, w1, enis);
      DrainFrame(svc, t, w1, enis);
      assert forall v :: v in enis ==> v.id in ids by {
        forall v | v in enis ensures v.id in ids {
          var i :| 0 <= i < |enis| && enis[i] == v;
          assert IdSeq(enis)[i] == v.id;
        }
      }
    }
  }

  /**
   The prefix property, under every weather: success leaves no listed interface; a failure either
   is a failed listing that changed nothing, or names the k-th listed interface, with every earlier
   one gone and every later one exactly as it was.
   */
  lemma EniPrefix(svc: Service, t: Timing, w: World, vpc: Id) returns (k: nat)
    requires Distinct(svc.order)
    ensures var ids := Ids(EniKind, w, vpc, svc.order);
      var (w', r) := CleanEnis(svc, t, w, vpc);
      if r.Nil? then forall id :: id in ids ==> id !in w'.enis
      else if r.error.ListingFailed? then w'.enis == w.enis
      else StopsAt(w, w', r, ids, k)
  {
    var ids := Ids(EniKind, w, vpc, svc.order);
    var (w1, listed) := Fetch(svc, w, ListEnis, vpc, ids, ViewEni);
    ListedEnis(svc, w, vpc);
    IdsDistinct(EniKind, w, vpc, svc.order);
    k := 0;
    if listed.Some? {
      var (w', r) := Drain(svc, t, w1, listed.value);
      if r.Err? {
        k := DrainPrefix(svc, t, w1, listed.value);
      } else {
        DrainFrame(svc, t, w1, listed.value);
      }
    }
  }
}
