/** What a paginated listing returns, and that filtering its pages one by one filters the whole. */
module VpcListings {
  import opened Prelude
  import opened Ec2World
  import opened VpcCleanup

  /** `whole` is what is left after the entries `sofar` have been read and `rest` is still to come. */
  ghost predicate Resumes<T>(whole: (World, Option<seq<T>>), sofar: seq<T>, rest: (World, Option<seq<T>>)) {
    && whole.0 == rest.0
    && whole.1.None? == rest.1.None?
    && (rest.1.Some? ==> whole.1.value == sofar + rest.1.value)
  }

  lemma ResumesStep<T>(whole: (World, Option<seq<T>>), sofar: seq<T>, mid: (World, Option<seq<T>>),
                       page: seq<T>, rest: (World, Option<seq<T>>))
    requires Resumes(whole, sofar, mid) && Resumes(mid, page, rest)
    ensures Resumes(whole, sofar + page, rest)
  {
  }

  /** The same for a pass that collects failures. */
  ghost predicate Accrues(whole: (World, seq<Call>), sofar: seq<Call>, rest: (World, seq<Call>)) {
    && whole.0 == rest.0
    && whole.1 == sofar + rest.1
  }

  lemma AccruesStep(whole: (World, seq<Call>), sofar: seq<Call>, step: seq<Call>, rest: (World, seq<Call>))
    requires Accrues(whole, sofar, (rest.0, step + rest.1))
    ensures Accrues(whole, sofar + step, rest)
  {
  }

  lemma {:induction false} NonDefaultConcat(a: seq<GroupView>, b: seq<GroupView>)
    ensures NonDefault(a + b) == NonDefault(a) + NonDefault(b)
  {
    if a == [] {
      assert a + b == b;
    } else {
      var head := if a[0].name != DEFAULT_GROUP then [a[0]] else [];
      assert (a + b)[1..] == a[1..] + b;
      assert NonDefault(a + b) == head + NonDefault(a[1..] + b);
      NonDefaultConcat(a[1..], b);
      assert head + (NonDefault(a[1..]) + NonDefault(b)) == head + NonDefault(a[1..]) + NonDefault(b);
    }
  }

  // ----- What every call keeps -----

  ghost predicate Later(w: World, w': World) {
    w.clock <= w'.clock && w.tick <= w'.tick && w.log <= w'.log
  }

  ghost predicate SameResources(w: World, w': World) {
    w'.enis == w.enis && w'.groups == w.groups && w'.subnets == w.subnets
  }

  /** Every call between the two worlds is one of the given operations. */
  ghost predicate OnlyOps(w: World, w': World, ops: set<Op>) {
    forall i :: |w.log| <= i < |w'.log| ==> w'.log[i].op in ops
  }

  // ----- Listings -----

  ghost predicate Distinct<T(!new)>(s: seq<T>) {
    forall i, j :: 0 <= i < j < |s| ==> s[i] != s[j]
  }

  lemma {:induction false} IdsMembers(kind: Kind, w: World, vpc: Id, order: seq<Id>)
    ensures forall id :: id in Ids(kind, w, vpc, order) <==> id in order && InVpc(kind, w, id, vpc)
  {
    if order != [] {
      IdsMembers(kind, w, vpc, order[1..]);
      assert forall id :: id in order <==> id == order[0] || id in order[1..];
    }
  }

  lemma {:induction false} IdsDistinct(kind: Kind, w: World, vpc: Id, order: seq<Id>)
    requires Distinct(order)
    ensures Distinct(Ids(kind, w, vpc, order))
  {
    if order != [] {
      IdsDistinct(kind, w, vpc, order[1..]);
      IdsMembers(kind, w, vpc, order[1..]);
    }
  }

  lemma {:induction false} FetchFrame<T>(svc: Service, w: World, op: Op, vpc: Id, ids: seq<Id>, view: (World, Id) -> T)
    ensures var (w', r) := Fetch(svc, w, op, vpc, ids, view);
      && SameResources(w, w') && Later(w, w') && OnlyOps(w, w', {op})
      && w.tick < w'.tick
      && (r.Some? ==> |r.value| == |ids|)
    decreases |ids|
  {
    var sky := svc.weather(w.tick);
    var n := PageLength(sky, ids);
    if sky.fate == Honoured && n < |ids| {
      FetchFrame(svc, Answer(svc, w, op, vpc, Ok), op, vpc, ids[n..], view);
    }
  }

  /** Each entry is a view of the same resources, seen at some time during the listing. */
  lemma {:induction false} FetchAt<T>(
    svc: Service, w: World, op: Op, vpc: Id, ids: seq<Id>, view: (World, Id) -> T, i: nat) returns (seen: World)
    requires Fetch(svc, w, op, vpc, ids, view).1.Some?
    requires i < |ids|
    ensures var (w', r) := Fetch(svc, w, op, vpc, ids, view);
      && |r.value| == |ids|
      && r.value[i] == view(seen, ids[i])
      && SameResources(w, seen) && w.clock <= seen.clock <= w'.clock
      && (i == 0 ==> seen == w)
    decreases |ids|
  {
    var n := PageLength(svc.weather(w.tick), ids);
    var w1 := Answer(svc, w, op, vpc, Ok);
    FetchFrame(svc, w, op, vpc, ids, view);
    if i < n {
      seen := w;
      assert Fetch(svc, w, op, vpc, ids, view).1.value[i] == view(w, ids[i]);
    } else {
      seen := FetchAt(svc, w1, op, vpc, ids[n..], view, i - n);
    }
  }

  /** Attachments only disappear while a listing is under way. */
  lemma FetchEnis(svc: Service, w: World, vpc: Id, ids: seq<Id>)
    requires forall id :: id in ids ==> id in w.enis
    ensures var (w', r) := Fetch(svc, w, ListEnis, vpc, ids, ViewEni);
      r.Some? ==>
        && |r.value| == |ids|
        && (forall i :: 0 <= i < |ids| ==>
              && r.value[i].id == ids[i]
              && (r.value[i].attached ==> ShowsAttachment(w.enis[ids[i]], w.clock))
              && (!r.value[i].attached ==> !ShowsAttachment(w.enis[ids[i]], w'.clock)))
        && (ids != [] ==> r.value[0] == ViewEni(w, ids[0]))
  {
    var (w', r) := Fetch(svc, w, ListEnis, vpc, ids, ViewEni);
    FetchFrame(svc, w, ListEnis, vpc, ids, ViewEni);
    if r.Some? {
      forall i | 0 <= i < |ids|
        ensures r.value[i].id == ids[i]
        ensures r.value[i].attached ==> ShowsAttachment(w.enis[ids[i]], w.clock)
        ensures !r.value[i].attached ==> !ShowsAttachment(w.enis[ids[i]], w'.clock)
        ensures i == 0 ==> r.value[0] == ViewEni(w, ids[0])
      {
        var seen := FetchAt(svc, w, ListEnis, vpc, ids, ViewEni, i);
      }
    }
  }

  lemma FetchGroups(svc: Service, w: World, vpc: Id, ids: seq<Id>)
    ensures var r := Fetch(svc, w, ListGroups, vpc, ids, ViewGroup).1;
      r.Some? ==> |r.value| == |ids| && forall i :: 0 <= i < |ids| ==> r.value[i] == ViewGroup(w, ids[i])
  {
    var r := Fetch(svc, w, ListGroups, vpc, ids, ViewGroup).1;
    FetchFrame(svc, w, ListGroups, vpc, ids, ViewGroup);
    if r.Some? {
      forall i | 0 <= i < |ids| ensures r.value[i] == ViewGroup(w, ids[i]) {
        var seen := FetchAt(svc, w, ListGroups, vpc, ids, ViewGroup, i);
      }
    }
  }

  lemma FetchSubnets(svc: Service, w: World, vpc: Id, ids: seq<Id>)
    ensures var r := Fetch(svc, w, ListSubnets, vpc, ids, ViewSubnet).1;
      r.Some? ==> r.value == ids
  {
    var r := Fetch(svc, w, ListSubnets, vpc, ids, ViewSubnet).1;
    FetchFrame(svc, w, ListSubnets, vpc, ids, ViewSubnet);
    if r.Some? {
      forall i | 0 <= i < |ids| ensures r.value[i] == ids[i] {
        var seen := FetchAt(svc, w, ListSubnets, vpc, ids, ViewSubnet, i);
      }
    }
  }
}
