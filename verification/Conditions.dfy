/**
 The three folds over status conditions: verifyConditions (pkg/verifiers/hostedcluster.go), the
 ClusterOperator test (pkg/verifiers/clusteroperators.go) and the VpcEndpoint test
 (pkg/verifiers/managed_operators.go).
 */
module Conditions {
  import opened Prelude

  /** An element of status.conditions; a missing type or status reads as the empty string. */
  datatype Entry = NotAMap | Condition(kind: string, status: string)

  /** status.conditions as it is found, if it is. */
  type Found = Option<seq<Entry>>

  function KindOf(e: Entry): string {
    if e.Condition? then e.kind else ""
  }

  function StatusOf(e: Entry): string {
    if e.Condition? then e.status else ""
  }

  ghost predicate Occurs(conditions: seq<Entry>, kind: string) {
    exists e :: e in conditions && KindOf(e) == kind
  }

  /** Some entry of the kind, and every one with the status. */
  ghost predicate Always(conditions: seq<Entry>, kind: string, status: string) {
    && Occurs(conditions, kind)
    && (forall e :: e in conditions && KindOf(e) == kind ==> StatusOf(e) == status)
  }

  ghost predicate Sometimes(conditions: seq<Entry>, kind: string, status: string) {
    exists e :: e in conditions && KindOf(e) == kind && StatusOf(e) == status
  }

  /** How many entries of the kind have another status. */
  function Deviations(conditions: seq<Entry>, kind: string, status: string): nat {
    if conditions == [] then 0
    else
      var last := conditions[|conditions| - 1];
      Deviations(conditions[..|conditions| - 1], kind, status)
      + if KindOf(last) == kind && StatusOf(last) != status then 1 else 0
  }

  lemma {:induction false} NoDeviations(conditions: seq<Entry>, kind: string, status: string)
    ensures Deviations(conditions, kind, status) == 0 <==>
            forall e :: e in conditions && KindOf(e) == kind ==> StatusOf(e) == status
  {
    if conditions != [] {
      var front, last := conditions[..|conditions| - 1], conditions[|conditions| - 1];
      NoDeviations(front, kind, status);
      assert conditions == front + [last];
    }
  }

  lemma Snoc(front: seq<Entry>, e: Entry, kind: string, status: string)
    ensures Occurs(front + [e], kind) <==> Occurs(front, kind) || KindOf(e) == kind
    ensures Sometimes(front + [e], kind, status) <==>
            Sometimes(front, kind, status) || (KindOf(e) == kind && StatusOf(e) == status)
    ensures Deviations(front + [e], kind, status) ==
            Deviations(front, kind, status) + if KindOf(e) == kind && StatusOf(e) != status then 1 else 0
  {
    var all := front + [e];
    assert all[..|all| - 1] == front;
    assert e in all && forall f :: f in front ==> f in all;
  }

  /** verifyConditions: the number of issues it reports, zero meaning success. */
  method VerifyConditions(found: Found) returns (ok: bool, issues: nat)
    ensures ok <==> found.Some? && Always(found.value, "Available", "True") && Always(found.value, "Degraded", "False")
    ensures found.Some? ==>
      issues == Deviations(found.value, "Available", "True") + Deviations(found.value, "Degraded", "False")
                + One(!Occurs(found.value, "Available")) + One(!Occurs(found.value, "Degraded"))
  {
    if found.None? { return false, 0; }
    var conditions := found.value;
    hide Occurs, Deviations, Sometimes;
    var availableFound, degradedFound := false, false;
    issues := 0;
    for i := 0 to |conditions|
      invariant availableFound <==> Occurs(conditions[..i], "Available")
      invariant degradedFound <==> Occurs(conditions[..i], "Degraded")
      invariant issues
                == Deviations(conditions[..i], "Available", "True") + Deviations(conditions[..i], "Degraded", "False")
    {
      assert conditions[..i + 1] == conditions[..i] + [conditions[i]];
      Snoc(conditions[..i], conditions[i], "Available", "True");
      Snoc(conditions[..i], conditions[i], "Degraded", "False");
      if conditions[i].NotAMap? { continue; }
      var kind, status := conditions[i].kind, conditions[i].status;
      if kind == "Available" {
        availableFound := true;
        if status != "True" { issues := issues + 1; }
      }
      if kind == "Degraded" {
        degradedFound := true;
        if status != "False" { issues := issues + 1; }
      }
    }
    assert conditions[..|conditions|] == conditions;
    NoDeviations(conditions, "Available", "True");
    NoDeviations(conditions, "Degraded", "False");
    if !availableFound { issues := issues + 1; }
    if !degradedFound { issues := issues + 1; }
    ok := issues == 0;
  }

  datatype Health = Malformed | Unhealthy | Healthy

  /** The test of one ClusterOperator; a condition that is not a map is an error for the whole check. */
  method ClusterOperatorHealth(found: Found) returns (health: Health)
    ensures health == Malformed <==> found.Some? && NotAMap in found.value
    ensures health == Healthy <==>
      found.Some? && NotAMap !in found.value
      && Sometimes(found.value, "Available", "True") && Sometimes(found.value, "Degraded", "False")
  {
    if found.None? { return Unhealthy; }
    var conditions := found.value;
    for i := 0 to |conditions|
      invariant NotAMap !in conditions[..i]
    {
      if conditions[i].NotAMap? { return Malformed; }
    }
    assert conditions[..|conditions|] == conditions;
    var available, degraded := false, true;
    for i := 0 to |conditions|
      invariant available <==> Sometimes(conditions[..i], "Available", "True")
      invariant !degraded <==> Sometimes(conditions[..i], "Degraded", "False")
    {
      assert conditions[..i + 1] == conditions[..i] + [conditions[i]];
      assert conditions[i] in conditions;
      Snoc(conditions[..i], conditions[i], "Available", "True");
      Snoc(conditions[..i], conditions[i], "Degraded", "False");
      var kind, status := conditions[i].kind, conditions[i].status;
      if kind == "Available" && status == "True" { available := true; }
      if kind == "Degraded" && status == "False" { degraded := false; }
    }
    health := if !available || degraded then Unhealthy else Healthy;
  }

  // ----- The endpoint test -----

  /** strings.EqualFold against a word whose letters fold only within ASCII, as those used here do. */
  predicate EqualFold(s: string, word: string) {
    |s| == |word| && forall i :: 0 <= i < |s| ==> LowerChar(s[i]) == word[i]
  }

  predicate Relevant(e: Entry) {
    e.Condition? && (e.kind == "AWSVpcEndpointReady" || EqualFold(e.kind, "available"))
  }

  /** "true" in any case */
  ghost predicate SaysTrue(s: string) {
    |s| == 4 && s[0] in {'t', 'T'} && s[1] in {'r', 'R'} && s[2] in {'u', 'U'} && s[3] in {'e', 'E'}
  }

  /** The condition types that tell whether an endpoint is ready: its own one, and "available" in any case. */
  ghost predicate TellsReadiness(e: Entry) {
    e.Condition? && (e.kind == "AWSVpcEndpointReady" || SaysAvailable(e.kind))
  }

  ghost predicate SaysAvailable(s: string) {
    && |s| == 9
    && s[0] in {'a', 'A'} && s[1] in {'v', 'V'} && s[2] in {'a', 'A'} && s[3] in {'i', 'I'} && s[4] in {'l', 'L'}
    && s[5] in {'a', 'A'} && s[6] in {'b', 'B'} && s[7] in {'l', 'L'} && s[8] in {'e', 'E'}
  }

  lemma FoldsToTrue(s: string)
    ensures EqualFold(s, "true") <==> SaysTrue(s)
  {
    if |s| == 4 {
      FoldsTo(s[0], 't', 'T');
      FoldsTo(s[1], 'r', 'R');
      FoldsTo(s[2], 'u', 'U');
      FoldsTo(s[3], 'e', 'E');
      assert EqualFold(s, "true") <==> forall i :: 0 <= i < 4 ==> LowerChar(s[i]) == "true"[i];
    }
  }

  lemma FoldsToAvailable(e: Entry)
    ensures Relevant(e) <==> TellsReadiness(e)
  {
    if e.Condition? && |e.kind| == 9 {
      var s := e.kind;
      FoldsTo(s[0], 'a', 'A');
      FoldsTo(s[1], 'v', 'V');
      FoldsTo(s[2], 'a', 'A');
      FoldsTo(s[3], 'i', 'I');
      FoldsTo(s[4], 'l', 'L');
      FoldsTo(s[5], 'a', 'A');
      FoldsTo(s[6], 'b', 'B');
      FoldsTo(s[7], 'l', 'L');
      FoldsTo(s[8], 'e', 'E');
      assert EqualFold(s, "available") <==> forall i :: 0 <= i < 9 ==> LowerChar(s[i]) == "available"[i];
    }
  }

  lemma FoldsTo(c: char, lower: char, upper: char)
    requires 'A' <= upper <= 'Z' && lower as int == upper as int + 32
    ensures LowerChar(c) == lower <==> c in {lower, upper}
  {
  }

  ghost predicate FirstRelevant(conditions: seq<Entry>, k: nat) {
    k < |conditions| && TellsReadiness(conditions[k]) && forall i :: 0 <= i < k ==> !TellsReadiness(conditions[i])
  }

  /** The relevant conditions before the n-th. */
  ghost function RelevantBefore(conditions: seq<Entry>, n: nat): set<nat>
    requires n <= |conditions|
  {
    set i | 0 <= i < n && TellsReadiness(conditions[i])
  }

  /** The first relevant condition that is true, or the end. */
  ghost predicate FirstTrue(conditions: seq<Entry>, n: nat) {
    && n <= |conditions|
    && (n < |conditions| ==> TellsReadiness(conditions[n]) && SaysTrue(StatusOf(conditions[n])))
    && forall i :: 0 <= i < n && TellsReadiness(conditions[i]) ==> !SaysTrue(StatusOf(conditions[i]))
  }

  ghost function Complaints(conditions: seq<Entry>, n: nat): nat
    requires n <= |conditions|
  {
    var before := RelevantBefore(conditions, n);
    |before| + One(n == |conditions| && before == {})
  }

  lemma RelevantNext(conditions: seq<Entry>, n: nat)
    requires n < |conditions|
    ensures RelevantBefore(conditions, n + 1)
            == RelevantBefore(conditions, n) + if TellsReadiness(conditions[n]) then {n} else {}
    ensures |RelevantBefore(conditions, n + 1)|
            == |RelevantBefore(conditions, n)| + One(TellsReadiness(conditions[n]))
  {
    hide TellsReadiness;
    var more := if TellsReadiness(conditions[n]) then {n} else {};
    assert RelevantBefore(conditions, n + 1) == RelevantBefore(conditions, n) + more;
    assert RelevantBefore(conditions, n) !! more;
  }

  /**
   The test of one VpcEndpoint: accepted exactly when the first relevant condition is true; it reports each
   relevant one before the first true one, or that there is none.
   */
  method VpcEndpointIssues(found: Found) returns (issues: nat)
    ensures issues == 0 <==>
      found.Some? && exists k: nat :: FirstRelevant(found.value, k) && SaysTrue(StatusOf(found.value[k]))
    ensures found.None? ==> issues == 1
    ensures found.Some? ==> exists n: nat :: FirstTrue(found.value, n) && issues == Complaints(found.value, n)
  {
    if found.None? { return 1; }
    var conditions := found.value;
    hide SaysTrue, TellsReadiness, EqualFold, Relevant, RelevantBefore;
    var availableCondFound := false;
    issues := 0;
    ghost var n := |conditions|;
    NoneBefore(conditions);
    for i := 0 to |conditions|
      invariant FirstTrue(conditions[..i], i)
      invariant issues == |RelevantBefore(conditions, i)|
      invariant availableCondFound <==> RelevantBefore(conditions, i) != {}
      invariant n == |conditions|
    {
      FoldsToAvailable(conditions[i]);
      FoldsToTrue(StatusOf(conditions[i]));
      Readable(conditions[i]);
      RelevantNext(conditions, i);
      if conditions[i].NotAMap? { continue; }
      if Relevant(conditions[i]) {
        availableCondFound := true;
        if EqualFold(conditions[i].status, "true") {
          n := i;
          break;
        }
        issues := issues + 1;
      }
    }
    RelevantIffFirst(conditions, n);
    if !availableCondFound { issues := issues + 1; }
  }

  lemma NoneBefore(conditions: seq<Entry>)
    ensures RelevantBefore(conditions, 0) == {}
  {
  }

  /** Nothing relevant comes before a first true condition exactly when it is the first relevant one. */
  lemma RelevantIffFirst(conditions: seq<Entry>, n: nat)
    requires FirstTrue(conditions, n)
    ensures (n < |conditions| && RelevantBefore(conditions, n) == {}) <==>
            exists k: nat :: FirstRelevant(conditions, k) && SaysTrue(StatusOf(conditions[k]))
  {
    hide SaysTrue, TellsReadiness;
    if n < |conditions| && RelevantBefore(conditions, n) == {} {
      forall i | 0 <= i < n ensures !TellsReadiness(conditions[i]) {
        assert i !in RelevantBefore(conditions, n);
      }
      assert FirstRelevant(conditions, n);
    }
    if k: nat :| FirstRelevant(conditions, k) && SaysTrue(StatusOf(conditions[k])) {
      assert n == k;
      assert forall i :: i in RelevantBefore(conditions, n) ==> false;
    }
  }

  lemma Readable(e: Entry)
    ensures TellsReadiness(e) ==> e.Condition?
  {
  }

  // ----- The tests compared -----

  ghost predicate NoRepeat(conditions: seq<Entry>, kind: string) {
    forall i, j :: 0 <= i < j < |conditions| && KindOf(conditions[i]) == kind ==> KindOf(conditions[j]) != kind
  }

  lemma OnceIsAlways(conditions: seq<Entry>, kind: string, status: string)
    requires NoRepeat(conditions, kind)
    ensures Always(conditions, kind, status) <==> Sometimes(conditions, kind, status)
  {
    if Sometimes(conditions, kind, status) {
      var e :| e in conditions && KindOf(e) == kind && StatusOf(e) == status;
      var i :| 0 <= i < |conditions| && conditions[i] == e;
      forall f | f in conditions && KindOf(f) == kind ensures StatusOf(f) == status {
        var j :| 0 <= j < |conditions| && conditions[j] == f;
        assert i == j;
      }
    }
  }

  /** What verifyConditions asks for, and what the ClusterOperator test asks for. */
  ghost predicate Strict(conditions: seq<Entry>) {
    Always(conditions, "Available", "True") && Always(conditions, "Degraded", "False")
  }

  ghost predicate Lenient(conditions: seq<Entry>) {
    Sometimes(conditions, "Available", "True") && Sometimes(conditions, "Degraded", "False")
  }

  /**
   verifyConditions is the stricter test, and the two differ exactly when a condition type occurs both
   with the wanted status and with another one.
   */
  lemma StrictVersusLenient(conditions: seq<Entry>)
    ensures Strict(conditions) ==> Lenient(conditions)
    ensures NoRepeat(conditions, "Available") && NoRepeat(conditions, "Degraded") ==>
      (Strict(conditions) <==> Lenient(conditions))
    ensures Strict(conditions) <==>
      && Lenient(conditions)
      && Deviations(conditions, "Available", "True") == 0 && Deviations(conditions, "Degraded", "False") == 0
  {
    NoDeviations(conditions, "Available", "True");
    NoDeviations(conditions, "Degraded", "False");
    if NoRepeat(conditions, "Available") && NoRepeat(conditions, "Degraded") {
      OnceIsAlways(conditions, "Available", "True");
      OnceIsAlways(conditions, "Degraded", "False");
    }
  }
}
