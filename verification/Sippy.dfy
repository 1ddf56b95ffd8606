/** The Sippy signals of a suite (test/e2e/sippy_signals.go) and their JUnit form (pkg/reporting/sippy.go). */
module Sippy {
  import opened Prelude

  datatype Node = BeforeSuite | It | OtherNode
  datatype State = Passed | Failed | Skipped | Pending | Aborted | Panicked | Interrupted | TimedOut | Invalid

  datatype Spec = Spec(node: Node, state: State, labels: seq<string>, text: string, message: string)

  datatype Signals = Signals(
    installPassed: bool, infrastructurePassed: bool, upgradeRan: bool, upgradePassed: bool,
    installMessage: string, infraMessage: string, upgradeMessage: string)

  /** spec.Failed(): the failure states of the test framework. */
  predicate HasFailed(s: Spec) {
    s.state in {Failed, Aborted, Panicked, Interrupted, TimedOut}
  }

  predicate SetupFailed(s: Spec) {
    s.node == BeforeSuite && HasFailed(s)
  }

  predicate Executed(s: Spec) {
    s.node == It && s.state != Skipped && s.state != Pending
  }

  predicate IsUpgrade(s: Spec) {
    Executed(s) && "Area:Upgrade" in s.labels
  }

  predicate IsInfra(s: Spec) {
    Executed(s) && ("Area:ManagedService" in s.labels || "Area:ClusterLifecycle" in s.labels)
  }

  function Message(s: Spec): string {
    s.text + ": " + s.message
  }

  const UNREACHABLE := "cluster unreachable (BeforeSuite failed)"

  // ----- The declarative signals -----

  predicate UpgradeFailure(s: Spec) {
    IsUpgrade(s) && HasFailed(s)
  }

  predicate InfraFailure(s: Spec) {
    IsInfra(s) && HasFailed(s)
  }

  /** The message of the first failing spec of an area, empty if there is none. */
  function FirstUpgradeMessage(specs: seq<Spec>): string {
    if specs == [] then ""
    else if UpgradeFailure(specs[0]) then Message(specs[0])
    else FirstUpgradeMessage(specs[1..])
  }

  function FirstInfraMessage(specs: seq<Spec>): string {
    if specs == [] then ""
    else if InfraFailure(specs[0]) then Message(specs[0])
    else FirstInfraMessage(specs[1..])
  }

  ghost predicate AnyUpgrade(specs: seq<Spec>) {
    exists s :: s in specs && IsUpgrade(s)
  }

  ghost predicate NoneFailed(specs: seq<Spec>, failure: Spec -> bool) {
    forall s :: s in specs ==> !failure(s)
  }

  /** Signals of a suite whose setup succeeded. */
  ghost predicate Healthy(specs: seq<Spec>, r: Signals) {
    && r.installPassed && r.installMessage == ""
    && (r.infrastructurePassed <==> NoneFailed(specs, InfraFailure))
    && r.infraMessage == FirstInfraMessage(specs)
    && (r.upgradeRan <==> AnyUpgrade(specs))
    && (r.upgradePassed <==> r.upgradeRan && NoneFailed(specs, UpgradeFailure))
    && r.upgradeMessage == FirstUpgradeMessage(specs)
  }

  /** Signals of a suite whose first failing setup is the b-th spec: what ran before it still shows. */
  ghost predicate Unreachable(specs: seq<Spec>, b: nat, r: Signals)
    requires b < |specs|
  {
    && !r.installPassed && !r.infrastructurePassed && !r.upgradePassed
    && r.installMessage == "BeforeSuite failed: " + specs[b].message
    && r.infraMessage == "cluster unreachable (BeforeSuite failed)"
    && (r.upgradeRan <==> AnyUpgrade(specs[..b]))
    && r.upgradeMessage == FirstUpgradeMessage(specs[..b])
  }

  ghost predicate FirstSetupFailure(specs: seq<Spec>, b: nat) {
    b < |specs| && SetupFailed(specs[b]) && forall i :: 0 <= i < b ==> !SetupFailed(specs[i])
  }

  ghost predicate Analysis(specs: seq<Spec>, r: Signals) {
    if exists s :: s in specs && SetupFailed(s)
    then exists b: nat :: FirstSetupFailure(specs, b) && Unreachable(specs, b, r)
    else Healthy(specs, r)
  }

  lemma {:induction false} FirstUpgradeSnoc(specs: seq<Spec>, s: Spec)
    ensures FirstUpgradeMessage(specs + [s]) ==
            if FirstUpgradeMessage(specs) != "" then FirstUpgradeMessage(specs)
            else if UpgradeFailure(s) then Message(s) else ""
    ensures FirstUpgradeMessage(specs) == "" <==> forall t :: t in specs ==> !UpgradeFailure(t)
  {
    if specs != [] {
      assert (specs + [s])[1..] == specs[1..] + [s];
      FirstUpgradeSnoc(specs[1..], s);
    }
  }

  lemma {:induction false} FirstInfraSnoc(specs: seq<Spec>, s: Spec)
    ensures FirstInfraMessage(specs + [s]) ==
            if FirstInfraMessage(specs) != "" then FirstInfraMessage(specs)
            else if InfraFailure(s) then Message(s) else ""
    ensures FirstInfraMessage(specs) == "" <==> forall t :: t in specs ==> !InfraFailure(t)
  {
    if specs != [] {
      assert (specs + [s])[1..] == specs[1..] + [s];
      FirstInfraSnoc(specs[1..], s);
    }
  }

  lemma MembersSnoc(front: seq<Spec>, last: Spec)
    ensures AnyUpgrade(front + [last]) <==> AnyUpgrade(front) || IsUpgrade(last)
    ensures NoneFailed(front + [last], UpgradeFailure) <==> NoneFailed(front, UpgradeFailure) && !UpgradeFailure(last)
    ensures NoneFailed(front + [last], InfraFailure) <==> NoneFailed(front, InfraFailure) && !InfraFailure(last)
  {
    var all := front + [last];
    assert last in all && forall s :: s in front ==> s in all;
    assert forall s :: s in all ==> s in front || s == last;
  }

  lemma NothingYet()
    ensures !AnyUpgrade([]) && NoneFailed([], UpgradeFailure) && NoneFailed([], InfraFailure)
    ensures FirstUpgradeMessage([]) == "" && FirstInfraMessage([]) == ""
  {
  }

  /** The fold computes the declarative signals; its final reset for suites without infra specs never acts. */
  method AnalyzeSuiteReport(specs: seq<Spec>) returns (result: Signals)
    ensures Analysis(specs, result)
  {
    hide AnyUpgrade, NoneFailed, FirstUpgradeMessage, FirstInfraMessage;
    NothingYet();
    result := Signals(true, true, false, false, "", "", "");
    var infraSpecsRan, upgradeAnyFailed := false, false;
    for i := 0 to |specs|
      invariant forall j :: 0 <= j < i ==> !SetupFailed(specs[j])
      invariant result.installPassed && result.installMessage == "" && !result.upgradePassed
      invariant result.infrastructurePassed <==> NoneFailed(specs[..i], InfraFailure)
      invariant !result.infrastructurePassed ==> infraSpecsRan
      invariant !upgradeAnyFailed <==> NoneFailed(specs[..i], UpgradeFailure)
      invariant result.upgradeRan <==> AnyUpgrade(specs[..i])
      invariant result.infraMessage == FirstInfraMessage(specs[..i])
      invariant result.upgradeMessage == FirstUpgradeMessage(specs[..i])
    {
      var spec := specs[i];
      assert specs[..i + 1] == specs[..i] + [spec];
      FirstUpgradeSnoc(specs[..i], spec);
      FirstInfraSnoc(specs[..i], spec);
      MembersSnoc(specs[..i], spec);
      if spec.node == BeforeSuite && HasFailed(spec) {
        result := result.(installPassed := false, infrastructurePassed := false,
                          installMessage := "BeforeSuite failed: " + spec.message, infraMessage := UNREACHABLE);
        assert FirstSetupFailure(specs, i) && spec in specs;
        return;
      }
      if spec.node != It { continue; }
      if spec.state == Skipped || spec.state == Pending { continue; }
      if "Area:Upgrade" in spec.labels {
        result := result.(upgradeRan := true);
        if HasFailed(spec) {
          upgradeAnyFailed := true;
          if result.upgradeMessage == "" { result := result.(upgradeMessage := Message(spec)); }
        }
      }
      if "Area:ManagedService" in spec.labels || "Area:ClusterLifecycle" in spec.labels {
        infraSpecsRan := true;
        if HasFailed(spec) {
          result := result.(infrastructurePassed := false);
          if result.infraMessage == "" { result := result.(infraMessage := Message(spec)); }
        }
      }
    }
    assert specs[..|specs|] == specs;
    if result.upgradeRan { result := result.(upgradePassed := !upgradeAnyFailed); }
    ghost var folded := result;
    if !infraSpecsRan { result := result.(infrastructurePassed := true); }
    assert result == folded;
  }

  // ----- The signals in the terms of the test framework -----

  /** A spec of an area that ran: an It that was neither skipped nor left pending. */
  ghost predicate RanIn(s: Spec, areas: set<string>) {
    s.node == It && s.state !in {Skipped, Pending} && exists l :: l in s.labels && l in areas
  }

  ghost predicate FailedState(s: Spec) {
    s.state in {Failed, Aborted, Panicked, Interrupted, TimedOut}
  }

  /** The first spec of an area that failed. */
  ghost predicate FirstFailed(specs: seq<Spec>, areas: set<string>, k: nat) {
    && k < |specs| && RanIn(specs[k], areas) && FailedState(specs[k])
    && forall i :: 0 <= i < k ==> !(RanIn(specs[i], areas) && FailedState(specs[i]))
  }

  const UPGRADE_AREAS := {"Area:Upgrade"}
  const INFRA_AREAS := {"Area:ManagedService", "Area:ClusterLifecycle"}

  lemma AreaSpecs(s: Spec)
    ensures IsUpgrade(s) <==> RanIn(s, UPGRADE_AREAS)
    ensures IsInfra(s) <==> RanIn(s, INFRA_AREAS)
    ensures HasFailed(s) <==> FailedState(s)
  {
    if IsUpgrade(s) {
      assert "Area:Upgrade" in UPGRADE_AREAS;
    }
    if IsInfra(s) {
      assert "Area:ManagedService" in INFRA_AREAS && "Area:ClusterLifecycle" in INFRA_AREAS;
    }
  }

  lemma {:induction false} FirstUpgradeIs(specs: seq<Spec>, k: nat)
    requires FirstFailed(specs, UPGRADE_AREAS, k)
    ensures FirstUpgradeMessage(specs) == specs[k].text + ": " + specs[k].message
  {
    hide RanIn, FailedState, IsUpgrade, HasFailed;
    AreaSpecs(specs[0]);
    if k != 0 {
      assert forall i :: 0 <= i < k - 1 ==> specs[1..][i] == specs[i + 1];
      FirstUpgradeIs(specs[1..], k - 1);
    }
  }

  lemma {:induction false} FirstInfraIs(specs: seq<Spec>, k: nat)
    requires FirstFailed(specs, INFRA_AREAS, k)
    ensures FirstInfraMessage(specs) == specs[k].text + ": " + specs[k].message
  {
    hide RanIn, FailedState, IsInfra, HasFailed;
    AreaSpecs(specs[0]);
    if k != 0 {
      assert forall i :: 0 <= i < k - 1 ==> specs[1..][i] == specs[i + 1];
      FirstInfraIs(specs[1..], k - 1);
    }
  }

  /**
   When no setup failed: an area passes unless one of its specs that ran failed, and the message names the
   first such spec; the upgrade ran when one of its specs did.
   */
  lemma HealthySignals(specs: seq<Spec>, r: Signals)
    requires Analysis(specs, r)
    requires forall s :: s in specs && s.node == BeforeSuite ==> !FailedState(s)
    ensures r.installPassed && r.installMessage == ""
    ensures r.upgradeRan <==> exists s :: s in specs && RanIn(s, UPGRADE_AREAS)
    ensures r.upgradePassed <==>
      r.upgradeRan && forall s :: s in specs && RanIn(s, UPGRADE_AREAS) ==> !FailedState(s)
    ensures r.infrastructurePassed <==> forall s :: s in specs && RanIn(s, INFRA_AREAS) ==> !FailedState(s)
    ensures forall k: nat :: FirstFailed(specs, UPGRADE_AREAS, k) ==>
      r.upgradeMessage == specs[k].text + ": " + specs[k].message
    ensures forall k: nat :: FirstFailed(specs, INFRA_AREAS, k) ==>
      r.infraMessage == specs[k].text + ": " + specs[k].message
  {
    hide RanIn, FailedState, IsUpgrade, IsInfra, HasFailed;
    forall s ensures IsUpgrade(s) <==> RanIn(s, UPGRADE_AREAS)
      ensures IsInfra(s) <==> RanIn(s, INFRA_AREAS)
      ensures HasFailed(s) <==> FailedState(s)
    {
      AreaSpecs(s);
    }
    forall k: nat | FirstFailed(specs, UPGRADE_AREAS, k)
      ensures r.upgradeMessage == specs[k].text + ": " + specs[k].message
    {
      FirstUpgradeIs(specs, k);
    }
    forall k: nat | FirstFailed(specs, INFRA_AREAS, k)
      ensures r.infraMessage == specs[k].text + ": " + specs[k].message
    {
      FirstInfraIs(specs, k);
    }
  }

  // ----- Order -----

  predicate SameSpecs(a: seq<Spec>, b: seq<Spec>) {
    multiset(a) == multiset(b)
  }

  lemma SameMembers(a: seq<Spec>, b: seq<Spec>)
    requires SameSpecs(a, b)
    ensures forall s :: s in a <==> s in b
  {
    assert forall s :: s in a <==> s in multiset(a);
    assert forall s :: s in b <==> s in multiset(b);
  }

  /**
   The install and infrastructure verdicts never depend on the order of the specs; the upgrade verdicts
   do not either when the setup did not fail.
   */
  lemma VerdictsIgnoreOrder(a: seq<Spec>, b: seq<Spec>, ra: Signals, rb: Signals)
    requires SameSpecs(a, b) && Analysis(a, ra) && Analysis(b, rb)
    ensures ra.installPassed == rb.installPassed && ra.infrastructurePassed == rb.infrastructurePassed
    ensures (forall s :: s in a ==> !SetupFailed(s)) ==>
      ra.upgradeRan == rb.upgradeRan && ra.upgradePassed == rb.upgradePassed
  {
    SameMembers(a, b);
  }

  // ----- JUnit -----

  datatype Case = Case(name: string, status: string, failure: Option<string>)
  datatype Suites = Suites(tests: nat, failures: nat, cases: seq<Case>)

  const INSTALL := "install should succeed: overall"
  const INFRASTRUCTURE := "install should succeed: infrastructure"
  const UPGRADE := "[sig-sippy] upgrade should work"

  function MakeTestCase(name: string, passed: bool, message: string): Case {
    if passed then Case(name, "passed", None) else Case(name, "failed", Some(message))
  }

  function FailedCases(cases: seq<Case>): nat {
    if cases == [] then 0
    else FailedCases(cases[..|cases| - 1]) + if cases[|cases| - 1].status == "failed" then 1 else 0
  }

  /** A case is failed exactly when it carries a failure. */
  predicate Coherent(c: Case) {
    c.status in {"passed", "failed"} && (c.status == "failed" <==> c.failure.Some?)
  }

  lemma FailedSnoc(cases: seq<Case>, c: Case)
    ensures FailedCases(cases + [c]) == FailedCases(cases) + if c.status == "failed" then 1 else 0
  {
    assert (cases + [c])[..|cases|] == cases;
  }

  method WriteSippyJUnit(result: Signals) returns (suites: Suites)
    ensures suites.tests == |suites.cases| == if result.upgradeRan then 3 else 2
    ensures suites.failures == FailedCases(suites.cases)
    ensures forall c :: c in suites.cases ==> Coherent(c)
    ensures suites.cases[0].name == "install should succeed: overall"
    ensures suites.cases[1].name == "install should succeed: infrastructure"
    ensures suites.cases[0].status == "passed" <==> result.installPassed
    ensures suites.cases[1].status == "passed" <==> result.infrastructurePassed
    ensures result.upgradeRan ==>
      && suites.cases[2].name == "[sig-sippy] upgrade should work"
      && (suites.cases[2].status == "passed" <==> result.upgradePassed)
    ensures forall i :: 0 <= i < |suites.cases| && suites.cases[i].failure.Some? ==>
      suites.cases[i].failure.value == [result.installMessage, result.infraMessage, result.upgradeMessage][i]
  {
    var cases: seq<Case>, failures := [], 0;
    FailedSnoc(cases, MakeTestCase(INSTALL, result.installPassed, result.installMessage));
    cases := cases + [MakeTestCase(INSTALL, result.installPassed, result.installMessage)];
    if !result.installPassed { failures := failures + 1; }
    FailedSnoc(cases, MakeTestCase(INFRASTRUCTURE, result.infrastructurePassed, result.infraMessage));
    cases := cases + [MakeTestCase(INFRASTRUCTURE, result.infrastructurePassed, result.infraMessage)];
    if !result.infrastructurePassed { failures := failures + 1; }
    if result.upgradeRan {
      FailedSnoc(cases, MakeTestCase(UPGRADE, result.upgradePassed, result.upgradeMessage));
      cases := cases + [MakeTestCase(UPGRADE, result.upgradePassed, result.upgradeMessage)];
      if !result.upgradePassed { failures := failures + 1; }
    }
    suites := Suites(|cases|, failures, cases);
  }

  /** The suite's setup failed after upgrade specs had run and none of them had failed. */
  ghost predicate Mute(specs: seq<Spec>) {
    exists b: nat :: FirstSetupFailure(specs, b)
      && AnyUpgrade(specs[..b]) && NoneFailed(specs[..b], UpgradeFailure)
  }

  /**
   From suite to JUnit: each failed case carries a non-empty message, except in exactly one situation,
   in which an upgrade that did not fail is reported as failed without a message.
   */
  method SippySignals(specs: seq<Spec>) returns (result: Signals, suites: Suites)
    ensures Analysis(specs, result)
    ensures suites.tests == |suites.cases| && suites.failures == FailedCases(suites.cases)
    ensures forall c :: c in suites.cases ==> Coherent(c)
    ensures (forall c :: c in suites.cases && c.status == "failed" ==> c.failure != Some("")) <==> !Mute(specs)
  {
    result := AnalyzeSuiteReport(specs);
    suites := WriteSippyJUnit(result);
    MuteExactly(specs, result);
    assert suites.cases[0] in suites.cases && suites.cases[1] in suites.cases;
    assert result.upgradeRan ==> suites.cases[2] in suites.cases;
    MessagesPresent(specs, result);
  }

  lemma MessagesPresent(specs: seq<Spec>, r: Signals)
    requires Analysis(specs, r)
    ensures !r.installPassed ==> r.installMessage != ""
    ensures !r.infrastructurePassed ==> r.infraMessage != ""
  {
    FirstInfraSnoc(specs, Spec(OtherNode, Passed, [], "", ""));
  }

  lemma MuteExactly(specs: seq<Spec>, r: Signals)
    requires Analysis(specs, r)
    ensures Mute(specs) <==> r.upgradeRan && !r.upgradePassed && r.upgradeMessage == ""
  {
    var none := Spec(OtherNode, Passed, [], "", "");
    if exists s :: s in specs && SetupFailed(s) {
      var b: nat :| FirstSetupFailure(specs, b) && Unreachable(specs, b, r);
      FirstUpgradeSnoc(specs[..b], none);
      assert forall c: nat :: FirstSetupFailure(specs, c) ==> c == b;
    } else {
      FirstUpgradeSnoc(specs, none);
      assert forall b: nat :: b < |specs| ==> specs[b] in specs;
    }
  }

  /** A suite in that situation, and what is reported for it. */
  lemma MuteExample()
    ensures
      var specs := [Spec(It, Passed, ["Area:Upgrade"], "upgrade", ""), Spec(BeforeSuite, Failed, [], "setup", "m")];
      && Mute(specs)
      && forall r :: Analysis(specs, r) ==> r.upgradeRan && !r.upgradePassed && r.upgradeMessage == ""
  {
    var specs := [Spec(It, Passed, ["Area:Upgrade"], "upgrade", ""), Spec(BeforeSuite, Failed, [], "setup", "m")];
    assert FirstSetupFailure(specs, 1);
    assert specs[..1] == [specs[0]] && IsUpgrade(specs[0]);
    forall r | Analysis(specs, r) ensures r.upgradeRan && !r.upgradePassed && r.upgradeMessage == "" {
      MuteExactly(specs, r);
    }
  }

  /** The framework's own order, setup before specs, rules that situation out. */
  lemma SetupFirstIsNeverMute(specs: seq<Spec>)
    requires forall i, j :: 0 <= i < j < |specs| && SetupFailed(specs[j]) ==> !Executed(specs[i])
    ensures !Mute(specs)
  {
  }
}
