/** The OAuth server readiness check (pkg/verifiers/oauth_readiness.go): two deadline pollers in a row. */
module Oauth {
  import opened Polling

  datatype Failing = ListFailed | BadRequest

  /** A pod as the readiness of each of its containers. */
  type Pod = seq<bool>

  datatype PodList = Unlisted | Pods(pods: seq<Pod>)
  datatype PodAnswer = PodAnswer(list: PodList, lag: nat, cancelled: bool)

  datatype Probe = NoRequest | NoResponse | Status(code: int)
  datatype ProbeAnswer = ProbeAnswer(probe: Probe, lag: nat, cancelled: bool)

  const POD_INTERVAL := 15000
  const PROBE_INTERVAL := 10000

  /** At least one pod, and every pod has at least one container and only ready ones. */
  ghost predicate AllReady(pods: seq<Pod>) {
    pods != [] && forall p :: p in pods ==> p != [] && false !in p
  }

  ghost function PodVerdict(l: PodList): Verdict<Failing> {
    if l.Unlisted? then Failure(ListFailed) else if AllReady(l.pods) then Success else Pending
  }

  function ProbeVerdict(p: Probe): Verdict<Failing> {
    if p.NoRequest? then Failure(BadRequest) else if p == Status(200) then Success else Pending
  }

  ghost function PodScript(env: nat -> PodAnswer): Script<Failing> {
    (k: nat) => Reading(PodVerdict(env(k).list), env(k).lag, env(k).cancelled)
  }

  ghost function ProbeScript(env: nat -> ProbeAnswer): Script<Failing> {
    (k: nat) => Reading(ProbeVerdict(env(k).probe), env(k).lag, env(k).cancelled)
  }

  method IsPodContainersReady(statuses: Pod) returns (ready: bool)
    ensures ready <==> statuses != [] && false !in statuses
  {
    if |statuses| == 0 { return false; }
    for i := 0 to |statuses|
      invariant false !in statuses[..i]
    {
      if !statuses[i] { return false; }
    }
    assert statuses == statuses[..|statuses|];
    return true;
  }

  method AllPodsReady(pods: seq<Pod>) returns (allReady: bool)
    ensures allReady <==> forall p :: p in pods ==> p != [] && false !in p
  {
    allReady := true;
    for i := 0 to |pods|
      invariant allReady
      invariant forall j :: 0 <= j < i ==> pods[j] != [] && false !in pods[j]
    {
      var ready := IsPodContainersReady(pods[i]);
      assert pods[i] in pods;
      if !ready {
        allReady := false;
        break;
      }
    }
  }

  method WaitForOAuthPodReadiness(env: nat -> PodAnswer, start: nat, timeout: nat)
    returns (result: Result<Failing>, calls: nat, end: nat)
    ensures FirstDecisive(PodScript(env), start, start + timeout, 15000, calls, result, end)
  {
    var deadline, now := start + timeout, start;
    calls := 0;
    while true
      invariant now == CallTime(PodScript(env), start, POD_INTERVAL, calls)
      invariant forall j :: 0 <= j < calls ==> CallTime(PodScript(env), start, POD_INTERVAL, j) <= deadline
      invariant forall j :: 0 <= j < calls ==> !Decisive(PodScript(env)(j))
      decreases deadline + 1 - now
    {
      if deadline < now { return TimedOut, calls, now; }
      var answer := env(calls);
      calls, now := calls + 1, now + answer.lag;
      if answer.list.Unlisted? { return Error(ListFailed), calls, now; }
      if |answer.list.pods| != 0 {
        var allReady := AllPodsReady(answer.list.pods);
        if allReady { return Done, calls, now; }
      }
      if answer.cancelled { return Cancelled, calls, now; }
      now := now + POD_INTERVAL;
    }
  }

  method WaitForOAuthWellKnownEndpoint(env: nat -> ProbeAnswer, start: nat, timeout: nat)
    returns (result: Result<Failing>, calls: nat, end: nat)
    ensures FirstDecisive(ProbeScript(env), start, start + timeout, 10000, calls, result, end)
  {
    var deadline, now := start + timeout, start;
    calls := 0;
    while true
      invariant now == CallTime(ProbeScript(env), start, PROBE_INTERVAL, calls)
      invariant forall j :: 0 <= j < calls ==> CallTime(ProbeScript(env), start, PROBE_INTERVAL, j) <= deadline
      invariant forall j :: 0 <= j < calls ==> !Decisive(ProbeScript(env)(j))
      decreases deadline + 1 - now
    {
      if deadline < now { return TimedOut, calls, now; }
      var answer := env(calls);
      calls := calls + 1;
      if answer.probe.NoRequest? { return Error(BadRequest), calls, now + answer.lag; }
      now := now + answer.lag;
      if answer.probe.Status? {
        if answer.probe.code == 200 { return Done, calls, now; }
      }
      if answer.cancelled { return Cancelled, calls, now; }
      now := now + PROBE_INTERVAL;
    }
  }

  /** Each phase gets the full timeout, the second from the moment the first is done. */
  method VerifyOAuthServerReadiness(pods: nat -> PodAnswer, probes: nat -> ProbeAnswer, start: nat, timeout: nat)
    returns (result: Result<Failing>, first: Result<Failing>, podCalls: nat, probeCalls: nat, between: nat, end: nat)
    ensures FirstDecisive(PodScript(pods), start, start + timeout, 15000, podCalls, first, between)
    ensures if first == Done
            then FirstDecisive(ProbeScript(probes), between, between + timeout, 10000, probeCalls, result, end)
            else result == first && probeCalls == 0 && end == between
    ensures podCalls + probeCalls <= (timeout / 15000 + 1) + (timeout / 10000 + 1)
    ensures result == Done <==>
      && 0 < podCalls && pods(podCalls - 1).list.Pods? && AllReady(pods(podCalls - 1).list.pods)
      && 0 < probeCalls && probes(probeCalls - 1).probe == Status(200)
  {
    first, podCalls, between := WaitForOAuthPodReadiness(pods, start, timeout);
    CallBound(PodScript(pods), start, start + timeout, POD_INTERVAL, podCalls, first, between);
    if first != Done {
      return first, first, podCalls, 0, between, between;
    }
    result, probeCalls, end := WaitForOAuthWellKnownEndpoint(probes, between, timeout);
    CallBound(ProbeScript(probes), between, between + timeout, PROBE_INTERVAL, probeCalls, result, end);
  }
}
