# Verified models of rosa-e2e

Dafny models of the parts of rosa-e2e that carry an algorithm, with proofs of what those parts
promise. `dafny verify dfyconfig.toml` checks the whole project.

## What is modelled

**VPC cascade cleanup** (`pkg/framework/vpc_cleanup.go`). `Ec2World` states what one EC2 call may do to
an account: network interfaces with an attachment that is named, unnamed, in flight or gone; security
groups with ingress and egress rules naming other groups; subnets; a clock and a trace of calls. Every
call looks up the *weather* of its tick: it is honoured, refused, or takes effect behind an error reply;
it has a latency; a detach started by it takes a given time or deletes the interface outright; the
caller's context may be cancelled in the pause after it; a page holds any number of entries. A
`Service` is a weather function and a listing order, so a lemma about all services speaks about every
pattern of faults. `VpcCleanup` gives the cleanup as functions on worlds; `VpcClient` has it in the form
of the source, loops over a client object whose world each call replaces, and proves that each method
computes its function. The other `Vpc*` modules prove what the cleanup achieves.

The dependency rules are assumptions about EC2, the ones the repository's tests lean on: an interface
can be deleted once it is available, a group once no *other* group's rule names it and no interface
wears it, a subnet once no interface lives in it; "InvalidNetworkInterfaceID" is answered only for an
interface that is gone; a detach call for an attachment that has already been released is an error;
nobody else changes the account during a run.

**Parallel verifiers** (`pkg/verifiers/verifier.go`). `Verifiers` is the goroutine, WaitGroup and channel
protocol as a step system; a schedule is any sequence of thread choices.

**Pollers and retries**. `Polling` is the specification the three deadline pollers share ("first decisive
observation, none started after the deadline"); `VpcTiming` shows the interface wait obeys it, `Oauth`
the two OAuth phases. `Oidc` is the token request with its delays.

**CI status report** (`scripts/ci-status-report.sh`). `CiConfig` is the line parser, `CiRecords` the
delimited records and the choice of a build, `CiFanOut` the background subshells with their files as a step
system, `CiReport` the tallies, the printed summaries and the exit code, ending in one end-to-end contract
from configuration lines to output and exit code.

**Sippy signals** (`test/e2e/sippy_signals.go`, `pkg/reporting/sippy.go`) and the three **condition folds** are in
`Sippy` and `Conditions`.

## Findings

Where the code does not do what one would expect, the model follows the code and a lemma says exactly when:

- A fault-free cleanup can fail. A detachment left in flight by an earlier run may complete between the
  listing and the turn of its interface; the detach call then names an attachment that no longer exists and the
  run stops. `VpcFair.FairEnis` says when, for every account: the interface phase succeeds iff every interface
  is on time. `VpcConvergence.FairRunExact` carries the condition to the whole run. The late interface need not
  be the first listed one (`VpcHistory.LaterInterfaceCanBeLate`), and nothing need be in flight at the start of
  the history (`VpcHistory.OneFairRunMayFail`). Each such failure leaves fewer detachments in flight, so
  repeating the run empties every clearable VPC: after a history under any weather, two more fault-free runs
  than detachments were in flight before it always do (`VpcHistory.Convergence`).
- The cleanup never revokes rules of the default group, so a group named there keeps every run from
  succeeding, as does an attachment without an id: `VpcConvergence.NeverNil`, and the other two conditions of
  `VpcConvergence.FairRunExact`.
- A `name:` line in a category's team block replaces the category's display name: the category keeps its own
  name iff the two agree (`CiConfig.TeamNameWins`).
- A `gating: true` line followed by anything but the end of the line, a comment for instance, does not gate
  (`CiConfig.FlagNeedsBareWord`, and `CiConfig.CommentUngates` for the printed row).
- The comments in scripts/ci-status-report.sh:26 and :75-76 say a job gates when its category gates or it sets
  `gating: true`; in the code a job's own value overrides the category's, as configs/ci-status-jobs.yaml:21-23
  intends. The comments hold of a job iff it does not opt out of a gating category
  (`CiConfig.GatingVersusComment`, with a configuration in `CiConfig.OptOutExample`).
- If a BeforeSuite failure is reported after upgrade specs ran without failing, the upgrade is reported as a
  failed case with an empty message; nothing else leads to an empty message (`Sippy.SippySignals`, with a suite
  in `Sippy.MuteExample`). With setup reported first this cannot happen (`Sippy.SetupFirstIsNeverMute`).

## Model

| member | source | states |
|---|---|---|
| VpcClient.CleanupVPCResources | pkg/framework/vpc_cleanup.go:44-59 | the run computes Cleanup; under any faults it keeps everything outside its remit, nil means the VPC is emptied, and what it returns is told by its calls (RunReport) |
| VpcClient.CleanupENIs | pkg/framework/vpc_cleanup.go:61-115 | lists all pages, then takes one interface after the other along the course EniPhase describes, stopping at the first failure |
| VpcClient.WaitForENIAvailable | pkg/framework/vpc_cleanup.go:117-150 | the polling loop computes Await from its own deadline |
| VpcClient.DeleteENIWithRetry | pkg/framework/vpc_cleanup.go:152-175 | the retry loop computes Expunge; alreadyGone exactly when the last reply was "not found" |
| VpcClient.CleanupSecurityGroups | pkg/framework/vpc_cleanup.go:177-251 | revoke pass over all listed groups, then delete pass; the report lists exactly the calls that failed |
| VpcClient.ListNonDefaultGroups | pkg/framework/vpc_cleanup.go:184-195 | dropping "default" page by page equals dropping it from the whole listing |
| VpcClient.CleanupSubnets | pkg/framework/vpc_cleanup.go:253-293 | deletes every listed subnet; the report lists exactly the deletes that failed |
| VpcTrace.EniTrace | pkg/framework/vpc_cleanup.go:61-115 | under every weather: an attached interface is detached, polled from the end of that call to its own deadline, and deleted only if the poll found it available; a failed detach or wait is returned with its reason and nothing is called after it; an unattached one is only deleted |
| VpcTrace.NoEarlyDelete | pkg/framework/vpc_cleanup.go:86-105 | every delete call on the trace is for a listed interface, and if that was listed as attached, its detach was acknowledged and its wait was over before |
| VpcEnis.EniPrefix | pkg/framework/vpc_cleanup.go:83-112 | under every weather: nil means every listed interface is gone; an error names the k-th, all before it are gone and all after it untouched |
| VpcEnis.ExpungeFrame | pkg/framework/vpc_cleanup.go:152-175 | success means gone, also when a delete took effect behind an error and a retry learnt the id is unknown; only that interface changes |
| VpcTiming.AwaitPolls | pkg/framework/vpc_cleanup.go:117-150 | the wait returns by the first decisive status and starts no status call after the deadline |
| VpcTiming.AwaitCallBound | pkg/framework/vpc_cleanup.go:117-150 | at most floor(timeout/interval)+1 status calls |
| VpcTiming.DefaultBudgets | pkg/framework/vpc_cleanup.go:30-35 | with the package defaults: two minutes, five seconds and 25 status calls for a wait, exactly five failed deletes three seconds apart before giving up |
| VpcTiming.ExpungeCalls | pkg/framework/vpc_cleanup.go:152-175 | the first decisive reply among at most `retries` calls determines the result: success, exhaustion after all of them, or a cancelled pause |
| VpcTiming.ExpungeLog | pkg/framework/vpc_cleanup.go:155-157 | every call of the loop is a delete of that one interface |
| VpcTiming.ExpungeTime | pkg/framework/vpc_cleanup.go:166-172 | a pause between calls and none after the last one |
| VpcGroups.RevokeExact | pkg/framework/vpc_cleanup.go:203-227 | after the revoke pass a listed group has exactly the rules whose own revoke call had no effect |
| VpcGroups.DeleteExact | pkg/framework/vpc_cleanup.go:229-241 | the in-order pass removes the k-th group iff its call takes effect, nothing wears it, and every other group still referring to it came earlier and was removed |
| VpcGroups.GroupSurvivors | pkg/framework/vpc_cleanup.go:203-241 | the same for both passes together, in terms of the groups as listed and of the revoke calls that had no effect |
| VpcGroups.AllGoIffForward | pkg/framework/vpc_cleanup.go:229-241 | with effective deletes the whole list goes iff every remaining reference comes from an earlier listed group |
| VpcGroups.KnotStays | pkg/framework/vpc_cleanup.go:203-203 | no sequence of deletes, in any order and under any weather, removes any group of a set in which each is referred to by another member |
| VpcGroups.CycleIsKnot | pkg/framework/vpc_cleanup.go:203-203 | the groups on a reference cycle are such a set |
| VpcGroups.UnrevokedKnotSurvives | pkg/framework/vpc_cleanup.go:203-241 | such a set survives the revoke and the delete pass together when each member is still referred to by another one after the revoke calls that had no effect |
| VpcGroups.GroupErrors | pkg/framework/vpc_cleanup.go:203-250 | every revoke and then every delete is attempted whatever fails; nil iff every call was acknowledged; otherwise the report lists, in order, exactly the calls on the trace that were not, and acknowledged plus reported equals attempted |
| VpcSubnets.SubnetErrors | pkg/framework/vpc_cleanup.go:275-292 | every listed subnet is attempted once; the report lists exactly the deletes that were not acknowledged, every subnet still there among them; acknowledged plus reported equals listed |
| VpcTrace.RunErrors | pkg/framework/vpc_cleanup.go:41-59 | the result of any run, read off its calls: a failed listing that ended it, the failed revokes and group deletes of the run, its failed subnet deletes, or the interface of its last call with the kind of that call |
| VpcRuns.PhaseBarriers | pkg/framework/vpc_cleanup.go:44-59 | on the call trace of any run: stages never go back, no group call before the VPC's interfaces are gone, no subnet call unless every revoke and group delete succeeded |
| VpcRuns.RunFrame | pkg/framework/vpc_cleanup.go:177-195 | in any run no resource appears, no group gains a rule, default groups and other VPCs stay exactly as they were |
| VpcRuns.NilMeansEmptied | pkg/framework/vpc_cleanup.go:41-59 | a nil run leaves no interface, non-default group or subnet in the VPC, under every weather |
| VpcFair.FairEnis | pkg/framework/vpc_cleanup.go:83-112 | fault-free, for any number of detachments in flight: the interface phase succeeds iff each listed attachment is still there when its turn comes; a failure leaves strictly fewer in flight |
| VpcConvergence.FairRun | pkg/framework/vpc_cleanup.go:41-59 | completeness for any reference graph: a fault-free run on a clearable VPC empties it iff every interface is on time, and otherwise leaves fewer detachments in flight |
| VpcConvergence.FairRunExact | pkg/framework/vpc_cleanup.go:41-59 | for every account a fault-free run returns nil iff no unrevoked outside rule names a target, no attachment lacks an id, and every interface is on time |
| VpcConvergence.QuietRunExact | pkg/framework/vpc_cleanup.go:188-195 | with nothing in flight at the start the last condition holds by itself |
| VpcConvergence.NeverNil | pkg/framework/vpc_cleanup.go:86-86 | such a rule or attachment keeps every run, under every weather, from returning nil |
| VpcConvergence.IdleRun | pkg/framework/vpc_cleanup.go:77-79 | a run on an emptied VPC makes listing calls only and changes nothing |
| VpcHistory.AtMostOneMore | pkg/framework/vpc_cleanup.go:83-112 | whatever the weather, any number of runs leaves at most one detachment in flight that was not before |
| VpcHistory.FairRuns | pkg/framework/vpc_cleanup.go:44-59 | of one more fault-free runs than detachments in flight one returns nil, and the VPC stays empty from then on |
| VpcHistory.Convergence | pkg/framework/vpc_cleanup.go:44-59 | from any clearable VPC, after any runs under any weather, two more fault-free runs than detachments in flight at the very beginning empty it |
| VpcHistory.QuietConvergence | pkg/framework/vpc_cleanup.go:44-59 | from a start with nothing in flight, two fault-free runs always suffice, and the first one fails iff it hits the race on the interface listed first |
| VpcHistory.OneFairRunMayFail | pkg/framework/vpc_cleanup.go:86-95 | a concrete account and weather in which the race makes a fault-free run fail after a lost acknowledgement |
| VpcHistory.LaterInterfaceCanBeLate | pkg/framework/vpc_cleanup.go:83-95 | an account in which it makes a fault-free run fail on an interface other than the first listed one |
| Verifiers.Safety | pkg/verifiers/verifier.go:20-34 | over every schedule: channel within capacity, no send after close, counter equals goroutines started minus finished, errors collected only after all finished |
| Verifiers.RefinesSequential | pkg/verifiers/verifier.go:19-42 | for every schedule that returns, the errors are as a multiset those of the sequential run; nil iff all verifiers pass |
| Verifiers.PermutationInvariant | pkg/verifiers/verifier.go:19-42 | permuting the verifiers changes only the order of the errors |
| Verifiers.SenderNeverBlocks | pkg/verifiers/verifier.go:20-29 | no goroutine ever blocks on its send |
| Verifiers.Progress | pkg/verifiers/verifier.go:23-39 | until it has returned, some thread can step |
| Verifiers.BoundedSteps | pkg/verifiers/verifier.go:23-39 | no schedule takes more than 7n+4 steps |
| Verifiers.ReturnsIffRoom | pkg/verifiers/verifier.go:20-20 | the protocol can return iff the channel has a slot for every failing verifier |
| Verifiers.RunVerifiers | pkg/verifiers/verifier.go:19-42 | with the scheduler's choices left open it terminates with one named error per failing verifier |
| Polling.CallBound | pkg/verifiers/oauth_readiness.go:49-54 | a deadline poller makes at most floor(T/p)+1 observations |
| Polling.Deterministic | pkg/verifiers/oauth_readiness.go:51-89 | the observations determine result, number of calls and end time |
| Oauth.WaitForOAuthPodReadiness | pkg/verifiers/oauth_readiness.go:46-90 | first decisive pod snapshot within the deadline |
| Oauth.WaitForOAuthWellKnownEndpoint | pkg/verifiers/oauth_readiness.go:109-146 | first 200 within the deadline, every other response retried |
| Oauth.IsPodContainersReady | pkg/verifiers/oauth_readiness.go:93-103 | at least one container, all ready |
| Oauth.VerifyOAuthServerReadiness | pkg/verifiers/oauth_readiness.go:30-40 | each phase has its own full timeout; bound on all observations; success iff a ready snapshot ended the first phase and a 200 the second |
| Oidc.GetOIDCAccessToken | pkg/verifiers/rhobs.go:62-107 | the first of at most four attempts that is neither unanswered nor a 5xx decides: its token, its status, or what is wrong with it; exhausted iff there is none; 0, 5, 15 or 35 s of pauses by the number of attempts |
| Oidc.OnlyDecidingMatters | pkg/verifiers/rhobs.go:64-107 | attempts that are retried alike and agree on the deciding response give the same result after as many calls |
| CiConfig.ParseConfig | scripts/ci-status-report.sh:35-107 | the parser loop computes the fold of its line rules and prints its rows |
| CiConfig.ConfigRows | scripts/ci-status-report.sh:40-105 | for every configuration one row per job in order, made from the lines of its own job and category only; own gating if set, else the category's |
| CiConfig.EveryConfigHasBlocks | scripts/ci-status-report.sh:40-59 | every sequence of lines is a preamble and category blocks, so that holds for all inputs |
| CiConfig.FlagWords | scripts/ci-status-report.sh:79 | the words that set the flag are 1, and yes and true in any case |
| CiConfig.FlagNeedsBareWord | scripts/ci-status-report.sh:79 | a word that sets the flag, in any case, does so iff nothing follows it |
| CiConfig.CommentUngates | scripts/ci-status-report.sh:77-105 | in every configuration the printed gating of a job whose last gating line starts with such a word is true iff nothing follows it |
| CiConfig.GatingVersusComment | scripts/ci-status-report.sh:75-105 | in every configuration the printed gating of a job is "category gates or own value is true" iff the job does not opt out of a gating category |
| CiConfig.OptOutExample | scripts/ci-status-report.sh:102-105 | a configuration where the two differ |
| CiConfig.TeamNameWins | scripts/ci-status-report.sh:62-65 | in every configuration a category followed by a team name is parsed with its own name iff the two agree |
| CiRecords.SplitJoin | scripts/ci-status-report.sh:241-245 | cutting a record recovers its fields iff none contains the delimiter |
| CiRecords.ReadRow | scripts/ci-status-report.sh:217-221 | reading a printed row gives back the job's fields, gating as the words true and false; cutting it gives back the category's |
| CiRecords.StatusFieldsDecide | scripts/ci-status-report.sh:122-149 | the newest build that is not pending decides and is shown; while all are pending the latest is running; without builds there is no data |
| CiRecords.RecordRoundTrip | scripts/ci-status-report.sh:151-169 | all six fields of each of the three record shapes are recovered: category, name, the deciding build's result and link, the job, and gating |
| CiFanOut.EverySchedule | scripts/ci-status-report.sh:216-240 | over every interleaving of main shell and subshells the lines read are a prefix of the sequential ones, the whole once all are read, and no file is read before every subshell has finished |
| CiFanOut.Progress | scripts/ci-status-report.sh:217-222 | until everything is collected some shell can step |
| CiFanOut.FanOut | scripts/ci-status-report.sh:216-240 | with the scheduler's choices left open it terminates with the sequential lines in config order |
| CiReport.CategoryOrder | scripts/ci-status-report.sh:198-209 | each category once, in the order of its first job |
| CiReport.Tally | scripts/ci-status-report.sh:224-281 | every counter is the number of entries with the results it stands for (SUCCESS; FAILURE or ABORTED; any other), the failing names per category are those of its failed entries in order, one result line per entry |
| CiReport.TallyConservation | scripts/ci-status-report.sh:247-264 | pass, fail and other add up to the jobs; each splits into gating and non-gating |
| CiReport.CategoryConservation | scripts/ci-status-report.sh:228-263 | each count is the sum of its per-category counts |
| CiReport.IndicatorExact | scripts/ci-status-report.sh:171-182 | PASS iff pass equals total, at least WARN iff twice pass reaches total |
| CiReport.RateShown | scripts/ci-status-report.sh:349-352 | indicator and printed percentage fit the rate, "N/A" iff it has no total |
| CiReport.Summarize | scripts/ci-status-report.sh:301-323 | per category in order: passed, all, rate, indicator and failing names are those of its entries |
| CiReport.GatingRates | scripts/ci-status-report.sh:341-356 | gating and non-gating rates are over jobs with a verdict; the rest of the jobs are the ones shown apart |
| CiReport.OutcomeByBuilds | scripts/ci-status-report.sh:288-367 | the report is cut short iff fewer than half of the jobs have a completed build; exit 1 iff so or the newest completed build of some job is not a SUCCESS |
| CiReport.Report | scripts/ci-status-report.sh:184-368 | end to end: one entry per configured job with its own effective gating and the verdict of its newest completed build; category summary in config order, job lines, totals and gating rates are those of the entries; exit code as above |
| Sippy.AnalyzeSuiteReport | test/e2e/sippy_signals.go:32-91 | the fold equals the declarative signals, first failure messages included; the final reset never acts |
| Sippy.HealthySignals | test/e2e/sippy_signals.go:50-88 | without a failed setup an area passes unless one of its specs that ran failed, by node type, state and label, and its message is that of the first one |
| Sippy.VerdictsIgnoreOrder | test/e2e/sippy_signals.go:41-79 | verdicts do not depend on the order of the specs, the upgrade verdicts as long as setup did not fail |
| Sippy.WriteSippyJUnit | pkg/reporting/sippy.go:53-83 | totals equal case and failed-case counts; each case carries its own name, signal and message |
| Sippy.SippySignals | test/e2e/sippy_signals.go:16-30 | every failed case has a message, except exactly when setup failed after upgrade specs that did not fail |
| Sippy.MuteExample | test/e2e/sippy_signals.go:41-79 | a suite in that situation: upgrade run, not passed, no message |
| Conditions.VerifyConditions | pkg/verifiers/hostedcluster.go:92-146 | accepts iff both types occur and every occurrence has the wanted status; counts its issues |
| Conditions.ClusterOperatorHealth | pkg/verifiers/clusteroperators.go:42-73 | healthy iff some occurrence of each type has the wanted status |
| Conditions.VpcEndpointIssues | pkg/verifiers/managed_operators.go:57-93 | accepts iff the first condition of type AWSVpcEndpointReady, or available in any case, says true in any case; counts those before the first true one, or one when there is none |
| Conditions.StrictVersusLenient | pkg/verifiers/hostedcluster.go:101-145 | the first test implies the second; they agree when no type repeats, and in general iff no occurrence deviates |

## Left out

- Error texts: errors keep their kind, the resource id and the failed calls, not the wording; log lines are dropped.
- EC2 attachment ids: a detach call names the interface, which has at most one attachment.
- Polling with an interval of zero: the timing parameters demand that polling lets time pass.
- Changes made to the account by others while a run is under way.
- Python's aliasing of `current_job` with an element of `current_cat['jobs']`: the model updates the last job of the last category.
- CiConfig.ParseConfig: takes lines already classified by the parser's regular expressions.
- CiReport.Report: takes the outcome of each job-history request as input; the header, the display names of the categories and the column layout are not modelled.
- A background subshell killed before it has written its record, and a full disk.
- A verifier that panics or never returns.
- HTTP, JSON and XML encoding, file output, and the parsing of Kubernetes objects.
- The list-level loops around the per-operator and per-endpoint tests, which only collect names.
- OCM, Kubernetes and AWS client wiring, configuration loading, cluster creation and the Ginkgo specs themselves.
- `WaitForClusterReady` and `WaitForUpgradeComplete`, whose ticker and timeout race in one `select`.
