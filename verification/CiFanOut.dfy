/**
 The parallel fan-out of the CI status report (scripts/ci-status-report.sh, main): one background
 subshell per job, each writing the file of its index, a wait, and a loop that reads the files back.
 A step is one action of the main shell or of one subshell; a schedule is any sequence of choices, in
 which a choice that is not enabled does nothing.
 */
module CiFanOut {
  import opened Prelude
  import opened CiRecords

  /** The redirection creates an empty file as the subshell starts; the record is written at the end. */
  datatype Child = Unborn | Forked | Querying | Writing(record: string) | Exited

  datatype Phase = Launching(next: nat) | Waiting | Collecting(next: nat) | Collected

  datatype Shell = MainShell | Subshell(i: nat)

  /** The jobs, and what the request of each job finds. */
  datatype Work = Work(jobs: seq<JobLine>, histories: nat -> History)

  datatype State = State(phase: Phase, children: seq<Child>, files: map<nat, string>, lines: seq<string>)

  function Init(w: Work): State {
    State(Launching(0), seq(|w.jobs|, i => Unborn), map[], [])
  }

  function RecordAt(w: Work, i: nat): string
    requires i < |w.jobs|
  {
    Record(w.jobs[i], JobStatus(w.histories(i)))
  }

  predicate AllExited(s: State) {
    forall c :: c in s.children ==> c.Exited?
  }

  function Step(w: Work, s: State, shell: Shell): Option<State> {
    match shell
    case MainShell => MainStep(w, s)
    case Subshell(i) => if i < |w.jobs| && i < |s.children| then ChildStep(w, s, i) else None
  }

  function MainStep(w: Work, s: State): Option<State> {
    match s.phase
    case Launching(i) =>
      if i < |s.children| then Some(s.(phase := Launching(i + 1), children := s.children[i := Forked]))
      else Some(s.(phase := Waiting))
    case Waiting => if AllExited(s) then Some(s.(phase := Collecting(0))) else None
    case Collecting(i) =>
      if i < |s.children| then
        Some(s.(phase := Collecting(i + 1), lines := s.lines + if i in s.files then [s.files[i]] else []))
      else Some(s.(phase := Collected))
    case Collected => None
  }

  function ChildStep(w: Work, s: State, i: nat): Option<State>
    requires i < |w.jobs| && i < |s.children|
  {
    match s.children[i]
    case Unborn => None
    case Forked => Some(s.(files := s.files[i := ""], children := s.children[i := Querying]))
    case Querying => Some(s.(children := s.children[i := Writing(RecordAt(w, i))]))
    case Writing(record) => Some(s.(files := s.files[i := record], children := s.children[i := Exited]))
    case Exited => None
  }

  function Exec(w: Work, s: State, schedule: seq<Shell>): State
    decreases |schedule|
  {
    if schedule == [] then s
    else
      var next := Step(w, s, schedule[0]);
      Exec(w, if next.Some? then next.value else s, schedule[1..])
  }

  // ----- What every schedule keeps -----

  function Launched(w: Work, p: Phase): nat {
    if p.Launching? then p.next else |w.jobs|
  }

  predicate Past(p: Phase) {
    p.Collecting? || p.Collected?
  }

  function Read(w: Work, p: Phase): nat {
    if p.Collecting? then p.next else if p.Collected? then |w.jobs| else 0
  }

  ghost predicate Inv(w: Work, s: State) {
    var n := |w.jobs|;
    && |s.children| == n
    && Launched(w, s.phase) <= n && Read(w, s.phase) <= n
    && (forall i :: 0 <= i < n ==> (s.children[i].Unborn? <==> Launched(w, s.phase) <= i))
    && (forall i :: 0 <= i < n && s.children[i].Writing? ==> s.children[i].record == RecordAt(w, i))
    && (forall i :: 0 <= i < n && s.children[i].Exited? ==> i in s.files && s.files[i] == RecordAt(w, i))
    && (Past(s.phase) ==> forall i :: 0 <= i < n ==> s.children[i].Exited?)
    && |s.lines| == Read(w, s.phase)
    && (forall i :: 0 <= i < |s.lines| ==> s.lines[i] == RecordAt(w, i))
  }

  lemma StepInv(w: Work, s: State, shell: Shell)
    requires Inv(w, s) && Step(w, s, shell).Some?
    ensures Inv(w, Step(w, s, shell).value)
  {
    hide RecordAt;
    if shell == MainShell && s.phase.Waiting? {
      assert forall i :: 0 <= i < |s.children| ==> s.children[i] in s.children;
    }
  }

  lemma {:induction false} ExecInv(w: Work, s: State, schedule: seq<Shell>)
    requires Inv(w, s)
    ensures Inv(w, Exec(w, s, schedule))
    decreases |schedule|
  {
    hide Inv, MainStep, ChildStep;
    if schedule != [] {
      if Step(w, s, schedule[0]).Some? {
        StepInv(w, s, schedule[0]);
        ExecInv(w, Step(w, s, schedule[0]).value, schedule[1..]);
      } else {
        ExecInv(w, s, schedule[1..]);
      }
    }
  }

  /** The sequential run: each job's record, in config order. */
  function SequentialRecords(w: Work): seq<string> {
    seq(|w.jobs|, i requires 0 <= i < |w.jobs| => RecordAt(w, i))
  }

  /**
   Determinism: whatever the schedule, the lines read so far are those of the sequential run; a file is
   read only after its subshell has written its whole record, never the empty file it starts with; and
   when the report has read all files it has the sequential run.
   */
  lemma EverySchedule(w: Work, schedule: seq<Shell>)
    ensures var s := Exec(w, Init(w), schedule);
      && s.lines <= SequentialRecords(w)
      && (s.lines != [] ==> forall c :: c in s.children ==> c.Exited?)
      && (s.phase.Collected? ==> s.lines == SequentialRecords(w))
  {
    ExecInv(w, Init(w), schedule);
  }

  // ----- Every schedule ends -----

  function Effort(c: Child): nat {
    match c
    case Unborn => 4
    case Forked => 3
    case Querying => 2
    case Writing(_) => 1
    case Exited => 0
  }

  function TotalEffort(cs: seq<Child>, k: nat): nat
    requires k <= |cs|
  {
    if k == 0 then 0 else TotalEffort(cs, k - 1) + Effort(cs[k - 1])
  }

  lemma {:induction false} EffortUpdate(cs: seq<Child>, k: nat, i: nat, c: Child)
    requires k <= |cs| && i < |cs|
    ensures TotalEffort(cs[i := c], k) + (if i < k then Effort(cs[i]) else 0)
            == TotalEffort(cs, k) + (if i < k then Effort(c) else 0)
  {
    if k != 0 {
      EffortUpdate(cs, k - 1, i, c);
    }
  }

  function Measure(w: Work, s: State): int {
    var n := |w.jobs|;
    TotalEffort(s.children, |s.children|)
    + match s.phase
      case Launching(i) => 2 * n - i + 4
      case Waiting => n + 3
      case Collecting(i) => n - i + 1
      case Collected => 0
  }

  lemma StepDecreases(w: Work, s: State, shell: Shell)
    requires Inv(w, s) && Step(w, s, shell).Some?
    ensures 0 <= Measure(w, Step(w, s, shell).value) < Measure(w, s)
  {
    hide RecordAt;
    var s' := Step(w, s, shell).value;
    if shell.Subshell? {
      EffortUpdate(s.children, |s.children|, shell.i, s'.children[shell.i]);
    } else if s.phase.Launching? && s.phase.next < |s.children| {
      EffortUpdate(s.children, |s.children|, s.phase.next, Forked);
    }
  }

  /** Until everything is collected, some shell can take a step. */
  lemma Progress(w: Work, s: State) returns (shell: Shell)
    requires Inv(w, s) && !s.phase.Collected?
    ensures Step(w, s, shell).Some?
  {
    if MainStep(w, s).Some? {
      shell := MainShell;
    } else {
      var c :| c in s.children && !c.Exited?;
      var i :| 0 <= i < |s.children| && s.children[i] == c;
      shell := Subshell(i);
    }
  }

  function Shells(w: Work): set<Shell> {
    {MainShell} + set i | 0 <= i < |w.jobs| :: Subshell(i)
  }

  /** The fan-out with the scheduler's choices left open: it ends, with the lines of the sequential run. */
  method FanOut(w: Work) returns (lines: seq<string>)
    ensures lines == SequentialRecords(w)
  {
    hide Inv, MainStep, ChildStep, Measure;
    var s := Init(w);
    assert Inv(w, s) by { InitInv(w); }
    while !s.phase.Collected?
      invariant Inv(w, s)
      decreases Measure(w, s)
    {
      ghost var enabled := Progress(w, s);
      assert enabled in Shells(w);
      var shell :| shell in Shells(w) && Step(w, s, shell).Some?;
      StepInv(w, s, shell);
      StepDecreases(w, s, shell);
      s := Step(w, s, shell).value;
    }
    CollectedAll(w, s);
    lines := s.lines;
  }

  lemma InitInv(w: Work)
    ensures Inv(w, Init(w))
  {
  }

  lemma CollectedAll(w: Work, s: State)
    requires Inv(w, s) && s.phase.Collected?
    ensures s.lines == SequentialRecords(w)
  {
  }
}
