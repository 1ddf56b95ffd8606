/**
 RunVerifiers (pkg/verifiers/verifier.go): one goroutine per verifier, a WaitGroup, a buffered error
 channel that is closed after the wait and then drained.  A step is one action of one thread; a
 schedule is any sequence of thread choices, in which a choice that is not enabled does nothing.
 */
module Verifiers {
  import opened Prelude

  /** A verifier, with the error its Verify returns, if any. */
  datatype Verifier = Verifier(name: string, verdict: Option<string>)

  /** "<name> failed: <cause>" */
  datatype Failure = Failure(name: string, cause: string)

  datatype Worker = Unborn | Verifying | Sending(failure: Failure) | Leaving | Gone

  datatype Main = Adding(i: nat) | Starting(i: nat) | Waiting | Closing | Draining | Returned

  datatype Thread = MainThread | Goroutine(i: nat)

  /** The verifiers and the capacity of the channel; RunVerifiers makes it one slot per verifier. */
  datatype Program = Program(verifiers: seq<Verifier>, capacity: nat)

  /** A send on a closed channel and a negative WaitGroup counter panic. */
  datatype State = State(main: Main, workers: seq<Worker>, wg: int, channel: seq<Failure>, closed: bool,
                         errs: seq<Failure>, panicked: bool)

  function Init(p: Program): State {
    State(Adding(0), seq(|p.verifiers|, i => Unborn), 0, [], false, [], false)
  }

  function Named(v: Verifier): Failure
    requires v.verdict.Some?
  {
    Failure(v.name, v.verdict.value)
  }

  /** The next step of a thread, None when it is blocked or finished. */
  function Step(p: Program, s: State, thread: Thread): Option<State> {
    match thread
    case MainThread => MainStep(p, s)
    case Goroutine(i) => if i < |p.verifiers| && i < |s.workers| then WorkerStep(p, s, i) else None
  }

  function MainStep(p: Program, s: State): Option<State> {
    match s.main
    case Adding(i) =>
      if i < |p.verifiers| then Some(s.(wg := s.wg + 1, main := Starting(i))) else Some(s.(main := Waiting))
    case Starting(i) =>
      if i < |s.workers| then Some(s.(workers := s.workers[i := Verifying], main := Adding(i + 1))) else None
    case Waiting => if s.wg == 0 then Some(s.(main := Closing)) else None
    case Closing => Some(s.(closed := true, main := Draining))
    case Draining =>
      if s.channel != [] then Some(s.(errs := s.errs + [s.channel[0]], channel := s.channel[1..]))
      else if s.closed then Some(s.(main := Returned))
      else None
    case Returned => None
  }

  function WorkerStep(p: Program, s: State, i: nat): Option<State>
    requires i < |p.verifiers| && i < |s.workers|
  {
    var v := p.verifiers[i];
    match s.workers[i]
    case Unborn => None
    case Verifying => Some(s.(workers := s.workers[i := if v.verdict.Some? then Sending(Named(v)) else Leaving]))
    case Sending(f) =>
      if s.closed then Some(s.(panicked := true, workers := s.workers[i := Leaving]))
      else if |s.channel| < p.capacity then
        Some(s.(channel := s.channel + [f], workers := s.workers[i := Leaving]))
      else None
    case Leaving => Some(s.(wg := s.wg - 1, panicked := s.panicked || s.wg <= 0, workers := s.workers[i := Gone]))
    case Gone => None
  }

  function Exec(p: Program, s: State, schedule: seq<Thread>): State
    decreases |schedule|
  {
    if schedule == [] then s
    else
      var next := Step(p, s, schedule[0]);
      Exec(p, if next.Some? then next.value else s, schedule[1..])
  }

  /** The reference: run the verifiers one after another and collect the errors. */
  function Sequential(vs: seq<Verifier>): seq<Failure> {
    if vs == [] then []
    else
      Sequential(vs[..|vs| - 1])
      + (if vs[|vs| - 1].verdict.Some? then [Failure(vs[|vs| - 1].name, vs[|vs| - 1].verdict.value)] else [])
  }

  // ----- Bookkeeping over the first k goroutines -----

  predicate Alive(w: Worker) {
    !w.Unborn? && !w.Gone?
  }

  function AliveCount(ws: seq<Worker>, k: nat): nat
    requires k <= |ws|
  {
    if k == 0 then 0 else AliveCount(ws, k - 1) + if Alive(ws[k - 1]) then 1 else 0
  }

  function Effort(w: Worker): nat {
    match w
    case Unborn => 5
    case Verifying => 4
    case Sending(_) => 3
    case Leaving => 1
    case Gone => 0
  }

  function TotalEffort(ws: seq<Worker>, k: nat): nat
    requires k <= |ws|
  {
    if k == 0 then 0 else TotalEffort(ws, k - 1) + Effort(ws[k - 1])
  }

  predicate HasSent(v: Verifier, w: Worker) {
    v.verdict.Some? && (w.Leaving? || w.Gone?)
  }

  function Sent(vs: seq<Verifier>, ws: seq<Worker>, k: nat): multiset<Failure>
    requires k <= |vs| && k <= |ws|
  {
    if k == 0 then multiset{}
    else Sent(vs, ws, k - 1) + if HasSent(vs[k - 1], ws[k - 1]) then multiset{Named(vs[k - 1])} else multiset{}
  }

  lemma {:induction false} AliveUpdate(ws: seq<Worker>, k: nat, i: nat, w: Worker)
    requires k <= |ws| && i < |ws|
    ensures AliveCount(ws[i := w], k) + (if i < k then One(Alive(ws[i])) else 0)
            == AliveCount(ws, k) + (if i < k then One(Alive(w)) else 0)
  {
    if k != 0 {
      AliveUpdate(ws, k - 1, i, w);
    }
  }

  lemma {:induction false} EffortUpdate(ws: seq<Worker>, k: nat, i: nat, w: Worker)
    requires k <= |ws| && i < |ws|
    ensures TotalEffort(ws[i := w], k) + (if i < k then Effort(ws[i]) else 0)
            == TotalEffort(ws, k) + (if i < k then Effort(w) else 0)
  {
    if k != 0 {
      EffortUpdate(ws, k - 1, i, w);
    }
  }

  lemma {:induction false} SentUpdate(vs: seq<Verifier>, ws: seq<Worker>, k: nat, i: nat, w: Worker)
    requires k <= |vs| && k <= |ws| && i < |ws|
    requires i < |vs| ==> !HasSent(vs[i], ws[i]) || HasSent(vs[i], w)
    ensures Sent(vs, ws[i := w], k) == Sent(vs, ws, k) +
            if i < k && HasSent(vs[i], w) && !HasSent(vs[i], ws[i]) then multiset{Named(vs[i])} else multiset{}
  {
    hide Named;
    if k != 0 {
      SentUpdate(vs, ws, k - 1, i, w);
    }
  }

  // ----- The invariant -----

  function Spawned(p: Program, s: State): nat {
    match s.main
    case Adding(i) => i
    case Starting(i) => i
    case _ => |p.verifiers|
  }

  predicate Finished(m: Main) {
    m.Closing? || m.Draining? || m.Returned?
  }

  ghost predicate Inv(p: Program, s: State) {
    var n := |p.verifiers|;
    && |s.workers| == n
    && Spawned(p, s) <= n && (s.main.Starting? ==> s.main.i < n)
    && (forall j :: 0 <= j < n ==> (s.workers[j].Unborn? <==> Spawned(p, s) <= j))
    && (forall j :: 0 <= j < n && s.workers[j].Sending? ==>
          p.verifiers[j].verdict.Some? && s.workers[j].failure == Named(p.verifiers[j]))
    && s.wg == AliveCount(s.workers, n) + One(s.main.Starting?)
    && (Finished(s.main) ==> AliveCount(s.workers, n) == 0)
    && (s.closed <==> s.main.Draining? || s.main.Returned?)
    && (s.errs != [] ==> s.closed)
    && (s.main.Returned? ==> s.channel == [])
    && !s.panicked
    && |s.channel| <= p.capacity
    && multiset(s.errs) + multiset(s.channel) == Sent(p.verifiers, s.workers, n)
  }

  lemma {:induction false} UnbornCounts(p: Program, k: nat)
    requires k <= |p.verifiers|
    ensures AliveCount(Init(p).workers, k) == 0 && Sent(p.verifiers, Init(p).workers, k) == multiset{}
  {
    if k != 0 {
      UnbornCounts(p, k - 1);
    }
  }

  lemma InitInv(p: Program)
    ensures Inv(p, Init(p))
  {
    UnbornCounts(p, |p.verifiers|);
  }

  /** A thread that is alive keeps the counter positive. */
  lemma {:induction false} AliveCounts(ws: seq<Worker>, k: nat, i: nat)
    requires i < k <= |ws| && Alive(ws[i])
    ensures 0 < AliveCount(ws, k)
  {
    if i != k - 1 {
      AliveCounts(ws, k - 1, i);
    }
  }

  lemma StepInv(p: Program, s: State, thread: Thread)
    requires Inv(p, s) && Step(p, s, thread).Some?
    ensures Inv(p, Step(p, s, thread).value)
  {
    hide Inv;
    match thread
    case Goroutine(i) => WorkerInv(p, s, i);
    case MainThread =>
      if s.main.Starting? {
        StartInv(p, s);
      } else if s.main.Draining? {
        DrainInv(p, s);
      } else {
        MainInv(p, s);
      }
  }

  lemma StartInv(p: Program, s: State)
    requires Inv(p, s) && s.main.Starting?
    ensures var next := MainStep(p, s); next.Some? && Inv(p, next.value)
  {
    AliveUpdate(s.workers, |p.verifiers|, s.main.i, Verifying);
    SentUpdate(p.verifiers, s.workers, |p.verifiers|, s.main.i, Verifying);
  }

  lemma DrainInv(p: Program, s: State)
    requires Inv(p, s) && s.main.Draining?
    ensures var next := MainStep(p, s); next.Some? && Inv(p, next.value)
  {
    if s.channel != [] {
      assert s.channel == [s.channel[0]] + s.channel[1..];
    }
  }

  lemma MainInv(p: Program, s: State)
    requires Inv(p, s) && !s.main.Starting? && !s.main.Draining?
    ensures var next := MainStep(p, s); next.Some? ==> Inv(p, next.value)
  {
  }

  lemma WorkerInv(p: Program, s: State, i: nat)
    requires Inv(p, s) && i < |p.verifiers| && WorkerStep(p, s, i).Some?
    ensures Inv(p, WorkerStep(p, s, i).value)
  {
    AliveCounts(s.workers, |p.verifiers|, i);
    match s.workers[i]
    case Verifying => VerifyInv(p, s, i);
    case Sending(_) => SendInv(p, s, i);
    case Leaving => LeaveInv(p, s, i);
  }

  lemma VerifyInv(p: Program, s: State, i: nat)
    requires Inv(p, s) && i < |p.verifiers| && s.workers[i].Verifying?
    requires 0 < AliveCount(s.workers, |p.verifiers|)
    ensures Inv(p, WorkerStep(p, s, i).value)
  {
    var w := WorkerStep(p, s, i).value.workers[i];
    AliveUpdate(s.workers, |p.verifiers|, i, w);
    SentUpdate(p.verifiers, s.workers, |p.verifiers|, i, w);
  }

  lemma SendInv(p: Program, s: State, i: nat)
    requires Inv(p, s) && i < |p.verifiers| && s.workers[i].Sending? && WorkerStep(p, s, i).Some?
    requires 0 < AliveCount(s.workers, |p.verifiers|)
    ensures Inv(p, WorkerStep(p, s, i).value)
  {
    AliveUpdate(s.workers, |p.verifiers|, i, Leaving);
    SentUpdate(p.verifiers, s.workers, |p.verifiers|, i, Leaving);
  }

  lemma LeaveInv(p: Program, s: State, i: nat)
    requires Inv(p, s) && i < |p.verifiers| && s.workers[i].Leaving?
    requires 0 < AliveCount(s.workers, |p.verifiers|)
    ensures Inv(p, WorkerStep(p, s, i).value)
  {
    AliveUpdate(s.workers, |p.verifiers|, i, Gone);
    SentUpdate(p.verifiers, s.workers, |p.verifiers|, i, Gone);
  }

  lemma {:induction false} ExecInv(p: Program, s: State, schedule: seq<Thread>)
    requires Inv(p, s)
    ensures Inv(p, Exec(p, s, schedule))
    decreases |schedule|
  {
    if schedule != [] {
      if Step(p, s, schedule[0]).Some? {
        StepInv(p, s, schedule[0]);
        ExecInv(p, Step(p, s, schedule[0]).value, schedule[1..]);
      } else {
        ExecInv(p, s, schedule[1..]);
      }
    }
  }

  // ----- Safety -----

  /**
   Over every schedule: the channel never holds more than its capacity, nothing is sent after the
   close and the counter never goes negative (neither panic occurs), the counter is the number of
   goroutines started or being started minus those that have finished, and errors are collected only
   once every goroutine has finished.
   */
  lemma Safety(p: Program, schedule: seq<Thread>)
    ensures var s := Exec(p, Init(p), schedule);
      && |s.channel| <= p.capacity
      && !s.panicked
      && |s.workers| == |p.verifiers|
      && s.wg == AliveCount(s.workers, |p.verifiers|) + One(s.main.Starting?)
      && (s.closed || s.errs != [] ==> forall j :: 0 <= j < |p.verifiers| ==> s.workers[j] == Gone)
  {
    InitInv(p);
    ExecInv(p, Init(p), schedule);
    var s := Exec(p, Init(p), schedule);
    if s.closed {
      forall j | 0 <= j < |p.verifiers| ensures s.workers[j] == Gone {
        if Alive(s.workers[j]) {
          AliveCounts(s.workers, |p.verifiers|, j);
        }
      }
    }
  }

  // ----- What the drain yields -----

  lemma {:induction false} SentAll(vs: seq<Verifier>, ws: seq<Worker>, k: nat)
    requires k <= |vs| == |ws|
    requires forall j :: 0 <= j < k ==> !ws[j].Unborn? && !ws[j].Verifying? && !ws[j].Sending?
    ensures Sent(vs, ws, k) == multiset(Sequential(vs[..k]))
  {
    if k != 0 {
      SentAll(vs, ws, k - 1);
      assert vs[..k][..k - 1] == vs[..k - 1];
    }
  }

  lemma FinishedSent(p: Program, s: State)
    requires Inv(p, s) && Finished(s.main)
    ensures multiset(s.errs) + multiset(s.channel) == multiset(Sequential(p.verifiers))
    ensures |Sequential(p.verifiers)| == |s.errs| + |s.channel|
  {
    var n := |p.verifiers|;
    forall j | 0 <= j < n ensures s.workers[j] == Gone {
      if Alive(s.workers[j]) {
        AliveCounts(s.workers, n, j);
      }
    }
    SentAll(p.verifiers, s.workers, n);
    assert p.verifiers[..n] == p.verifiers;
    assert |multiset(s.errs) + multiset(s.channel)| == |s.errs| + |s.channel|;
  }

  /**
   Refinement of the sequential run: under every schedule, when RunVerifiers returns it has collected
   exactly one named error per failing verifier, so it returns nil exactly when all verifiers pass.
   */
  lemma RefinesSequential(p: Program, schedule: seq<Thread>)
    requires Exec(p, Init(p), schedule).main.Returned?
    ensures var s := Exec(p, Init(p), schedule);
      && multiset(s.errs) == multiset(Sequential(p.verifiers))
      && (s.errs == [] <==> forall v :: v in p.verifiers ==> v.verdict.None?)
  {
    InitInv(p);
    ExecInv(p, Init(p), schedule);
    ReturnedErrs(p, Exec(p, Init(p), schedule));
  }

  lemma ReturnedErrs(p: Program, s: State)
    requires Inv(p, s) && s.main.Returned?
    ensures multiset(s.errs) == multiset(Sequential(p.verifiers))
    ensures s.errs == [] <==> forall v :: v in p.verifiers ==> v.verdict.None?
  {
    FinishedSent(p, s);
    NoFailures(p.verifiers);
    assert |multiset(s.errs)| == |s.errs|;
  }

  lemma {:induction false} NoFailures(vs: seq<Verifier>)
    ensures Sequential(vs) == [] <==> forall v :: v in vs ==> v.verdict.None?
  {
    if vs != [] {
      var last := |vs| - 1;
      NoFailures(vs[..last]);
      assert vs == vs[..last] + [vs[last]];
    }
  }

  /** How often a failure is reported depends on how often its verifier occurs, not on where. */
  lemma {:induction false} SequentialCount(vs: seq<Verifier>, f: Failure)
    ensures multiset(Sequential(vs))[f] == multiset(vs)[Verifier(f.name, Some(f.cause))]
  {
    if vs != [] {
      var last := |vs| - 1;
      SequentialCount(vs[..last], f);
      assert vs == vs[..last] + [vs[last]];
    }
  }

  /** Permuting the verifiers changes nothing but the order of the errors. */
  lemma PermutationInvariant(p: Program, q: Program, a: seq<Thread>, b: seq<Thread>)
    requires multiset(p.verifiers) == multiset(q.verifiers)
    requires Exec(p, Init(p), a).main.Returned? && Exec(q, Init(q), b).main.Returned?
    ensures multiset(Exec(p, Init(p), a).errs) == multiset(Exec(q, Init(q), b).errs)
  {
    RefinesSequential(p, a);
    RefinesSequential(q, b);
    forall f: Failure ensures multiset(Sequential(p.verifiers))[f] == multiset(Sequential(q.verifiers))[f] {
      SequentialCount(p.verifiers, f);
      SequentialCount(q.verifiers, f);
    }
  }

  // ----- Liveness -----

  /** The steps left: every step of every thread lowers it, so every schedule runs out of steps. */
  function Measure(p: Program, s: State): int {
    MainEffort(p, s.main) + TotalEffort(s.workers, |s.workers|) + |s.channel|
  }

  function MainEffort(p: Program, m: Main): int {
    var n := |p.verifiers|;
    match m
    case Adding(i) => 2 * (n - i) + 4
    case Starting(i) => 2 * (n - i) + 3
    case Waiting => 3
    case Closing => 2
    case Draining => 1
    case Returned => 0
  }

  lemma StepDecreases(p: Program, s: State, thread: Thread)
    requires Inv(p, s) && Step(p, s, thread).Some?
    ensures 0 <= Measure(p, Step(p, s, thread).value) < Measure(p, s)
  {
    hide Inv, MainStep, WorkerStep, Measure;
    match thread
    case Goroutine(i) => WorkerDecreases(p, s, i);
    case MainThread => MainDecreases(p, s);
  }

  lemma WorkerDecreases(p: Program, s: State, i: nat)
    requires Inv(p, s) && i < |p.verifiers| && WorkerStep(p, s, i).Some?
    ensures 0 <= Measure(p, WorkerStep(p, s, i).value) < Measure(p, s)
  {
    hide AliveCount, Sent, HasSent, Named;
    EffortUpdate(s.workers, |p.verifiers|, i, WorkerStep(p, s, i).value.workers[i]);
  }

  lemma MainDecreases(p: Program, s: State)
    requires Inv(p, s) && MainStep(p, s).Some?
    ensures 0 <= Measure(p, MainStep(p, s).value) < Measure(p, s)
  {
    hide AliveCount, Sent, HasSent;
    if s.main.Starting? {
      EffortUpdate(s.workers, |p.verifiers|, s.main.i, Verifying);
    }
  }

  /** How many choices of a schedule are steps and not idle. */
  function Taken(p: Program, s: State, schedule: seq<Thread>): nat
    decreases |schedule|
  {
    if schedule == [] then 0
    else
      var next := Step(p, s, schedule[0]);
      if next.Some? then 1 + Taken(p, next.value, schedule[1..]) else Taken(p, s, schedule[1..])
  }

  /** Termination: no schedule takes more than 7n + 4 steps. */
  lemma BoundedSteps(p: Program, schedule: seq<Thread>)
    ensures Taken(p, Init(p), schedule) <= 7 * |p.verifiers| + 4
  {
    InitInv(p);
    UnbornEffort(p, |p.verifiers|);
    TakenBound(p, Init(p), schedule);
  }

  lemma {:induction false} UnbornEffort(p: Program, k: nat)
    requires k <= |p.verifiers|
    ensures TotalEffort(Init(p).workers, k) == 5 * k
  {
    if k != 0 {
      UnbornEffort(p, k - 1);
    }
  }

  lemma {:induction false} TakenBound(p: Program, s: State, schedule: seq<Thread>)
    requires Inv(p, s)
    ensures Taken(p, s, schedule) <= Measure(p, s)
    decreases |schedule|
  {
    if schedule == [] {
      assert 0 <= Measure(p, s);
    } else {
      var next := Step(p, s, schedule[0]);
      if next.Some? {
        StepInv(p, s, schedule[0]);
        StepDecreases(p, s, schedule[0]);
        TakenBound(p, next.value, schedule[1..]);
      } else {
        TakenBound(p, s, schedule[1..]);
      }
    }
  }

  /** One slot per failing verifier is what the protocol needs, since nothing is received before the wait. */
  predicate RoomForAll(p: Program) {
    |Sequential(p.verifiers)| <= p.capacity
  }

  /** The channel that RunVerifiers makes has that room. */
  lemma {:induction false} OneSlotEachSuffices(vs: seq<Verifier>)
    ensures |Sequential(vs)| <= |vs|
  {
    if vs != [] {
      OneSlotEachSuffices(vs[..|vs| - 1]);
    }
  }

  /** What has been sent so far, plus a failure about to be sent, fits among all failures. */
  lemma {:induction false} SentBound(vs: seq<Verifier>, ws: seq<Worker>, k: nat, i: nat)
    requires k <= |vs| == |ws| && i < |vs| && vs[i].verdict.Some? && ws[i].Sending?
    ensures |Sent(vs, ws, k)| + (if i < k then 1 else 0) <= |Sequential(vs[..k])|
  {
    hide Sent, Sequential, Named;
    if k == 0 {
      SentNone(vs, ws);
    } else {
      SentBound(vs, ws, k - 1, i);
      SentNext(vs, ws, k);
      SequentialNext(vs, k);
    }
  }

  lemma SentNone(vs: seq<Verifier>, ws: seq<Worker>)
    ensures |Sent(vs, ws, 0)| == 0
  {
  }

  lemma SentNext(vs: seq<Verifier>, ws: seq<Worker>, k: nat)
    requires 0 < k <= |vs| == |ws|
    ensures |Sent(vs, ws, k)| == |Sent(vs, ws, k - 1)| + One(HasSent(vs[k - 1], ws[k - 1]))
  {
  }

  lemma SequentialNext(vs: seq<Verifier>, k: nat)
    requires 0 < k <= |vs|
    ensures |Sequential(vs[..k])| == |Sequential(vs[..k - 1])| + One(vs[k - 1].verdict.Some?)
  {
    assert vs[..k][..k - 1] == vs[..k - 1];
  }

  /** With that room no sender ever blocks, under any schedule. */
  lemma SenderNeverBlocks(p: Program, schedule: seq<Thread>, i: nat)
    requires RoomForAll(p) && i < |p.verifiers|
    ensures var s := Exec(p, Init(p), schedule);
      i < |s.workers| && (s.workers[i].Sending? ==> Step(p, s, Goroutine(i)).Some?)
  {
    var s := Exec(p, Init(p), schedule);
    InitInv(p);
    ExecInv(p, Init(p), schedule);
    if s.workers[i].Sending? {
      SendEnabled(p, s, i);
    }
  }

  lemma SendEnabled(p: Program, s: State, i: nat)
    requires Inv(p, s) && RoomForAll(p) && i < |p.verifiers| && s.workers[i].Sending?
    ensures Step(p, s, Goroutine(i)).Some?
  {
    SentBound(p.verifiers, s.workers, |p.verifiers|, i);
    assert p.verifiers[..|p.verifiers|] == p.verifiers;
    assert |multiset(s.errs) + multiset(s.channel)| == |s.errs| + |s.channel|;
  }

  lemma {:induction false} SomeAlive(ws: seq<Worker>, k: nat) returns (i: nat)
    requires k <= |ws| && 0 < AliveCount(ws, k)
    ensures i < k && Alive(ws[i])
  {
    if Alive(ws[k - 1]) {
      i := k - 1;
    } else {
      i := SomeAlive(ws, k - 1);
    }
  }

  /** Deadlock freedom: until it has returned, some thread can take a step. */
  lemma Progress(p: Program, s: State) returns (thread: Thread)
    requires Inv(p, s) && RoomForAll(p) && !s.main.Returned?
    ensures Step(p, s, thread).Some?
  {
    if MainStep(p, s).Some? {
      thread := MainThread;
    } else {
      var i := SomeAlive(s.workers, |p.verifiers|);
      thread := Goroutine(i);
      if s.workers[i].Sending? {
        SendEnabled(p, s, i);
      }
    }
  }

  /** RunVerifiers itself, with the scheduler's choices left open: whatever it picks, this is the result. */
  method RunVerifiers(verifiers: seq<Verifier>) returns (errs: seq<Failure>)
    ensures multiset(errs) == multiset(Sequential(verifiers))
    ensures errs == [] <==> forall v :: v in verifiers ==> v.verdict.None?
  {
    hide Inv, MainStep, WorkerStep, Measure;
    var p := Program(verifiers, |verifiers|);
    var s := Init(p);
    InitInv(p);
    OneSlotEachSuffices(verifiers);
    while !s.main.Returned?
      invariant Inv(p, s)
      decreases Measure(p, s)
    {
      ghost var enabled := Progress(p, s);
      assert enabled in Threads(p);
      var thread :| thread in Threads(p) && Step(p, s, thread).Some?;
      StepInv(p, s, thread);
      StepDecreases(p, s, thread);
      s := Step(p, s, thread).value;
    }
    ReturnedErrs(p, s);
    errs := s.errs;
  }

  function Threads(p: Program): set<Thread> {
    {MainThread} + set i | 0 <= i < |p.verifiers| :: Goroutine(i)
  }

  // ----- The capacity is exactly what is needed -----

  /** Some schedule returns, and with enough room: it can be built step by step. */
  lemma {:induction false} CanReturn(p: Program, s: State) returns (schedule: seq<Thread>)
    requires Inv(p, s) && RoomForAll(p)
    ensures Exec(p, s, schedule).main.Returned?
    decreases Measure(p, s)
  {
    if s.main.Returned? {
      schedule := [];
    } else {
      var thread := Progress(p, s);
      StepInv(p, s, thread);
      StepDecreases(p, s, thread);
      var rest := CanReturn(p, Step(p, s, thread).value);
      schedule := [thread] + rest;
    }
  }

  /** RunVerifiers can return if and only if the channel has a slot for every failing verifier. */
  lemma ReturnsIffRoom(p: Program)
    ensures (exists schedule :: Exec(p, Init(p), schedule).main.Returned?) <==> RoomForAll(p)
  {
    InitInv(p);
    if RoomForAll(p) {
      var schedule := CanReturn(p, Init(p));
    }
    forall schedule | Exec(p, Init(p), schedule).main.Returned? ensures RoomForAll(p) {
      ReturnedHadRoom(p, Init(p), schedule);
    }
  }

  /** Everything sent was in the channel at once when it was closed. */
  lemma {:induction false} ReturnedHadRoom(p: Program, s: State, schedule: seq<Thread>)
    requires Inv(p, s) && Exec(p, s, schedule).main.Returned?
    requires s.errs == [] || RoomForAll(p)
    requires !s.main.Returned? || RoomForAll(p)
    ensures RoomForAll(p)
    decreases |schedule|
  {
    if schedule != [] && !RoomForAll(p) {
      var next := Step(p, s, schedule[0]);
      if next.Some? {
        StepInv(p, s, schedule[0]);
        if Finished(s.main) {
          FinishedSent(p, s);
        }
        ReturnedHadRoom(p, next.value, schedule[1..]);
      } else {
        ReturnedHadRoom(p, s, schedule[1..]);
      }
    }
  }
}
