/** The time and call budgets of the interface phase. */
module VpcTiming {
  import opened Ec2World
  import opened VpcCleanup
  import opened Polling

  // ----- Waiting for a detachment is the shared deadline poller -----

  /** The clock at the k-th status call, if all before it found the interface busy. */
  function PollTime(svc: Service, t: Timing, w: World, k: nat): nat {
    if k == 0 then w.clock else PollTime(svc, t, w, k - 1) + svc.weather(w.tick + k - 1).lag + t.interval
  }

  function PollVerdict(svc: Service, t: Timing, w: World, id: Id, k: nat): Verdict<Why> {
    if svc.weather(w.tick + k).fate != Honoured then Failure(Broken)
    else if id !in w.enis || Ec2World.Available(w.enis[id], PollTime(svc, t, w, k)) then Success
    else Pending
  }

  function PollScript(svc: Service, t: Timing, w: World, id: Id): Script<Why> {
    (k: nat) => Reading(PollVerdict(svc, t, w, id, k), svc.weather(w.tick + k).lag, svc.weather(w.tick + k).cancel)
  }

  function WaitResult(r: Outcome): Result<Why> {
    if r.Nil? then Done
    else if !r.error.WaitFailed? then Error(Broken)
    else match r.error.why
         case TimedOut => Result.TimedOut
         case Cancelled => Result.Cancelled
         case _ => Error(r.error.why)
  }

  lemma {:induction false} PollTimeShift(svc: Service, t: Timing, w: World, w1: World, k: nat)
    requires w1.tick == w.tick + 1
    requires w1.clock == w.clock + svc.weather(w.tick).lag + t.interval
    ensures PollTime(svc, t, w, k + 1) == PollTime(svc, t, w1, k)
  {
    if k != 0 {
      PollTimeShift(svc, t, w, w1, k - 1);
    }
  }

  /** waitForENIAvailable returns by the first decisive status, and starts no call after the deadline. */
  lemma {:induction false} AwaitPolls(svc: Service, t: Timing, w: World, id: Id, deadline: nat)
    ensures var (w', r) := Await(svc, t, w, id, deadline);
      && |w.log| <= |w'.log|
      && FirstDecisive(PollScript(svc, t, w, id), w.clock, deadline, t.interval,
                       |w'.log| - |w.log|, WaitResult(r), w'.clock)
    decreases deadline + 1 - w.clock
  {
    hide FirstDecisive, CallTime;
    var s := PollScript(svc, t, w, id);
    assert s(0) == Reading(PollVerdict(svc, t, w, id, 0), svc.weather(w.tick).lag, svc.weather(w.tick).cancel);
    if w.clock <= deadline && !Decisive(s(0)) {
      var w2 := Pause(Poll(svc, w, id).0, t.interval);
      var rest := PollScript(svc, t, w2, id);
      var (w', r) := Await(svc, t, w2, id, deadline);
      assert Await(svc, t, w, id, deadline) == (w', r);
      AwaitPolls(svc, t, w2, id, deadline);
      ScriptShift(svc, t, w, w2, id);
      Polling.Later(s, rest, w.clock, deadline, t.interval, |w'.log| - |w2.log|, WaitResult(r), w'.clock);
    } else {
      StopsAtOnce(s, w.clock, deadline, t.interval);
    }
  }

  lemma ScriptShift(svc: Service, t: Timing, w: World, w2: World, id: Id)
    requires w2.enis == w.enis && w2.tick == w.tick + 1
    requires w2.clock == w.clock + svc.weather(w.tick).lag + t.interval
    ensures forall k: nat :: PollScript(svc, t, w2, id)(k) == PollScript(svc, t, w, id)(k + 1)
  {
    forall k: nat ensures PollScript(svc, t, w2, id)(k) == PollScript(svc, t, w, id)(k + 1) {
      PollTimeShift(svc, t, w, w2, k);
    }
  }

  /** At most floor(timeout / interval) + 1 status calls. */
  lemma AwaitCallBound(svc: Service, t: Timing, w: World, id: Id)
    ensures var w' := Await(svc, t, w, id, w.clock + t.timeout).0;
      1 <= |w'.log| - |w.log| <= t.timeout / t.interval + 1
  {
    hide Await, FirstDecisive;
    var (w', r) := Await(svc, t, w, id, w.clock + t.timeout);
    AwaitPolls(svc, t, w, id, w.clock + t.timeout);
    CallBound(PollScript(svc, t, w, id), w.clock, w.clock + t.timeout, t.interval,
              |w'.log| - |w.log|, WaitResult(r), w'.clock);
  }

  // ----- Deleting with retries -----

  function LagSum(svc: Service, tick: nat, n: nat): nat
    decreases n
  {
    if n == 0 then 0 else svc.weather(tick).lag + LagSum(svc, tick + 1, n - 1)
  }

  lemma DeleteEniCall(svc: Service, w: World, id: Id)
    ensures var (w', reply) := DeleteEni(svc, w, id);
      && w'.log == w.log + [Event(RemoveEni, id, reply)]
      && w'.tick == w.tick + 1
      && w'.clock == w.clock + svc.weather(w.tick).lag
  {
  }

  /**
   deleteENIWithRetry goes by the first decisive reply among `retries` delete calls: all replies but the
   last are failures with an uncancelled pause after them; the last one is a success, or the last that is
   allowed, or followed by a cancelled pause, and that alone determines the result.
   */
  lemma {:induction false} ExpungeCalls(svc: Service, t: Timing, w: World, id: Id, attempt: nat)
    requires attempt < t.retries
    ensures var (w', r) := Expunge(svc, t, w, id, attempt);
      var calls := |w'.log| - |w.log|;
      && w.log <= w'.log
      && 1 <= calls <= t.retries - attempt
      && (forall i :: |w.log| <= i < |w'.log| - 1 ==> w'.log[i].reply == Failed)
      && (forall k :: w.tick <= k < w.tick + calls - 1 ==> !svc.weather(k).cancel)
      && (if w'.log[|w'.log| - 1].reply != Failed then r == Nil
          else if calls == t.retries - attempt then r == Err(DeleteFailed(id, Exhausted))
          else svc.weather(w.tick + calls - 1).cancel && r == Err(DeleteFailed(id, Why.Cancelled)))
    decreases t.retries - attempt
  {
    hide DeleteEni;
    var (w1, reply) := DeleteEni(svc, w, id);
    DeleteEniCall(svc, w, id);
    if reply == Failed && attempt + 1 < t.retries && !Interrupted(svc, w1) {
      var w2 := Pause(w1, t.delay);
      ExpungeCalls(svc, t, w2, id, attempt + 1);
    }
  }

  /** All of them are delete calls for that one interface. */
  lemma {:induction false} ExpungeLog(svc: Service, t: Timing, w: World, id: Id, attempt: nat)
    ensures var w' := Expunge(svc, t, w, id, attempt).0;
      && w.log <= w'.log
      && forall i :: |w.log| <= i < |w'.log| ==> w'.log[i].op == RemoveEni && w'.log[i].id == id
    decreases t.retries - attempt
  {
    if attempt < t.retries {
      hide DeleteEni;
      var (w1, reply) := DeleteEni(svc, w, id);
      DeleteEniCall(svc, w, id);
      if reply == Failed && (attempt + 1 < t.retries ==> !Interrupted(svc, w1)) {
        ExpungeLog(svc, t, if attempt + 1 < t.retries then Pause(w1, t.delay) else w1, id, attempt + 1);
      }
    }
  }

  /** It pauses between calls, and not after the last one. */
  lemma {:induction false} ExpungeTime(svc: Service, t: Timing, w: World, id: Id, attempt: nat)
    requires attempt < t.retries
    ensures var w' := Expunge(svc, t, w, id, attempt).0;
      var calls := |w'.log| - |w.log|;
      1 <= calls && w'.clock == w.clock + LagSum(svc, w.tick, calls) + (calls - 1) * t.delay
    decreases t.retries - attempt
  {
    hide DeleteEni;
    var (w1, reply) := DeleteEni(svc, w, id);
    DeleteEniCall(svc, w, id);
    assert LagSum(svc, w.tick, 1) == svc.weather(w.tick).lag + LagSum(svc, w.tick + 1, 0);
    if reply == Failed && attempt + 1 < t.retries && !Interrupted(svc, w1) {
      var w2 := Pause(w1, t.delay);
      ExpungeTime(svc, t, w2, id, attempt + 1);
      var calls := |Expunge(svc, t, w2, id, attempt + 1).0.log| - |w2.log|;
      assert LagSum(svc, w.tick, calls + 1) == svc.weather(w.tick).lag + LagSum(svc, w.tick + 1, calls);
      assert calls * t.delay == (calls - 1) * t.delay + t.delay;
    }
  }

  /**
   The package defaults: a wait starts no status call later than two minutes after it began, five seconds
   after the previous one has been answered, 25 at most; an interface is given up after exactly
   five failed deletes, three seconds apart.
   */
  lemma DefaultBudgets(svc: Service, w: World, id: Id)
    ensures var (w', r) := Await(svc, DEFAULTS, w, id, w.clock + DEFAULTS.timeout);
      && |w.log| <= |w'.log| <= |w.log| + 25
      && FirstDecisive(PollScript(svc, DEFAULTS, w, id), w.clock, w.clock + 120000, 5000,
                       |w'.log| - |w.log|, WaitResult(r), w'.clock)
    ensures var (w', r) := Expunge(svc, DEFAULTS, w, id, 0);
      var calls := |w'.log| - |w.log|;
      && 1 <= calls <= 5
      && w'.clock == w.clock + LagSum(svc, w.tick, calls) + (calls - 1) * 3000
      && (r == Err(DeleteFailed(id, Exhausted)) ==>
            calls == 5 && forall i :: |w.log| <= i < |w'.log| ==> w'.log[i].reply == Failed)
  {
    hide Await, Expunge, FirstDecisive;
    AwaitPolls(svc, DEFAULTS, w, id, w.clock + DEFAULTS.timeout);
    AwaitCallBound(svc, DEFAULTS, w, id);
    ExpungeCalls(svc, DEFAULTS, w, id, 0);
    ExpungeTime(svc, DEFAULTS, w, id, 0);
  }
}
