/**
 The deadline poller the repository writes three times: check the deadline, observe, return on a
 decisive observation, otherwise pause for the interval unless the context is cancelled.
 */
module Polling {

  datatype Verdict<+E> = Pending | Success | Failure(error: E)

  /** One observation: its verdict, how long it took, and whether the pause after it is cancelled. */
  datatype Reading<+E> = Reading(verdict: Verdict<E>, lag: nat, cancelled: bool)

  datatype Result<+E> = Done | TimedOut | Cancelled | Error(error: E)

  type Script<!E> = nat -> Reading<E>

  predicate Decisive<E>(r: Reading<E>) {
    !r.verdict.Pending? || r.cancelled
  }

  function Decision<E>(r: Reading<E>): Result<E> {
    match r.verdict
    case Pending => Cancelled
    case Success => Done
    case Failure(e) => Error(e)
  }

  /** When the k-th observation starts, if all before it were pending. */
  function CallTime<E>(s: Script<E>, start: nat, interval: nat, k: nat): nat {
    if k == 0 then start else CallTime(s, start, interval, k - 1) + s(k - 1).lag + interval
  }

  /**
   The specification: observe until the first decisive observation, but start none after the deadline.
   */
  ghost predicate FirstDecisive<E>(s: Script<E>, start: nat, deadline: nat, interval: nat,
                                   calls: nat, result: Result<E>, end: nat) {
    && (forall j :: 0 <= j < calls ==> CallTime(s, start, interval, j) <= deadline)
    && (forall j :: 0 <= j < calls - 1 ==> !Decisive(s(j)))
    && (if 0 < calls && Decisive(s(calls - 1))
        then result == Decision(s(calls - 1)) && end == CallTime(s, start, interval, calls - 1) + s(calls - 1).lag
        else result == TimedOut && deadline < end == CallTime(s, start, interval, calls))
  }

  lemma StopsAtOnce<E>(s: Script<E>, start: nat, deadline: nat, interval: nat)
    requires start <= deadline ==> Decisive(s(0))
    ensures if deadline < start then FirstDecisive(s, start, deadline, interval, 0, TimedOut, start)
            else FirstDecisive(s, start, deadline, interval, 1, Decision(s(0)), start + s(0).lag)
  {
    assert CallTime(s, start, interval, 0) == start;
  }

  lemma {:induction false} CallTimeGrows<E>(s: Script<E>, start: nat, interval: nat, k: nat)
    ensures start + k * interval <= CallTime(s, start, interval, k)
  {
    if k != 0 {
      CallTimeGrows(s, start, interval, k - 1);
      assert k * interval == (k - 1) * interval + interval;
    }
  }

  /** At most floor(T / p) + 1 observations. */
  lemma CallBound<E>(s: Script<E>, start: nat, deadline: nat, interval: nat, calls: nat, result: Result<E>, end: nat)
    requires FirstDecisive(s, start, deadline, interval, calls, result, end)
    requires start <= deadline && 0 < interval
    ensures 1 <= calls <= (deadline - start) / interval + 1
  {
    assert CallTime(s, start, interval, 0) == start;
    if calls != 0 {
      CallTimeGrows(s, start, interval, calls - 1);
      assert CallTime(s, start, interval, calls - 1) <= deadline;
      AtMostQuotient(calls - 1, interval, deadline - start);
    }
  }

  lemma AtMostQuotient(n: nat, d: nat, x: nat)
    requires 0 < d && n * d <= x
    ensures n <= x / d
  {
    assert x < (x / d + 1) * d;
    MulCancel(n, x / d + 1, d);
  }

  lemma MulCancel(a: nat, b: nat, d: nat)
    requires a * d < b * d
    ensures a < b
  {
    assert b <= a ==> b * d <= a * d;
  }

  /** The specification leaves no choice: the script determines the number of calls and the result. */
  lemma Deterministic<E>(s: Script<E>, start: nat, deadline: nat, interval: nat,
                         c1: nat, r1: Result<E>, e1: nat, c2: nat, r2: Result<E>, e2: nat)
    requires FirstDecisive(s, start, deadline, interval, c1, r1, e1)
    requires FirstDecisive(s, start, deadline, interval, c2, r2, e2)
    ensures c1 == c2 && r1 == r2 && e1 == e2
  {
    assert c1 < c2 ==> CallTime(s, start, interval, c1) <= deadline;
    assert c2 < c1 ==> CallTime(s, start, interval, c2) <= deadline;
  }

  /** After a pending first observation the rest of the script is polled in the same way. */
  lemma Later<E>(s: Script<E>, rest: Script<E>, start: nat, deadline: nat, interval: nat,
                 calls: nat, result: Result<E>, end: nat)
    requires forall k: nat :: rest(k) == s(k + 1)
    requires start <= deadline && !Decisive(s(0))
    requires FirstDecisive(rest, start + s(0).lag + interval, deadline, interval, calls, result, end)
    ensures FirstDecisive(s, start, deadline, interval, calls + 1, result, end)
  {
    forall j | 0 <= j < calls + 1 ensures CallTime(s, start, interval, j) <= deadline {
      if j != 0 {
        assert CallTime(rest, start + s(0).lag + interval, interval, j - 1) <= deadline;
        CallTimeShift(s, rest, start, interval, j - 1);
      }
    }
    forall j | 0 <= j < calls ensures !Decisive(s(j)) {
      assert j != 0 ==> rest(j - 1) == s(j);
    }
    CallTimeShift(s, rest, start, interval, calls);
    if calls != 0 {
      CallTimeShift(s, rest, start, interval, calls - 1);
      assert rest(calls - 1) == s(calls);
    }
  }

  lemma {:induction false} CallTimeShift<E>(s: Script<E>, rest: Script<E>, start: nat, interval: nat, k: nat)
    requires forall k: nat :: rest(k) == s(k + 1)
    ensures CallTime(s, start, interval, k + 1) == CallTime(rest, start + s(0).lag + interval, interval, k)
  {
    if k != 0 {
      CallTimeShift(s, rest, start, interval, k - 1);
      assert rest(k - 1) == s(k);
    }
  }
}
