/** The token request with retries (getOIDCAccessToken in pkg/verifiers/rhobs.go). */
module Oidc {
  datatype Body = Undecodable | Token(token: string)

  /** How one attempt ends: no request could be built, no response came, or a response did. */
  datatype Attempt = NoRequest | NoResponse | Response(status: int, body: Body)

  datatype Failure = BadRequest | Rejected(status: int) | BadBody | Exhausted(last: Attempt)
  datatype Result = Success(token: string) | Error(failure: Failure)

  const DELAYS: seq<nat> := [5000, 10000, 20000]

  /** An attempt without a response, or with a server error: these are retried. */
  predicate Inconclusive(a: Attempt) {
    a == NoResponse || (a.Response? && 500 <= a.status)
  }

  /** What a response that is not retried means. */
  function Settled(a: Attempt): Result {
    match a
    case NoRequest => Error(BadRequest)
    case NoResponse => Error(Exhausted(a))
    case Response(status, body) =>
      if status != 200 then Error(Rejected(status))
      else if body.Undecodable? then Error(BadBody)
      else Success(body.token)
  }

  function Sum(s: seq<nat>): nat {
    if s == [] then 0 else Sum(s[..|s| - 1]) + s[|s| - 1]
  }

  /** The result of the first response that settles the matter among the first n; the last one otherwise. */
  ghost predicate FirstSettling(attempts: nat -> Attempt, n: nat, calls: nat, result: Result) {
    && 1 <= calls <= n
    && (forall j :: 0 <= j < calls - 1 ==> Inconclusive(attempts(j)))
    && (if Inconclusive(attempts(calls - 1))
        then calls == n && result == Error(Exhausted(attempts(calls - 1)))
        else result == Settled(attempts(calls - 1)))
  }

  /**
   Only the deciding response matters: scripts that retry alike and agree on it give the same result
   after the same number of calls (so the specification determines both).
   */
  lemma OnlyDecidingMatters(a: nat -> Attempt, b: nat -> Attempt, n: nat, c: nat, d: nat, r: Result, q: Result)
    requires FirstSettling(a, n, c, r) && FirstSettling(b, n, d, q)
    requires forall j :: 0 <= j < n ==> Inconclusive(a(j)) == Inconclusive(b(j))
    requires a(c - 1) == b(c - 1)
    ensures c == d && r == q
  {
  }

  /** The first of four attempts that is conclusive. */
  ghost predicate FirstConclusive(attempts: nat -> Attempt, k: nat) {
    k < 4 && !Inconclusive(attempts(k)) && forall j :: 0 <= j < k ==> Inconclusive(attempts(j))
  }

  /**
   The outcome in terms of the first conclusive attempt: a 200 with a token gives the token, any other
   status below 500 is an error that tells it; without a conclusive attempt the fourth one is blamed.
   */
  ghost predicate Decided(attempts: nat -> Attempt, calls: nat, result: Result) {
    && (forall token :: result == Success(token) <==>
          exists k :: FirstConclusive(attempts, k) && attempts(k) == Response(200, Token(token)))
    && (forall s :: result == Error(Rejected(s)) <==>
          exists k :: FirstConclusive(attempts, k) && attempts(k).Response? && attempts(k).status == s != 200)
    && (result == Error(BadBody) <==>
          exists k :: FirstConclusive(attempts, k) && attempts(k) == Response(200, Undecodable))
    && (result == Error(BadRequest) <==>
          exists k :: FirstConclusive(attempts, k) && attempts(k) == NoRequest)
    && (if forall k :: 0 <= k < 4 ==> Inconclusive(attempts(k))
        then calls == 4 && result == Error(Exhausted(attempts(3)))
        else 0 < calls && FirstConclusive(attempts, calls - 1))
  }

  lemma SettledIsDecided(attempts: nat -> Attempt, calls: nat, result: Result)
    requires FirstSettling(attempts, 4, calls, result)
    ensures Decided(attempts, calls, result)
  {
    if !Inconclusive(attempts(calls - 1)) {
      assert FirstConclusive(attempts, calls - 1);
    }
  }

  /** At most four attempts, with pauses of five, ten and twenty seconds between them. */
  method GetOIDCAccessToken(attempts: nat -> Attempt) returns (result: Result, calls: nat, slept: nat)
    ensures 1 <= calls <= 4 && slept == [0, 5000, 15000, 35000][calls - 1]
    ensures Decided(attempts, calls, result)
  {
    slept := 0;
    DelaySums();
    forall calls, result | FirstSettling(attempts, 4, calls, result) ensures Decided(attempts, calls, result) {
      SettledIsDecided(attempts, calls, result);
    }
    hide Decided;
    for attempt := 0 to |DELAYS| + 1
      invariant forall j :: 0 <= j < attempt ==> Inconclusive(attempts(j))
      invariant attempt <= |DELAYS| && slept == Sum(DELAYS[..attempt])
    {
      var answer := attempts(attempt);
      if answer.NoRequest? { return Error(BadRequest), attempt + 1, slept; }
      if answer.NoResponse? || 500 <= answer.status {
        if attempt < |DELAYS| {
          assert DELAYS[..attempt + 1][..attempt] == DELAYS[..attempt];
          slept := slept + DELAYS[attempt];
          continue;
        }
        return Error(Exhausted(answer)), attempt + 1, slept;
      }
      if answer.status != 200 { return Error(Rejected(answer.status)), attempt + 1, slept; }
      if answer.body.Undecodable? { return Error(BadBody), attempt + 1, slept; }
      return Success(answer.body.token), attempt + 1, slept;
    }
  }

  lemma DelaySums()
    ensures |DELAYS| == 3
    ensures forall k :: 0 <= k <= 3 ==> Sum(DELAYS[..k]) == [0, 5000, 15000, 35000][k]
  {
    assert DELAYS[..0] == [] && DELAYS[..1] == [5000] && DELAYS[..2] == [5000, 10000];
    assert DELAYS[..3] == [5000, 10000, 20000];
    assert [5000, 10000][..1] == [5000] && [5000, 10000, 20000][..2] == [5000, 10000];
    assert Sum([5000]) == 5000 by { assert [5000][..0] == []; }
    assert Sum([5000, 10000]) == 15000;
    assert Sum([5000, 10000, 20000]) == 35000;
  }
}
