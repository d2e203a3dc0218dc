/**
 * common/src/utils/retry.h: the retry loop around an effectful function.
 *
 * The `std::function` that is retried becomes a value `body(s, k)`: what call number `k` does to
 * the state `s` it touches, and whether it returned or threw.  Effects of a call that threw stay
 * in the state, as they do in the source.
 */
module Retry {
  import opened Wrappers

  /** The calls made from attempt number `attempt` on: final state, outcome, number of calls so far. */
  function Run<S, T>(maxRetries: int, body: (S, nat) -> (S, Outcome<T>), s: S, attempt: nat)
    : (S, Outcome<T>, nat)
    decreases maxRetries - attempt
  {
    var (s', r) := body(s, attempt);
    if r.Ok? || attempt >= maxRetries then (s', r, attempt + 1)
    else Run(maxRetries, body, s', attempt + 1)
  }

  /** The state before call number `k`, if all the calls before it were made. */
  function StateBefore<S, T>(body: (S, nat) -> (S, Outcome<T>), s: S, k: nat): S {
    if k == 0 then s else body(StateBefore(body, s, k - 1), k - 1).0
  }

  /** Does call number `k` throw, in the state the earlier calls leave? */
  predicate Throws<S, T>(body: (S, nat) -> (S, Outcome<T>), s: S, k: nat) {
    body(StateBefore(body, s, k), k).1.Throw?
  }

  function MaxCalls(maxRetries: int): nat {
    if maxRetries < 0 then 1 else maxRetries + 1
  }

  /** The loop of ExecuteWithRetry and of ExecuteWithRetryVoid (T is then a unit type). */
  method ExecuteWithRetry<S, T>(maxRetries: int, body: (S, nat) -> (S, Outcome<T>), s0: S)
    returns (s: S, r: Outcome<T>, calls: nat)
    ensures (s, r, calls) == Run(maxRetries, body, s0, 0)
  {
    s := s0;
    var attempt := 0;
    while true
      invariant attempt <= MaxCalls(maxRetries) - 1
      invariant Run(maxRetries, body, s0, 0) == Run(maxRetries, body, s, attempt)
      decreases maxRetries - attempt
    {
      var (s', res) := body(s, attempt);
      s := s';
      if res.Ok? {
        return s, res, attempt + 1;
      }
      if attempt >= maxRetries {
        return s, Throw, attempt + 1;
      }
      attempt := attempt + 1;
    }
  }

  /**
   * The contract of the retry loop, without mentioning the loop: the body runs until its first
   * success and at most max(n, 0) + 1 times; the result and the state are those of the last call;
   * an exception leaves only when every allowed call threw.
   */
  lemma RetryContract<S, T>(maxRetries: int, body: (S, nat) -> (S, Outcome<T>), s: S)
    ensures var (s', r, n) := Run(maxRetries, body, s, 0);
            && 1 <= n <= MaxCalls(maxRetries)
            && (s', r) == body(StateBefore(body, s, n - 1), n - 1)
            && (forall k | 0 <= k < n - 1 :: Throws(body, s, k))
            && (r.Ok? <==> exists k :: 0 <= k < MaxCalls(maxRetries) && !Throws(body, s, k))
            && (r.Throw? ==> n == MaxCalls(maxRetries))
  {
    RunFrom(maxRetries, body, s, 0);
    var (s', r, n) := Run(maxRetries, body, s, 0);
    if r.Ok? {
      assert !Throws(body, s, n - 1);
    }
  }

  lemma {:induction false} RunFrom<S, T>(maxRetries: int, body: (S, nat) -> (S, Outcome<T>), s0: S, attempt: nat)
    requires attempt < MaxCalls(maxRetries)
    requires forall k | 0 <= k < attempt :: Throws(body, s0, k)
    ensures var (s', r, n) := Run(maxRetries, body, StateBefore(body, s0, attempt), attempt);
            && attempt < n <= MaxCalls(maxRetries)
            && (s', r) == body(StateBefore(body, s0, n - 1), n - 1)
            && (forall k | 0 <= k < n - 1 :: Throws(body, s0, k))
            && (r.Throw? ==> n == MaxCalls(maxRetries))
    decreases maxRetries - attempt
  {
    var (s', r) := body(StateBefore(body, s0, attempt), attempt);
    if r.Throw? && attempt < maxRetries {
      assert Throws(body, s0, attempt);
      assert s' == StateBefore(body, s0, attempt + 1);
      RunFrom(maxRetries, body, s0, attempt + 1);
    }
  }
}
