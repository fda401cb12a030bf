/**
 The retry loop of `execute` (packages/resilience/src/ResiliencePolicy.ts:211-238).

 The parent's abort flag is read, or waited on, at three points of every attempt k: at the top of the
 loop (3k), when the attempt has failed (3k + 1) and until the back-off ends (3k + 2). An abort signal
 stays aborted, so one instant fixes all of these.
 */
module RetryLoop {
  import opened Wrappers

  /** How one attempt through breaker and timeout ends. */
  datatype Attempt<T, E> = Returned(value: T) | Raised(error: E) | ParentCancelled

  datatype Env<!T, !E> = Env(attempt: nat -> Attempt<T, E>, abortAt: Option<nat>)

  datatype Policy<!E> = Policy(maxRetries: nat, backoffMs: nat, shouldHandle: E -> bool)

  datatype Hook = Hook(attempt: nat, delay: nat)

  datatype Ending<T, E> = Value(value: T) | Error(error: E) | Cancelled

  datatype Run<T, E> = Run(ending: Ending<T, E>, attempts: nat, hooks: seq<Hook>)

  predicate Aborted<T, E>(env: Env<T, E>, instant: nat) {
    env.abortAt.Some? && env.abortAt.value <= instant
  }

  /** Attempt `k` failed in a way that is tried again. */
  predicate Retried<T, E>(policy: Policy<E>, env: Env<T, E>, k: nat) {
    && env.attempt(k).Raised?
    && !Aborted(env, 3 * k + 1)
    && k < policy.maxRetries
    && policy.shouldHandle(env.attempt(k).error)
  }

  /** What a finished run has to look like; says nothing about how it is computed. */
  ghost predicate Legitimate<T, E>(policy: Policy<E>, env: Env<T, E>, r: Run<T, E>) {
    var last := r.attempts - 1;
    // every attempt started before the parent aborted, and every one but the last was retried
    && (forall k :: 0 <= k < r.attempts ==> !Aborted(env, 3 * k))
    && (forall k :: 0 <= k < last ==> Retried(policy, env, k))
    // one hook per retry announced, numbered from 1 without gaps
    && (forall k :: 0 <= k < |r.hooks| ==> r.hooks[k] == Hook(k + 1, policy.backoffMs))
    && match r.ending
       case Value(v) =>
         last >= 0 && |r.hooks| == last && env.attempt(last) == Returned(v)
       case Error(e) =>
         && last >= 0 && |r.hooks| == last && env.attempt(last) == Raised(e)
         && !Aborted(env, 3 * last + 1)
         && (last == policy.maxRetries || !policy.shouldHandle(e))
       case Cancelled =>
         if last >= 0 && |r.hooks| == last then
           !env.attempt(last).Returned? && (env.attempt(last).ParentCancelled? || Aborted(env, 3 * last + 1))
         else
           && |r.hooks| == r.attempts
           && (last >= 0 ==> Retried(policy, env, last))
           && Aborted(env, 3 * r.attempts)
  }

  method Execute<T, E>(policy: Policy<E>, env: Env<T, E>) returns (r: Run<T, E>)
    ensures Legitimate(policy, env, r)
    ensures r.attempts <= policy.maxRetries + 1
    // a run that fails although its parent was aborted by then ends in the cancellation error
    ensures Aborted(env, if r.attempts == 0 then 0 else 3 * r.attempts - 2) ==> !r.ending.Error?
    // cancellation has a cause: the parent aborted, or the attempt itself was cancelled by it
    ensures r.ending.Cancelled? ==>
              env.abortAt.Some? || (r.attempts > 0 && env.attempt(r.attempts - 1).ParentCancelled?)
  {
    var hooks: seq<Hook> := [];
    var attempt := 0;
    while true
      invariant 0 <= attempt <= policy.maxRetries
      invariant forall k :: 0 <= k < attempt ==> !Aborted(env, 3 * k) && Retried(policy, env, k)
      invariant |hooks| == attempt
      invariant forall k :: 0 <= k < |hooks| ==> hooks[k] == Hook(k + 1, policy.backoffMs)
      decreases policy.maxRetries - attempt
    {
      if Aborted(env, 3 * attempt) {
        return Run(Cancelled, attempt, hooks);
      }
      match env.attempt(attempt) {
        case Returned(v) =>
          return Run(Value(v), attempt + 1, hooks);
        case ParentCancelled =>
          return Run(Cancelled, attempt + 1, hooks);
        case Raised(error) =>
          if Aborted(env, 3 * attempt + 1) {
            return Run(Cancelled, attempt + 1, hooks);
          }
          if attempt >= policy.maxRetries || !policy.shouldHandle(error) {
            return Run(Error(error), attempt + 1, hooks);
          }
          var retryAttempt := attempt + 1;
          hooks := hooks + [Hook(retryAttempt, policy.backoffMs)];
          if Aborted(env, 3 * attempt + 2) {  // waitForRetryBackoff rejects
            return Run(Cancelled, attempt + 1, hooks);
          }
      }
      attempt := attempt + 1;
    }
  }

  /** The predicate leaves no freedom: policy and environment determine the whole run. */
  lemma RunIsDetermined<T, E>(policy: Policy<E>, env: Env<T, E>, r: Run<T, E>, s: Run<T, E>)
    requires Legitimate(policy, env, r) && Legitimate(policy, env, s)
    ensures r == s
  {
    if r.attempts < s.attempts {
      NoShorterRun(policy, env, r, s);
    } else if s.attempts < r.attempts {
      NoShorterRun(policy, env, s, r);
    } else {
      assert |r.hooks| == |s.hooks| by {
        if |r.hooks| < |s.hooks| {
          NoEarlierEnd(policy, env, r, s);
        } else if |s.hooks| < |r.hooks| {
          NoEarlierEnd(policy, env, s, r);
        }
      }
      assert r.hooks == s.hooks;
    }
  }

  lemma NoShorterRun<T, E>(policy: Policy<E>, env: Env<T, E>, r: Run<T, E>, s: Run<T, E>)
    requires Legitimate(policy, env, r) && Legitimate(policy, env, s) && r.attempts < s.attempts
    ensures false
  {
    assert !Aborted(env, 3 * r.attempts);
    if r.attempts > 0 {
      assert Retried(policy, env, r.attempts - 1);
    }
  }

  lemma NoEarlierEnd<T, E>(policy: Policy<E>, env: Env<T, E>, r: Run<T, E>, s: Run<T, E>)
    requires Legitimate(policy, env, r) && Legitimate(policy, env, s)
    requires r.attempts == s.attempts && |r.hooks| < |s.hooks|
    ensures false
  {
  }

  /** An error that surfaces is the last attempt's, and that attempt was the final allowed one or its error is not handled. */
  lemma ThrownErrorIsFinal<T, E>(policy: Policy<E>, env: Env<T, E>, r: Run<T, E>)
    requires Legitimate(policy, env, r) && r.ending.Error?
    ensures r.attempts > 0 && env.attempt(r.attempts - 1) == Raised(r.ending.error)
    ensures r.attempts == policy.maxRetries + 1 || !policy.shouldHandle(r.ending.error)
    ensures forall k :: 0 <= k < r.attempts - 1 ==> env.attempt(k).Raised? && policy.shouldHandle(env.attempt(k).error)
  {
    forall k | 0 <= k < r.attempts - 1
      ensures env.attempt(k).Raised? && policy.shouldHandle(env.attempt(k).error)
    {
      assert Retried(policy, env, k);
    }
  }
}
