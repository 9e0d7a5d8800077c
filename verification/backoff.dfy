/**
 * `exponentialBackoff(apiCall, retries = 5)`: call, and on failure wait and call again
 * while retries remain, rethrowing the last error when they run out.
 */
module Backoff {
  /** What one invocation of the call gives: a value, or a thrown error. */
  datatype Outcome<T, E> = Ok(value: T) | Fail(error: E)

  /**
   * A whole run: the final outcome, how many times the call was made, and the base delay
   * (milliseconds, before jitter) waited before each retry.
   */
  datatype Run<T, E> = Run(result: Outcome<T, E>, calls: nat, delays: seq<real>)

  function Pow2(n: nat): (r: nat)
    ensures r >= 1
  {
    if n == 0 then 1 else 2 * Pow2(n - 1)
  }

  /** `Math.pow(2, 5 - retries) * 1000`, fractional once `retries` exceeds 5. */
  function BaseDelay(retries: nat): real {
    if retries <= 5 then (Pow2(5 - retries) * 1000) as real
    else 1000.0 / (Pow2(retries - 5) as real)
  }

  /** The base delays waited while counting `retries` down to 1. */
  function Schedule(retries: nat): (d: seq<real>)
    ensures |d| == retries
  {
    if retries == 0 then [] else [BaseDelay(retries)] + Schedule(retries - 1)
  }

  /**
   * `exponentialBackoff(call, retries)`, where `call(k)` is the outcome of the k-th
   * invocation and `made` invocations have happened before this one.
   */
  function ExponentialBackoff<T, E>(call: nat -> Outcome<T, E>, retries: nat, made: nat): (run: Run<T, E>)
    ensures 1 <= run.calls <= retries + 1
    ensures |run.delays| == run.calls - 1
    ensures run.result == call(made + run.calls - 1)
    decreases retries
  {
    match call(made)
    case Ok(_) => Run(call(made), 1, [])
    case Fail(_) =>
      if retries > 0 then
        var rest := ExponentialBackoff(call, retries - 1, made + 1);
        Run(rest.result, rest.calls + 1, [BaseDelay(retries)] + rest.delays)
      else Run(call(made), 1, [])
  }

  /** The waits before the retries follow the schedule, from `retries` down. */
  lemma {:induction false} DelaysFollowSchedule<T, E>(call: nat -> Outcome<T, E>, retries: nat, made: nat)
    ensures var run := ExponentialBackoff(call, retries, made);
            run.delays == Schedule(retries)[..run.calls - 1]
    decreases retries
  {
    if call(made).Fail? && retries > 0 {
      DelaysFollowSchedule(call, retries - 1, made + 1);
    }
  }

  /** No invocation before the `calls`-th one succeeded. */
  lemma {:induction false} EarlierAttemptsFailed<T, E>(call: nat -> Outcome<T, E>, retries: nat, made: nat)
    ensures var run := ExponentialBackoff(call, retries, made);
            forall k :: made <= k < made + run.calls - 1 ==> call(k).Fail?
    decreases retries
  {
    if call(made).Fail? && retries > 0 {
      EarlierAttemptsFailed(call, retries - 1, made + 1);
    }
  }

  /**
   * The first success within `retries + 1` invocations is returned, after exactly
   * that many invocations.
   */
  lemma {:induction false} FirstSuccessReturned<T, E>(call: nat -> Outcome<T, E>, retries: nat, made: nat, n: nat)
    requires n <= retries
    requires forall k :: made <= k < made + n ==> call(k).Fail?
    requires call(made + n).Ok?
    ensures ExponentialBackoff(call, retries, made).calls == n + 1
    ensures ExponentialBackoff(call, retries, made).result == call(made + n)
    decreases retries
  {
    if n > 0 {
      assert call(made).Fail?;
      FirstSuccessReturned(call, retries - 1, made + 1, n - 1);
    }
  }

  /** When every invocation fails, the call is made `retries + 1` times and the last error is rethrown. */
  lemma {:induction false} AllFailuresRethrown<T, E>(call: nat -> Outcome<T, E>, retries: nat, made: nat)
    requires forall k :: made <= k <= made + retries ==> call(k).Fail?
    ensures ExponentialBackoff(call, retries, made).calls == retries + 1
    ensures ExponentialBackoff(call, retries, made).result == call(made + retries)
    ensures ExponentialBackoff(call, retries, made).delays == Schedule(retries)
    decreases retries
  {
    assert call(made).Fail?;
    if retries > 0 {
      AllFailuresRethrown(call, retries - 1, made + 1);
    }
  }

  /** The run succeeds exactly when one of the first `retries + 1` invocations does. */
  lemma {:induction false} RunSucceedsIff<T, E>(call: nat -> Outcome<T, E>, retries: nat, made: nat)
    ensures ExponentialBackoff(call, retries, made).result.Ok? <==>
              exists k :: made <= k <= made + retries && call(k).Ok?
    decreases retries
  {
    if call(made).Ok? {
      assert made <= made <= made + retries && call(made).Ok?;
    } else if retries > 0 {
      RunSucceedsIff(call, retries - 1, made + 1);
      assert ExponentialBackoff(call, retries, made).result
             == ExponentialBackoff(call, retries - 1, made + 1).result;
      if exists k :: made <= k <= made + retries && call(k).Ok? {
        var k :| made <= k <= made + retries && call(k).Ok?;
        assert made + 1 <= k <= made + 1 + (retries - 1);
      }
    }
  }

  /** With the default of 5 retries the waits are 1, 2, 4, 8 and 16 seconds, before jitter. */
  lemma DefaultSchedule()
    ensures Schedule(5) == [1000.0, 2000.0, 4000.0, 8000.0, 16000.0]
  {
    assert Pow2(4) == 16;
  }

  /** With the default, an always-failing call is made 6 times. */
  lemma DefaultAlwaysFailing<T, E>(call: nat -> Outcome<T, E>)
    requires forall k :: call(k).Fail?
    ensures ExponentialBackoff(call, 5, 0).calls == 6
    ensures ExponentialBackoff(call, 5, 0).result == call(5)
    ensures ExponentialBackoff(call, 5, 0).delays == [1000.0, 2000.0, 4000.0, 8000.0, 16000.0]
  {
    AllFailuresRethrown(call, 5, 0);
    DefaultSchedule();
  }
}
