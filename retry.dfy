/** The `retry` decorator: call an operation up to `max_retries` times,
    return the first value it produces, sleep a random delay after every
    failed attempt but the last, and return `default_return` when every
    attempt failed.

    The operation is the oracle `op`: `op(k)` is what attempt `k` (counted
    from 0) does. The random delays are the oracle `draw`: `draw(j)` is the
    value `random.uniform(min_delay, max_delay)` returns the j-th time it is
    called. Sleeping is recorded, not performed: the method returns the
    delays it would sleep, in order. */
module Retry {

  /** What one call of the wrapped operation does. */
  datatype Attempt<T> = Succeeded(value: T) | Failed

  /** The decorator's defaults for `max_retries` and `default_return`. The
      delay bounds (`min_delay=1`, `max_delay=10`) are the parameters
      `minDelay` and `maxDelay` of `RetryCall`. */
  const DefaultMaxRetries: int := 3
  const DefaultReturn: bool := false

  /** What a run of the wrapper returns and how many attempts and sleeps it made. */
  datatype Run<T> = Run(result: T, attempts: nat, sleeps: nat)

  /** Reference definition of the wrapper from attempt `k` on, with `m` the
      attempt budget: an attempt that succeeds ends the run with its value;
      a failed attempt is followed by a sleep unless it was attempt m - 1;
      once the budget is spent the fallback is returned. */
  function RunFrom<T>(op: nat -> Attempt<T>, k: nat, m: int, fallback: T): (r: Run<T>)
    ensures r.attempts <= if k < m then m - k else 0
    ensures r.sleeps <= r.attempts
    decreases m - k
  {
    if k >= m then Run(fallback, 0, 0)
    else match op(k)
      case Succeeded(v) => Run(v, 1, 0)
      case Failed =>
        var rest := RunFrom(op, k + 1, m, fallback);
        Run(rest.result, rest.attempts + 1, rest.sleeps + (if k < m - 1 then 1 else 0))
  }

  /** The values `random.uniform(a, b)` can return: any number between its
      two bounds, whichever of them is larger. */
  predicate Between(a: real, b: real, x: real) {
    (a <= x <= b) || (b <= x <= a)
  }

  /** The wrapper around `op`: a `for attempt in range(max_retries)` loop
      that returns at the first success and sleeps after each failure but
      the last, then returns `fallback`. The j-th sleep lasts the j-th value
      `draw(j)` of `random.uniform(min_delay, max_delay)`: a fresh draw from
      the same range each time, with no growth between attempts. */
  method RetryCall<T>(op: nat -> Attempt<T>, maxRetries: int, fallback: T,
                      minDelay: real, maxDelay: real, draw: nat -> real)
    returns (result: T, attempts: nat, delays: seq<real>)
    requires forall j: nat :: Between(minDelay, maxDelay, draw(j))
    ensures Run(result, attempts, |delays|) == RunFrom(op, 0, maxRetries, fallback)
    ensures forall j :: 0 <= j < |delays| ==> delays[j] == draw(j) && Between(minDelay, maxDelay, delays[j])
  {
    attempts := 0;
    delays := [];
    var attempt: nat := 0;
    while attempt < maxRetries
      invariant attempt == attempts
      invariant attempt <= maxRetries || attempt == 0
      invariant forall j :: 0 <= j < |delays| ==> delays[j] == draw(j)
      invariant var rest := RunFrom(op, attempt, maxRetries, fallback);
        RunFrom(op, 0, maxRetries, fallback) == Run(rest.result, rest.attempts + attempt, rest.sleeps + |delays|)
      decreases maxRetries - attempt
    {
      attempts := attempts + 1;
      match op(attempt) {
        case Succeeded(v) =>
          result := v;
          return;
        case Failed =>
          if attempt < maxRetries - 1 {
            var jitter := draw(|delays|);
            delays := delays + [jitter];
          }
      }
      attempt := attempt + 1;
    }
    result := fallback;
  }

  /** The run of an operation that fails `f` times from attempt `k` on and
      then succeeds. */
  lemma {:induction false} FailuresThenSuccessFrom<T>(op: nat -> Attempt<T>, k: nat, f: nat, m: int, fallback: T)
    requires k <= f
    requires forall j :: k <= j < f ==> op(j).Failed?
    requires op(f).Succeeded?
    ensures RunFrom(op, k, m, fallback) ==
      if f < m then Run(op(f).value, f + 1 - k, f - k)
      else if k < m then Run(fallback, m - k, m - 1 - k)
      else Run(fallback, 0, 0)
    decreases f - k
  {
    if k < m && k < f {
      FailuresThenSuccessFrom(op, k + 1, f, m, fallback);
    }
  }

  /** An operation that fails `f` times and then succeeds, with `m` attempts
      allowed: the wrapper returns the success value exactly when `f < m` and
      the fallback otherwise, after `min(f + 1, m)` attempts; it sleeps `f`
      times when it succeeds and `m - 1` times when it gives up. */
  lemma FailuresThenSuccess<T>(op: nat -> Attempt<T>, f: nat, m: int, fallback: T)
    requires forall j :: 0 <= j < f ==> op(j).Failed?
    requires op(f).Succeeded?
    ensures var r := RunFrom(op, 0, m, fallback);
      && (f < m ==> r.result == op(f).value)
      && (f >= m ==> r.result == fallback)
      && r.attempts == (if m <= 0 then 0 else if f + 1 < m then f + 1 else m)
      && r.sleeps == (if m <= 0 then 0 else if f < m then f else m - 1)
  {
    FailuresThenSuccessFrom(op, 0, f, m, fallback);
  }

  /** An operation that always fails: the wrapper makes `m` attempts, sleeps
      `m - 1` times and returns the fallback rather than raising. */
  lemma {:induction false} AllFailFrom<T>(op: nat -> Attempt<T>, k: nat, m: int, fallback: T)
    requires forall j :: k <= j < m ==> op(j).Failed?
    ensures RunFrom(op, k, m, fallback) ==
      if k < m then Run(fallback, m - k, m - 1 - k) else Run(fallback, 0, 0)
    decreases m - k
  {
    if k < m {
      AllFailFrom(op, k + 1, m, fallback);
    }
  }

  lemma AllFail<T>(op: nat -> Attempt<T>, m: int, fallback: T)
    requires forall j :: 0 <= j < m ==> op(j).Failed?
    ensures var r := RunFrom(op, 0, m, fallback);
      r.result == fallback && r.attempts == (if m <= 0 then 0 else m) && r.sleeps == (if m <= 0 then 0 else m - 1)
  {
    AllFailFrom(op, 0, m, fallback);
  }

  /** Every run is one of two kinds: the first success within the budget,
      after only failures, ends it with that value; or all attempts of the
      budget fail and the fallback is returned. */
  lemma {:induction false} RunShape<T>(op: nat -> Attempt<T>, k: nat, m: int, fallback: T)
    ensures var r := RunFrom(op, k, m, fallback);
      && (forall j :: k <= j < k + r.attempts - 1 ==> op(j).Failed?)
      && (r.attempts > 0 && op(k + r.attempts - 1).Succeeded? ==> r.result == op(k + r.attempts - 1).value)
      && (r.attempts == 0 || op(k + r.attempts - 1).Failed? ==>
            r.result == fallback && r.attempts == (if k < m then m - k else 0))
    decreases m - k
  {
    if k < m && op(k).Failed? {
      RunShape(op, k + 1, m, fallback);
    }
  }

  /** With the default fallback `False`, an operation that returns `False` at
      its first attempt and one that always fails give the caller the same
      answer: exhausting the retries cannot be told from that result. */
  lemma DefaultIsAmbiguous()
    ensures RunFrom((k: nat) => Succeeded(false), 0, DefaultMaxRetries, DefaultReturn).result
         == RunFrom((k: nat) => Failed, 0, DefaultMaxRetries, DefaultReturn).result
  {
    AllFail((k: nat) => Failed, DefaultMaxRetries, DefaultReturn);
  }
}
