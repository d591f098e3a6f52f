/** `retryWithBackoff` (src/utils/retry.ts): call a fallible action until it
    returns, at most max(1, `maxAttempts`) times, waiting `baseDelayMs * 2^(k-1)`
    after the k-th failure when another call follows.

    The action is modelled by the outcomes of its successive calls: call
    number i (from 0) returns or throws `outcomes[i]`. Waiting is modelled by
    the sequence of delays the loop asks for. */
module Retry {
  import opened Base

  /** Defaults of the source's optional parameters. */
  const DEFAULT_MAX_ATTEMPTS: int := 3
  const DEFAULT_BASE_DELAY_MS: int := 500

  /** The number of calls the loop can make at most: the loop calls the action
      once before it compares the failure count with `maxAttempts`, so a cap
      below one still allows one call. */
  function Cap(maxAttempts: int): (c: nat)
    ensures c >= 1 && c >= maxAttempts
    ensures maxAttempts >= 1 ==> c == maxAttempts
  {
    if maxAttempts < 1 then 1 else maxAttempts
  }

  /** Number of calls made in all, given that calls 0 .. i-1 have failed and
      call i is about to be made. */
  function CallsFrom<T, E>(outcomes: seq<Result<T, E>>, cap: nat, i: nat): (n: nat)
    requires i < cap <= |outcomes|
    ensures i < n <= cap
    ensures outcomes[n - 1].Ok? || n == cap
    ensures forall j :: i <= j < n - 1 ==> outcomes[j].Err?
    decreases cap - i
  {
    if outcomes[i].Ok? || i + 1 == cap then i + 1 else CallsFrom(outcomes, cap, i + 1)
  }

  /** Number of calls `retryWithBackoff` makes of the action. */
  function Calls<T, E>(outcomes: seq<Result<T, E>>, maxAttempts: int): nat
    requires Cap(maxAttempts) <= |outcomes|
  {
    CallsFrom(outcomes, Cap(maxAttempts), 0)
  }

  /** The waits after the first n failures: the k-th wait (from 0) is
      `baseDelayMs * 2^k`. */
  function Schedule(baseDelayMs: int, n: nat): seq<int>
  {
    if n == 0 then [] else Schedule(baseDelayMs, n - 1) + [baseDelayMs * Pow2(n - 1)]
  }

  lemma {:induction false} ScheduleAt(baseDelayMs: int, n: nat, k: nat)
    requires k < n
    ensures |Schedule(baseDelayMs, n)| == n
    ensures Schedule(baseDelayMs, n)[k] == baseDelayMs * Pow2(k)
  {
    ScheduleLength(baseDelayMs, n - 1);
    if k < n - 1 {
      ScheduleAt(baseDelayMs, n - 1, k);
    }
  }

  lemma {:induction false} ScheduleLength(baseDelayMs: int, n: nat)
    ensures |Schedule(baseDelayMs, n)| == n
  {
    if n > 0 {
      ScheduleLength(baseDelayMs, n - 1);
    }
  }

  /** The loop of `retryWithBackoff`. It returns the result of the last call
      it made (the first success, or otherwise the error of the last permitted
      call, unchanged), how many calls it made and the delays it asked for. */
  method RetryWithBackoff<T, E>(outcomes: seq<Result<T, E>>, maxAttempts: int, baseDelayMs: int)
    returns (r: Result<T, E>, calls: nat, delays: seq<int>)
    requires Cap(maxAttempts) <= |outcomes|
    ensures calls == Calls(outcomes, maxAttempts)
    ensures 1 <= calls <= Cap(maxAttempts)
    ensures r == outcomes[calls - 1]
    ensures forall j :: 0 <= j < calls - 1 ==> outcomes[j].Err?
    ensures r.Err? ==> calls == Cap(maxAttempts)
    ensures delays == Schedule(baseDelayMs, calls - 1)
  {
    var attempt := 0;
    calls, delays := 0, [];
    while true
      invariant 0 <= attempt < Cap(maxAttempts)
      invariant calls == attempt
      invariant forall j :: 0 <= j < attempt ==> outcomes[j].Err?
      invariant CallsFrom(outcomes, Cap(maxAttempts), attempt) == Calls(outcomes, maxAttempts)
      invariant delays == Schedule(baseDelayMs, attempt)
      decreases Cap(maxAttempts) - attempt
    {
      var outcome := outcomes[calls];
      calls := calls + 1;
      if outcome.Ok? {
        return outcome, calls, delays;
      }
      attempt := attempt + 1;
      if attempt >= maxAttempts {
        return outcome, calls, delays;
      }
      var delay := baseDelayMs * Pow2(attempt - 1);
      delays := delays + [delay];
    }
  }

  /** Under the defaults, a run in which every call fails waits 500 ms and
      then 1000 ms, and makes three calls. */
  lemma DefaultSchedule<T, E>(outcomes: seq<Result<T, E>>)
    requires |outcomes| >= 3
    requires forall j :: 0 <= j < 3 ==> outcomes[j].Err?
    ensures Calls(outcomes, DEFAULT_MAX_ATTEMPTS) == 3
    ensures Schedule(DEFAULT_BASE_DELAY_MS, Calls(outcomes, DEFAULT_MAX_ATTEMPTS) - 1) == [500, 1000]
  {
    assert Pow2(1) == 2;
    assert Schedule(500, 1) == [500];
  }

  /** The first success among the permitted calls stops the loop: exactly
      k + 1 calls are made and that success is the result. */
  lemma FirstSuccessStops<T, E>(outcomes: seq<Result<T, E>>, maxAttempts: int, k: nat)
    requires Cap(maxAttempts) <= |outcomes|
    requires k < Cap(maxAttempts) && outcomes[k].Ok?
    requires forall j :: 0 <= j < k ==> outcomes[j].Err?
    ensures Calls(outcomes, maxAttempts) == k + 1
  {
  }

  /** When every permitted call fails, all of them are made. */
  lemma AllFailuresExhaustCap<T, E>(outcomes: seq<Result<T, E>>, maxAttempts: int)
    requires Cap(maxAttempts) <= |outcomes|
    requires forall j :: 0 <= j < Cap(maxAttempts) ==> outcomes[j].Err?
    ensures Calls(outcomes, maxAttempts) == Cap(maxAttempts)
  {
  }
}
