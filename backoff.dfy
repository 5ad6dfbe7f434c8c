/** `ExponentialBackoff` (src/ExponentialBackoff.php): wait times that start
    at a minimum and double on every further attempt up to a maximum, and a
    retry loop around a callback that may throw. Times are milliseconds. */
module Backoff {
  import opened Wrappers
  import opened PhpValues

  /** Default minimum wait time, used when a non-positive minimum is set. */
  const DefaultMin: int := 100
  /** Default maximum wait time, used when a non-positive maximum is set. */
  const DefaultMax: int := 10000

  datatype BackoffError = MaxBelowMin   // LogicException 'Max must be larger than min'

  function ErrorMessage(e: BackoffError): string {
    match e
    case MaxBelowMin => "Max must be larger than min"
  }

  /** The minimum `setMin` stores: non-positive values select the default. */
  function NormalMin(min: int): (m: int)
    ensures m >= 1
    ensures min > 0 ==> m == min
    ensures min <= 0 ==> m == DefaultMin
  {
    if min <= 0 then DefaultMin else min
  }

  /** The maximum `setMax` stores: non-positive values select the default. */
  function NormalMax(max: int): (m: int)
    ensures m >= 1
    ensures max > 0 ==> m == max
    ensures max <= 0 ==> m == DefaultMax
  {
    if max <= 0 then DefaultMax else max
  }

  function Min(a: int, b: int): int {
    if a <= b then a else b
  }

  /** `previousWaitTime >= max` with PHP's loose comparison: a null
      previous time is compared as a boolean, so it is at least `max` only
      when `max` is 0. */
  predicate PreviousAtLeastMax(previous: Option<int>, max: int) {
    match previous
    case None => max == 0
    case Some(p) => p >= max
  }

  /** One `getWaitTime(attempt)`: the wait time returned and the previous
      wait time stored afterwards. Attempt 0 forgets the previous time; a
      previous time at the maximum yields the maximum unchanged; otherwise
      the minimum (no previous time, or 0) or twice the previous time, capped
      at the maximum, is returned and remembered. */
  function WaitStep(previous: Option<int>, attempt: int, min: int, max: int): (res: (int, Option<int>))
    ensures res.0 <= max
    ensures res.1 == previous || res.1 == Some(res.0) || (attempt == 0 && res.1 == None)
  {
    var prev := if attempt == 0 then None else previous;
    if PreviousAtLeastMax(prev, max) then (max, prev)
    else
      var next := Min(if prev.None? || prev.value == 0 then min else prev.value * 2, max);
      (next, Some(next))
  }

  /** The wait times of `count` consecutive calls `getWaitTime(attempt)`,
      `getWaitTime(attempt + 1)`, …, and the previous wait time after them. */
  function WaitTimes(previous: Option<int>, attempt: nat, count: nat, min: int, max: int): (res: (seq<int>, Option<int>))
    ensures |res.0| == count
    ensures forall i :: 0 <= i < count ==> res.0[i] <= max
    decreases count
  {
    if count == 0 then ([], previous)
    else
      var (wait, prev) := WaitStep(previous, attempt, min, max);
      var (rest, last) := WaitTimes(prev, attempt + 1, count - 1, min, max);
      ([wait] + rest, last)
  }

  function Pow2(k: nat): (p: nat)
    ensures p >= 1
  {
    if k == 0 then 1 else 2 * Pow2(k - 1)
  }

  /** What the callback of `retry` does on one call: return a value, throw
      an `Exception`, or throw an `Error` (a throwable that is not an
      `Exception`, such as a `TypeError`); thrown objects are identified by
      their object identity. */
  datatype Outcome = Returned(value: Value) | Threw(err: nat) | Raised(error: nat)

  /** The callback of `retry`: the number of earlier calls and the
      exception the previous call threw (if any) determine what it does. */
  type Callback = (nat, Option<nat>) -> Outcome

  /** `retry` from attempt `attempt` on: the final outcome and how many
      calls were made in total. An exception is rethrown once the attempts
      reach the number of retries or when it is the very exception the
      previous call threw. An `Error` is not caught and ends `retry` at
      once. */
  function RetryFrom(callback: Callback, retries: int, attempt: nat, previousErr: Option<nat>): (res: (Outcome, nat))
    ensures res.1 > attempt
    decreases retries - attempt
  {
    match callback(attempt, previousErr)
    case Returned(v) => (Returned(v), attempt + 1)
    case Raised(e) => (Raised(e), attempt + 1)
    case Threw(e) =>
      if attempt >= retries || Some(e) == previousErr then (Threw(e), attempt + 1)
      else RetryFrom(callback, retries, attempt + 1, Some(e))
  }

  class ExponentialBackoff {
    /** The minimum wait time for each retry. */
    var min: int
    /** The maximum wait time for each retry. */
    var max: int
    /** Number of retries to be performed before giving up. */
    var retries: int
    /** The previously used wait time. */
    var previousWaitTime: Option<int>

    /** `new ExponentialBackoff()`: one retry, minimum and maximum at their
        defaults. */
    constructor Default()
      ensures retries == 1 && min == DefaultMin && max == DefaultMax
      ensures previousWaitTime == None
    {
      retries := 1;
      min := NormalMin(0);
      max := NormalMax(0);
      previousWaitTime := None;
    }

    /** `new ExponentialBackoff(retries)`: minimum and maximum left at their
        defaults. */
    constructor (retries: int)
      ensures this.retries == retries && min == DefaultMin && max == DefaultMax
      ensures previousWaitTime == None
    {
      this.retries := retries;
      min := NormalMin(0);
      max := NormalMax(0);
      previousWaitTime := None;
    }

    /** `new ExponentialBackoff(retries, min, max)`: fails, as the
        constructor throws, when the normalised minimum exceeds the
        normalised maximum. */
    static method Create(retries: int, min: int, max: int) returns (r: Result<ExponentialBackoff, BackoffError>)
      ensures r.Success? <==> NormalMin(min) <= NormalMax(max)
      ensures r.Failure? ==> r.error == MaxBelowMin
      ensures r.Success? ==>
                fresh(r.value) && r.value.retries == retries
                && r.value.min == NormalMin(min) && r.value.max == NormalMax(max)
                && r.value.previousWaitTime == None
    {
      var b := new ExponentialBackoff(retries);
      b.SetMin(min);
      var checked := b.SetMax(max);
      if checked.Failure? {
        return Failure(checked.error);
      }
      return Success(b);
    }

    function GetMin(): int
      reads this
    {
      min
    }

    function GetMax(): int
      reads this
    {
      max
    }

    function GetRetries(): int
      reads this
    {
      retries
    }

    /** `setMin(min)`: stores the minimum, non-positive values selecting the
        default; the maximum is not checked against it. */
    method SetMin(min: int)
      modifies this
      ensures this.min == NormalMin(min)
      ensures max == old(max) && retries == old(retries) && previousWaitTime == old(previousWaitTime)
    {
      var m := min;
      if m <= 0 {
        m := DefaultMin;
      }
      this.min := m;
    }

    /** `setMax(max)`: stores the maximum, non-positive values selecting the
        default, and then fails if the minimum exceeds it; the maximum stays
        stored even then. */
    method SetMax(max: int) returns (r: Result<ExponentialBackoff, BackoffError>)
      modifies this
      ensures this.max == NormalMax(max)
      ensures min == old(min) && retries == old(retries) && previousWaitTime == old(previousWaitTime)
      ensures r.Failure? <==> min > this.max
      ensures r.Failure? ==> r.error == MaxBelowMin
      ensures r.Success? ==> r.value == this
    {
      var m := max;
      if m <= 0 {
        m := DefaultMax;
      }
      this.max := m;
      if this.min > this.max {
        return Failure(MaxBelowMin);
      }
      return Success(this);
    }

    method SetRetries(retries: int) returns (self: ExponentialBackoff)
      modifies this
      ensures self == this && this.retries == retries
      ensures min == old(min) && max == old(max) && previousWaitTime == old(previousWaitTime)
    {
      this.retries := retries;
      self := this;
    }

    /** `getWaitTime(attempt)`: one step of the doubling sequence. */
    method GetWaitTime(attempt: int) returns (wait: int)
      modifies this
      ensures (wait, previousWaitTime) == WaitStep(old(previousWaitTime), attempt, min, max)
      ensures min == old(min) && max == old(max) && retries == old(retries)
    {
      if attempt == 0 {
        previousWaitTime := None;
      }
      if PreviousAtLeastMax(previousWaitTime, max) {
        return max;
      }
      var next := Min(if previousWaitTime.None? || previousWaitTime.value == 0 then min else previousWaitTime.value * 2, max);
      previousWaitTime := Some(next);
      return next;
    }

    /** `retry(callback)`: calls the callback until it returns, rethrowing
        its exception once the retries are used up or when it throws the
        same exception twice in a row; an `Error` passes through at once. Sleeping is not performed; the wait
        times the loop would sleep for are returned in `sleeps`. */
    method Retry(callback: Callback) returns (outcome: Outcome, calls: nat, sleeps: seq<int>)
      modifies this
      ensures (outcome, calls) == RetryFrom(callback, retries, 0, None)
      ensures calls >= 1
      ensures (sleeps, previousWaitTime) == WaitTimes(old(previousWaitTime), 0, calls - 1, min, max)
      ensures min == old(min) && max == old(max) && retries == old(retries)
    {
      var attempt: nat := 0;
      var previousErr: Option<nat> := None;
      sleeps := [];
      while true
        invariant attempt == 0 ==> previousErr == None
        invariant RetryFrom(callback, retries, attempt, previousErr) == RetryFrom(callback, retries, 0, None)
        invariant (sleeps, previousWaitTime) == WaitTimes(old(previousWaitTime), 0, attempt, min, max)
        invariant min == old(min) && max == old(max) && retries == old(retries)
        decreases retries - attempt
      {
        var result := callback(attempt, previousErr);
        if !result.Threw? {
          return result, attempt + 1, sleeps;
        }
        var err := result.err;
        if attempt >= retries || Some(err) == previousErr {
          return result, attempt + 1, sleeps;
        }
        previousErr := Some(err);
        var sleep := GetWaitTime(attempt);
        WaitTimesSnoc(old(previousWaitTime), attempt, min, max);
        sleeps := sleeps + [sleep];
        attempt := attempt + 1;
      }
    }
  }

  /** Extending a run of wait times by one more call. */
  lemma {:induction false} WaitTimesSnoc(previous: Option<int>, count: nat, min: int, max: int)
    ensures var (ws, p) := WaitTimes(previous, 0, count, min, max);
      var (w, q) := WaitStep(p, count, min, max);
      WaitTimes(previous, 0, count + 1, min, max) == (ws + [w], q)
  {
    WaitTimesSnocFrom(previous, 0, count, min, max);
  }

  lemma {:induction false} WaitTimesSnocFrom(previous: Option<int>, attempt: nat, count: nat, min: int, max: int)
    ensures var (ws, p) := WaitTimes(previous, attempt, count, min, max);
      var (w, q) := WaitStep(p, attempt + count, min, max);
      WaitTimes(previous, attempt, count + 1, min, max) == (ws + [w], q)
    decreases count
  {
    if count > 0 {
      var (wait, prev) := WaitStep(previous, attempt, min, max);
      WaitTimesSnocFrom(prev, attempt + 1, count - 1, min, max);
      var (rest, last) := WaitTimes(prev, attempt + 1, count - 1, min, max);
      var (w, q) := WaitStep(last, attempt + count, min, max);
      assert WaitTimes(prev, attempt + 1, count, min, max) == (rest + [w], q);
      assert WaitTimes(previous, attempt, count, min, max) == ([wait] + rest, last);
      assert WaitTimes(previous, attempt, count + 1, min, max) == ([wait] + (rest + [w]), q);
      assert [wait] + (rest + [w]) == ([wait] + rest) + [w];
    } else {
      var (w, q) := WaitStep(previous, attempt, min, max);
      assert WaitTimes(q, attempt + 1, 0, min, max) == ([], q);
      assert WaitTimes(previous, attempt, 1, min, max) == ([w] + [], q);
      assert WaitTimes(previous, attempt, 0, min, max) == ([], previous);
      assert [w] + [] == [] + [w];
    }
  }

  /** Once the minimum is at least 1 and does not exceed the maximum, every
      wait time lies between them and so does the remembered one. */
  lemma WaitStepInBand(previous: Option<int>, attempt: int, min: int, max: int)
    requires 1 <= min <= max
    requires previous.Some? ==> min <= previous.value <= max
    ensures min <= WaitStep(previous, attempt, min, max).0 <= max
    ensures var next := WaitStep(previous, attempt, min, max).1;
      next.Some? ==> min <= next.value <= max
  {
  }

  /** The `k`-th wait time after attempt 0 (in a run of consecutive
      attempts) is the minimum doubled `k` times, capped at the maximum. */
  function ExpectedWait(k: nat, min: int, max: int): int {
    Min(min * Pow2(k), max)
  }

  lemma DoublingStep(k: nat, min: int, max: int)
    requires 1 <= min <= max && k >= 1
    ensures WaitStep(Some(ExpectedWait(k - 1, min, max)), k, min, max)
      == (ExpectedWait(k, min, max), Some(ExpectedWait(k, min, max)))
  {
    var p := min * Pow2(k - 1);
    assert min * Pow2(k) == 2 * p;
    if p < max {
      assert p >= 1;
    }
  }

  lemma {:induction false} WaitTimesFrom(previous: Option<int>, k: nat, n: nat, min: int, max: int, i: nat)
    requires 1 <= min <= max && k >= 1 && i < n
    requires previous == Some(ExpectedWait(k - 1, min, max))
    ensures WaitTimes(previous, k, n, min, max).0[i] == ExpectedWait(k + i, min, max)
    decreases i
  {
    DoublingStep(k, min, max);
    var next := Some(ExpectedWait(k, min, max));
    var rest := WaitTimes(next, k + 1, n - 1, min, max).0;
    assert WaitTimes(previous, k, n, min, max).0 == [ExpectedWait(k, min, max)] + rest;
    if i > 0 {
      WaitTimesFrom(next, k + 1, n - 1, min, max, i - 1);
      assert k + 1 + (i - 1) == k + i;
    }
  }

  /** `n` consecutive calls `getWaitTime(0)`, `getWaitTime(1)`, … return
      min, 2·min, 4·min, …, capped at the maximum, whatever was remembered
      before. */
  lemma WaitTimesDouble(previous: Option<int>, n: nat, min: int, max: int)
    requires 1 <= min <= max
    ensures var ws := WaitTimes(previous, 0, n, min, max).0;
      forall i :: 0 <= i < n ==> ws[i] == ExpectedWait(i, min, max)
  {
    var ws := WaitTimes(previous, 0, n, min, max).0;
    forall i | 0 <= i < n
      ensures ws[i] == ExpectedWait(i, min, max)
    {
      var rest := WaitTimes(Some(min), 1, n - 1, min, max).0;
      assert WaitStep(previous, 0, min, max) == (min, Some(min));
      assert ws == [min] + rest;
      if i > 0 {
        assert ExpectedWait(0, min, max) == min;
        WaitTimesFrom(Some(min), 1, n - 1, min, max, i - 1);
      }
    }
  }

  /** Each wait time of such a run is twice the one before, capped at the
      maximum, so the run never decreases. */
  lemma WaitTimesGrow(previous: Option<int>, n: nat, min: int, max: int, i: nat)
    requires 1 <= min <= max && i + 1 < n
    ensures var ws := WaitTimes(previous, 0, n, min, max).0;
      ws[i + 1] == Min(2 * ws[i], max) && ws[i] <= ws[i + 1]
  {
    WaitTimesDouble(previous, n, min, max);
    assert min * Pow2(i + 1) == 2 * (min * Pow2(i));
  }

  /** The sequence checked for a backoff with minimum 1000 (the maximum
      left at its default): `getWaitTime` for attempts 0, 0, 1, 1, 2, 3
      yields 1000, 1000, 2000, 4000, 8000 and then the maximum. */
  method WaitTimeScenario() returns (waits: seq<int>)
    ensures waits == [1000, 1000, 2000, 4000, 8000, 10000]
  {
    var created := ExponentialBackoff.Create(100, 1000, 0);
    assert created.Success?;
    var b := created.value;
    var w0 := b.GetWaitTime(0);
    var w1 := b.GetWaitTime(0);
    var w2 := b.GetWaitTime(1);
    var w3 := b.GetWaitTime(1);
    var w4 := b.GetWaitTime(2);
    var w5 := b.GetWaitTime(3);
    waits := [w0, w1, w2, w3, w4, w5];
  }

  /** `retry` calls the callback at most once more than the number of
      retries, and exactly once when that number is not positive. */
  lemma {:induction false} RetryCallsBounded(callback: Callback, retries: int, attempt: nat, previousErr: Option<nat>)
    ensures var calls := RetryFrom(callback, retries, attempt, previousErr).1;
      calls <= (if retries > attempt then retries else attempt) + 1
    decreases retries - attempt
  {
    match callback(attempt, previousErr)
    case Returned(v) =>
    case Raised(e) =>
    case Threw(e) =>
      if !(attempt >= retries || Some(e) == previousErr) {
        RetryCallsBounded(callback, retries, attempt + 1, Some(e));
      }
  }

  /** The first `n` calls of the callback each throw, whatever exception
      they are handed, and no call throws the same exception as the call
      before it. */
  ghost predicate FailsAfresh(callback: Callback, n: nat) {
    && (forall i: nat, p :: i < n ==> callback(i, p) == callback(i, None) && callback(i, None).Threw?)
    && (forall i: nat :: 0 < i < n ==> callback(i, None) != callback(i - 1, None))
  }

  /** The exception `retry` hands to the call after `attempt` earlier
      calls that all threw. */
  function CaughtBefore(callback: Callback, attempt: nat): Option<nat> {
    if attempt == 0 then None
    else match callback(attempt - 1, None)
      case Threw(e) => Some(e)
      case _ => None
  }

  /** A callback that throws a new exception on each of its first `n`
      calls and then returns is retried until it returns, as long as `n`
      does not exceed the number of retries. */
  lemma {:induction false} RetryUntilSuccess(callback: Callback, retries: int, n: nat, v: Value, attempt: nat)
    requires FailsAfresh(callback, n)
    requires forall p :: callback(n, p) == Returned(v)
    requires attempt <= n <= retries
    ensures RetryFrom(callback, retries, attempt, CaughtBefore(callback, attempt)) == (Returned(v), n + 1)
    decreases n - attempt
  {
    if attempt < n {
      RetryUntilSuccess(callback, retries, n, v, attempt + 1);
    }
  }

  /** An `Error` thrown after any number of retried exceptions is passed
      on at once, with retries still left. */
  lemma {:induction false} RetryPassesErrorOn(callback: Callback, retries: int, n: nat, e: nat, attempt: nat)
    requires FailsAfresh(callback, n)
    requires forall p :: callback(n, p) == Raised(e)
    requires attempt <= n <= retries
    ensures RetryFrom(callback, retries, attempt, CaughtBefore(callback, attempt)) == (Raised(e), n + 1)
    decreases n - attempt
  {
    if attempt < n {
      RetryPassesErrorOn(callback, retries, n, e, attempt + 1);
    }
  }

  /** With ten retries, a callback failing with a new exception on its
      first four calls succeeds on the fifth. */
  lemma RetrySucceedsOnFifthCall()
    ensures var callback := (i: nat, p: Option<nat>) => if i < 4 then Threw(i) else Returned(Str("succeeded"));
      RetryFrom(callback, 10, 0, None) == (Returned(Str("succeeded")), 5)
  {
    var callback := (i: nat, p: Option<nat>) => if i < 4 then Threw(i) else Returned(Str("succeeded"));
    RetryUntilSuccess(callback, 10, 4, Str("succeeded"), 0);
  }

  /** A callback that keeps throwing new exceptions is called once more
      than the number of retries and its last exception is rethrown. */
  lemma {:induction false} RetryGivesUp(callback: Callback, retries: nat, attempt: nat)
    requires FailsAfresh(callback, retries + 1)
    requires attempt <= retries
    ensures RetryFrom(callback, retries, attempt, CaughtBefore(callback, attempt)) == (callback(retries, None), retries + 1)
    decreases retries - attempt
  {
    if attempt < retries {
      RetryGivesUp(callback, retries, attempt + 1);
    }
  }

  /** With a negative number of retries the callback is called once and
      its exception, if any, is rethrown. */
  lemma RetryWithoutRetries(callback: Callback, retries: int)
    requires retries <= 0
    ensures RetryFrom(callback, retries, 0, None) == (callback(0, None), 1)
  {
  }

  /** An exception thrown again right after it was caught is rethrown at
      once, whatever the number of retries left. */
  lemma RetryStopsOnSameError(callback: Callback, retries: int, e: nat)
    requires retries >= 1
    requires callback(0, None) == Threw(e) && callback(1, Some(e)) == Threw(e)
    ensures RetryFrom(callback, retries, 0, None) == (Threw(e), 2)
  {
    assert RetryFrom(callback, retries, 0, None) == RetryFrom(callback, retries, 1, Some(e));
  }
}
