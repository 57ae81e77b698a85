/**
 * What the two stream facades share: how long a blocked call may still wait
 * (`Timeout.Infinite` meaning "for ever"), the ways a call can end, and the
 * environment seen at each wait.
 *
 * A facade only waits when the ring is full (writer) or empty (reader). The
 * clock and the other process are inputs: a `WaitStep` gives the stopwatch
 * reading when the facade decides to wait, the cost of one spin of the
 * semaphore, and what the peer process does to the ring meanwhile. A call
 * that needs to wait once more than its schedule allows ends as `Stalled`,
 * standing for a call that is still blocked.
 */
module StreamWait {
  import opened Native
  import opened Semaphore

  /** `Timeout.Infinite`, the initial `ReadTimeout` / `WriteTimeout`. */
  const INFINITE_TIMEOUT: Int32 := -1

  /** `TimeSpan.MaxValue` in whole milliseconds (`long.MaxValue` ticks of 100 ns). */
  const TIMESPAN_MAX_MS: nat := INT64_MAX / 10_000

  /** How a call of `ActualWrite` / `ActualRead` ends. */
  datatype Outcome =
    | Completed                 // returned normally
    | Raised(error: StreamError) // threw
    | Stalled                   // still blocked when the schedule ran out

  /** `SeekOrigin`. */
  datatype SeekOrigin = Begin | Current | End

  /** The environment during one wait; `peer` is what the other process does to the ring meanwhile. */
  datatype WaitStep<P> = WaitStep(stopwatchMs: nat, spinMs: nat, peer: P)

  /**
   * The facades' timeout test before a wait: with a finite `timeout`, a
   * stopwatch past it throws (`None`), otherwise the wait gets what is left;
   * `Timeout.Infinite` waits for `TimeSpan.MaxValue`. Any other negative
   * timeout is already past.
   */
  function WaitBudget(timeout: Int32, elapsedMs: nat): (budget: Option<nat>)
    ensures budget.None? <==> timeout != INFINITE_TIMEOUT && elapsedMs > timeout
    ensures timeout == INFINITE_TIMEOUT ==> budget == Some(TIMESPAN_MAX_MS)
    ensures timeout != INFINITE_TIMEOUT && budget.Some? ==> elapsedMs + budget.value == timeout
  {
    if timeout == INFINITE_TIMEOUT then Some(TIMESPAN_MAX_MS)
    else if elapsedMs > timeout then None
    else Some(timeout - elapsedMs)
  }

  /**
   * The semaphore's view of one wait: the step's spin cost and the caller's
   * cancellation, moved to the wait's own clock. The peer's signal comes from
   * its own `Read` / `Write`, which the facade applies before waiting.
   */
  function OracleAt<P>(step: WaitStep<P>, cancelAtMs: Option<nat>): (oracle: WaitOracle)
    ensures oracle.signalAtMs == None && oracle.spinMs == step.spinMs
    ensures cancelAtMs.None? <==> oracle.cancelAtMs.None?
    ensures cancelAtMs.Some? && cancelAtMs.value <= step.stopwatchMs ==> oracle.cancelAtMs == Some(0)
    ensures cancelAtMs.Some? && cancelAtMs.value > step.stopwatchMs
            ==> step.stopwatchMs + oracle.cancelAtMs.value == cancelAtMs.value
  {
    var cancel :=
      if cancelAtMs.None? then None
      else if cancelAtMs.value <= step.stopwatchMs then Some(0)
      else Some(cancelAtMs.value - step.stopwatchMs);
    WaitOracle(step.spinMs, cancel, None)
  }

  /** The stopwatch never runs backwards from one wait of a call to the next. */
  predicate Monotone<P>(schedule: seq<WaitStep<P>>) {
    forall i, j :: 0 <= i <= j < |schedule| ==> schedule[i].stopwatchMs <= schedule[j].stopwatchMs
  }

  /** At some wait of the schedule the stopwatch reads past `timeout`. */
  predicate ClockPasses<P>(schedule: seq<WaitStep<P>>, timeout: Int32) {
    exists i :: 0 <= i < |schedule| && schedule[i].stopwatchMs > timeout
  }

  /**
   * Once a stopwatch that never runs backwards has passed the timeout, it is
   * still past it at the last wait, so a call that reaches that wait throws.
   */
  lemma PastTimeoutStaysPast<P>(schedule: seq<WaitStep<P>>, timeout: Int32)
    requires Monotone(schedule) && ClockPasses(schedule, timeout)
    ensures |schedule| > 0 && schedule[|schedule| - 1].stopwatchMs > timeout
    ensures timeout != INFINITE_TIMEOUT ==> WaitBudget(timeout, schedule[|schedule| - 1].stopwatchMs).None?
  {
    var i :| 0 <= i < |schedule| && schedule[i].stopwatchMs > timeout;
    assert schedule[i].stopwatchMs <= schedule[|schedule| - 1].stopwatchMs;
  }

  /** The bytes `a[offset..offset + n]`, with nothing to take when `n` is 0 wherever `offset` is. */
  function Span(a: seq<Byte>, offset: nat, n: nat): (s: seq<Byte>)
    requires n == 0 || offset + n <= |a|
    ensures |s| == n
  {
    if n == 0 then [] else a[offset..offset + n]
  }

  /** A span followed by the next `k` bytes is the longer span. */
  lemma SpanGrows(a: seq<Byte>, offset: nat, n: nat, k: nat)
    requires offset + n + k <= |a|
    ensures Span(a, offset, n) + a[offset + n..offset + n + k] == Span(a, offset, n + k)
  {
  }

  /** Concatenation regroups; both facades' byte accounts rely on it. */
  lemma AppendAssoc(a: seq<Byte>, b: seq<Byte>, c: seq<Byte>)
    ensures a + (b + c) == (a + b) + c
  {
  }
}
