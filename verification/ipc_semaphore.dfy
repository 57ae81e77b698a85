/**
 * `IPCSemaphore`: a one-byte cross-process signal. `Signal` writes 1 to the
 * byte, `IsSignaled` reads it, and `Wait` polls it: first a bounded spin, then
 * sleeps of growing length, until the byte reads 1, the timeout passes or
 * cancellation is requested.
 *
 * As written, `CompareExchange` runs the interlocked exchange on a local copy
 * of the byte's address and compares it with the address of its own `comparand`
 * parameter, so the exchange never happens: it returns the current byte and
 * stores nothing. `Wait` therefore never resets the byte, and this model keeps
 * that behaviour.
 *
 * The clock, the cancellation token and the peer process are inputs: a
 * `WaitOracle` gives, in milliseconds since the wait began, what one spin
 * costs, when cancellation is requested and when the peer signals.
 */
module Semaphore {
  import opened Native

  const NOT_SIGNALED: Byte := 0
  const SIGNALED: Byte := 1
  const MAX_SPIN_COUNT: nat := 500
  const MAX_SLEEP_TIME: nat := 100

  datatype WaitOracle = WaitOracle(spinMs: nat, cancelAtMs: Option<nat>, signalAtMs: Option<nat>)

  /** The cancellation token reads as cancelled at this point of the wait. */
  predicate CancelledBy(oracle: WaitOracle, elapsedMs: nat) {
    oracle.cancelAtMs.Some? && oracle.cancelAtMs.value <= elapsedMs
  }

  /** The peer has called `Signal` by this point of the wait. */
  predicate SignalDue(oracle: WaitOracle, elapsedMs: nat) {
    oracle.signalAtMs.Some? && oracle.signalAtMs.value <= elapsedMs
  }

  /** The point of the wait after which neither the timeout nor cancellation lets it go on. */
  function Deadline(timeout: nat, oracle: WaitOracle): nat {
    if oracle.cancelAtMs.Some? then Min(timeout, oracle.cancelAtMs.value) else timeout
  }

  /** The length of the `sleepCount`-th sleep. */
  function SleepTime(sleepCount: nat): nat {
    Min(sleepCount, MAX_SLEEP_TIME)
  }

  function Sum(s: seq<nat>): nat {
    if s == [] then 0 else Sum(s[..|s| - 1]) + s[|s| - 1]
  }

  class IPCSemaphore {
    var signalAddress: ByteCell

    /** Binds the signal to a byte; a non-null `initializeSignaled` also writes the byte. */
    constructor (signalAddress: ByteCell, initializeSignaled: Option<bool>)
      modifies signalAddress
      ensures this.signalAddress == signalAddress
      ensures initializeSignaled == Some(true) ==> signalAddress.value == SIGNALED
      ensures initializeSignaled == Some(false) ==> signalAddress.value == NOT_SIGNALED
      ensures initializeSignaled == None ==> signalAddress.value == old(signalAddress.value)
    {
      this.signalAddress := signalAddress;
      new;
      if initializeSignaled.Some? {
        signalAddress.value := if initializeSignaled.value then SIGNALED else NOT_SIGNALED;
      }
    }

    /**
     * `CompareExchange` as written: `&exchange` and `&comparand` are the
     * addresses of its own by-value parameters, fresh stack slots, and the
     * interlocked exchange swaps a local copy of `destination`'s address when
     * it equals `&comparand`. It never does, so the byte is returned and
     * never written (this method may change no existing object).
     */
    static method CompareExchange(destination: ByteCell, exchange: Byte, comparand: Byte) returns (original: Byte)
      ensures original == destination.value
    {
      var exchangeSlot := new ByteCell(exchange);
      var comparandSlot := new ByteCell(comparand);
      var destinationPtr := destination;
      var previousPtr := destinationPtr;
      if destinationPtr == comparandSlot {
        destinationPtr := exchangeSlot;
      }
      original := previousPtr.value;
    }

    predicate IsSignaled()
      reads this, signalAddress
    {
      signalAddress.value == SIGNALED
    }

    /** Sets the byte to 1, whatever it held; signalling twice is signalling once. */
    method Signal()
      modifies signalAddress
      ensures signalAddress.value == SIGNALED
      ensures IsSignaled()
    {
      signalAddress.value := SIGNALED;
    }

    /** The peer process writes 1 to the byte once its signal is due (the environment, not this class). */
    method PeerSignals(oracle: WaitOracle, elapsedMs: nat)
      modifies signalAddress
      ensures signalAddress.value == if SignalDue(oracle, elapsedMs) then SIGNALED else old(signalAddress.value)
    {
      if SignalDue(oracle, elapsedMs) {
        signalAddress.value := SIGNALED;
      }
    }

    /**
     * `Wait(timeout, cancelToken)`. Besides the result it returns what it did:
     * the time it took, the spins and the length of each sleep. The byte
     * changes only through the peer's signal; `Wait` itself never writes it.
     */
    method Wait(timeout: nat, oracle: WaitOracle) returns (signaled: bool, elapsedMs: nat, spins: nat, sleeps: seq<nat>)
      modifies signalAddress
      ensures signalAddress.value == if SignalDue(oracle, elapsedMs) then SIGNALED else old(signalAddress.value)
      ensures signaled <==> signalAddress.value == SIGNALED
      ensures old(signalAddress.value) == SIGNALED ==> signaled && elapsedMs == 0 && spins == 0 && sleeps == []
      ensures !signaled && signalAddress.value == NOT_SIGNALED
              ==> elapsedMs >= timeout || CancelledBy(oracle, elapsedMs)
      ensures spins <= MAX_SPIN_COUNT
      ensures forall i :: 0 <= i < |sleeps| ==> sleeps[i] == SleepTime(i + 1)
      ensures forall i :: 0 <= i < |sleeps| ==> 1 <= sleeps[i] <= MAX_SLEEP_TIME
      ensures forall i, j :: 0 <= i <= j < |sleeps| ==> sleeps[i] <= sleeps[j]
      ensures elapsedMs == spins * oracle.spinMs + Sum(sleeps)
      ensures elapsedMs <= Deadline(timeout, oracle) + if oracle.spinMs < MAX_SLEEP_TIME then MAX_SLEEP_TIME else oracle.spinMs
    {
      var step := if oracle.spinMs < MAX_SLEEP_TIME then MAX_SLEEP_TIME else oracle.spinMs;
      signaled, elapsedMs, spins, sleeps := false, 0, 0, [];
      PeerSignals(oracle, 0);
      var observed := CompareExchange(signalAddress, NOT_SIGNALED, SIGNALED);
      if observed == SIGNALED {
        signaled := true;
        return;
      }

      // Spin stage.
      while spins < MAX_SPIN_COUNT && elapsedMs < timeout && !CancelledBy(oracle, elapsedMs)
        invariant spins <= MAX_SPIN_COUNT
        invariant elapsedMs == spins * oracle.spinMs
        invariant elapsedMs <= Deadline(timeout, oracle) + step
        invariant signalAddress.value == if SignalDue(oracle, elapsedMs) then SIGNALED else old(signalAddress.value)
        invariant old(signalAddress.value) != SIGNALED
        decreases MAX_SPIN_COUNT - spins
      {
        observed := CompareExchange(signalAddress, NOT_SIGNALED, SIGNALED);
        if observed == SIGNALED {
          signaled := true;
          return;
        }
        spins := spins + 1;
        elapsedMs := elapsedMs + oracle.spinMs;
        PeerSignals(oracle, elapsedMs);
      }

      // Slow wait stage.
      var sleepCount := 0;
      while signalAddress.value == NOT_SIGNALED && elapsedMs < timeout && !CancelledBy(oracle, elapsedMs)
        invariant sleepCount == |sleeps|
        invariant forall i :: 0 <= i < |sleeps| ==> sleeps[i] == SleepTime(i + 1)
        invariant elapsedMs == spins * oracle.spinMs + Sum(sleeps)
        invariant elapsedMs <= Deadline(timeout, oracle) + step
        invariant signalAddress.value == if SignalDue(oracle, elapsedMs) then SIGNALED else old(signalAddress.value)
        decreases timeout - elapsedMs
      {
        sleepCount := sleepCount + 1;
        var sleepTime := Min(sleepCount, MAX_SLEEP_TIME);
        sleeps := sleeps + [sleepTime];
        elapsedMs := elapsedMs + sleepTime;
        PeerSignals(oracle, elapsedMs);
      }

      observed := CompareExchange(signalAddress, NOT_SIGNALED, SIGNALED);
      signaled := observed == SIGNALED;
    }
  }
}
