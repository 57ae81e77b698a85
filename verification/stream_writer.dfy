/**
 * `InterProcessStreamWriter`: the writing end of the stream, a `Stream` whose
 * only supported operation is `Write`. `ActualWrite` keeps calling the
 * region's `Write` until every byte has been accepted, waiting for the reader
 * whenever the ring is full.
 *
 * The reader process is the environment: at each wait, the schedule says how
 * many bytes it reads off the ring meanwhile (through the region's own
 * `Read`, which signals the semaphore the writer waits on). Together with the
 * stopwatch readings, that decides how the call ends.
 */
module StreamWriter {
  import opened Native
  import opened RingState
  import opened Semaphore
  import opened Region
  import opened StreamWait

  /** At a wait of the writer: how many bytes the reader process asks for meanwhile. */
  type WriterWait = WaitStep<U64>

  /** The reader process reads up to `k` bytes off the front of the ring into a buffer of its own. */
  method PeerTakes(region: SharedRegion, k: U64) returns (ghost taken: seq<Byte>)
    requires region.Valid()
    modifies region.sharedState`currentReaderIndex, region.sharedState.readerSemaphore
    ensures region.Valid()
    ensures taken + region.Contents() == old(region.Contents())
    ensures |taken| == Min(k, old(region.AvailableData()))
  {
    ghost var queue := region.Contents();
    var sink := new Byte[k];
    var r := region.Read(sink, 0, k);
    taken := queue[..r.value];
    assert queue == taken + queue[r.value..];
  }

  class InterProcessStreamWriter {
    const sharedRegion: SharedRegion
    const capacity: int
    var timeout: Int32

    const CanRead: bool := false
    const CanSeek: bool := false
    const CanWrite: bool := true
    const CanTimeout: bool := true
    /** The `Position` getter always reads 0. */
    const Position: int := 0

    /** Wraps a region and announces the writer in the shared header. */
    constructor (sharedRegion: SharedRegion, capacity: int)
      requires sharedRegion.Valid()
      modifies sharedRegion.sharedState`streamState
      ensures this.sharedRegion == sharedRegion && this.capacity == capacity
      ensures timeout == INFINITE_TIMEOUT
      ensures sharedRegion.Valid()
      ensures sharedRegion.sharedState.IsWriterConnected()
      ensures sharedRegion.sharedState.IsReaderConnected() == old(sharedRegion.sharedState.IsReaderConnected())
      ensures sharedRegion.sharedState.IsStreamFinished() == old(sharedRegion.sharedState.IsStreamFinished())
    {
      this.sharedRegion := sharedRegion;
      this.capacity := capacity;
      timeout := INFINITE_TIMEOUT;
      new;
      sharedRegion.sharedState.SetWriterConnected(true);
    }

    /** Creates the shared segment for `capacity` bytes and a writer over it. */
    static method CreateAsHost(capacity: nat) returns (writer: InterProcessStreamWriter)
      requires capacity + 1 + SharedStateSize <= INT64_MAX
      ensures fresh(writer) && fresh(writer.sharedRegion) && writer.sharedRegion.Valid()
      ensures fresh(writer.sharedRegion.sharedFile) && fresh(writer.sharedRegion.sharedState) && fresh(writer.sharedRegion.sharedBuffer)
      ensures fresh(writer.sharedRegion.sharedState.readerSemaphore) && fresh(writer.sharedRegion.sharedState.writerSemaphore)
      ensures writer.Length() == capacity && writer.timeout == INFINITE_TIMEOUT
      ensures writer.sharedRegion.AvailableSpace() == capacity && writer.sharedRegion.Contents() == []
      ensures writer.sharedRegion.sharedState.IsWriterConnected()
      ensures !writer.sharedRegion.sharedState.IsReaderConnected() && !writer.sharedRegion.sharedState.IsStreamFinished()
      ensures writer.sharedRegion.sharedFile.Formatted()
    {
      var region := SharedRegion.CreateHost(capacity);
      writer := new InterProcessStreamWriter(region, capacity);
    }

    /** `Length` is the capacity given at creation, not anything about the ring's contents. */
    function Length(): int {
      capacity
    }

    function WriteTimeout(): Int32
      reads this
    {
      timeout
    }

    method SetWriteTimeout(value: Int32)
      modifies this`timeout
      ensures timeout == value && WriteTimeout() == value
    {
      timeout := value;
    }

    /** The `Position` setter always throws. */
    method SetPosition(value: int) returns (r: Result<()>)
      ensures r == Failure(InvalidOperation)
    {
      r := Failure(InvalidOperation);
    }

    method Read(buffer: array<Byte>, offset: Int32, count: Int32) returns (r: Result<Int32>)
      ensures r == Failure(InvalidOperation)
    {
      r := Failure(InvalidOperation);
    }

    method Seek(offset: int, origin: SeekOrigin) returns (r: Result<int>)
      ensures r == Failure(InvalidOperation)
    {
      r := Failure(InvalidOperation);
    }

    method SetLength(value: int) returns (r: Result<()>)
      ensures r == Failure(InvalidOperation)
    {
      r := Failure(InvalidOperation);
    }

    /**
     * `ActualWrite(buffer, offset, count, cancellationToken)`. It ends normally
     * exactly when all `count` bytes went into the ring; it throws
     * `TimeoutException` only with a finite timeout, a full ring and the
     * stopwatch past the timeout; and the wait's result and the cancellation
     * token never end it. Whatever the outcome, the bytes it wrote joined the
     * back of the queue, behind what the reader took meanwhile.
     */
    method ActualWrite(buffer: array<Byte>, offset: U64, count: U64, cancelAtMs: Option<nat>, schedule: seq<WriterWait>)
      returns (outcome: Outcome, sent: U64, waits: nat, ghost taken: seq<Byte>)
      requires sharedRegion.Valid() && buffer != sharedRegion.sharedBuffer && buffer.Length < TWO_TO_THE_64
      modifies sharedRegion.sharedState`currentWriterIndex, sharedRegion.sharedState`currentReaderIndex
      modifies sharedRegion.sharedBuffer, sharedRegion.sharedState.writerSemaphore, sharedRegion.sharedState.readerSemaphore
      ensures sharedRegion.Valid()
      ensures sent <= count && waits <= |schedule|
      ensures outcome == Completed <==> sent == count
      ensures outcome.Raised? ==> outcome.error == ArgumentOutOfRange || outcome.error == Timeout
      ensures outcome == Raised(ArgumentOutOfRange) ==> OutOfRange(buffer.Length, offset, count) && sent == 0
      ensures !OutOfRange(buffer.Length, offset, count) ==> outcome != Raised(ArgumentOutOfRange)
      ensures outcome == Raised(Timeout) ==> (timeout != INFINITE_TIMEOUT && waits < |schedule|
                && schedule[waits].stopwatchMs > timeout && sharedRegion.AvailableSpace() == 0)
      ensures timeout == INFINITE_TIMEOUT ==> outcome != Raised(Timeout)
      ensures outcome == Stalled ==> waits == |schedule| && sharedRegion.AvailableSpace() == 0
      ensures sent == 0 || offset + sent <= buffer.Length
      ensures old(sharedRegion.Contents()) + Span(buffer[..], offset, sent) == taken + sharedRegion.Contents()
      ensures count == 0 ==> outcome == Completed && waits == 0 && taken == [] && sharedRegion.Contents() == old(sharedRegion.Contents())
      ensures waits == 0 ==> taken == []
      ensures waits > 0 ==> WaitBudget(timeout, schedule[waits - 1].stopwatchMs).Some?
      ensures !OutOfRange(buffer.Length, offset, count) ==>
                (count <= old(sharedRegion.AvailableSpace()) ==> outcome == Completed && waits == 0)
    {
      ghost var before, data, space := sharedRegion.Contents(), buffer[..], sharedRegion.AvailableSpace();
      sent, waits, taken := 0, 0, [];
      while sent < count
        invariant sharedRegion.Valid() && buffer[..] == data
        invariant sent <= count && waits <= |schedule|
        invariant sent > 0 ==> !OutOfRange(buffer.Length, offset, count)
        invariant before + Span(data, offset, sent) == taken + sharedRegion.Contents()
        invariant count == 0 ==> waits == 0 && taken == [] && sharedRegion.Contents() == before
        invariant waits == 0 ==> taken == []
        invariant waits > 0 ==> WaitBudget(timeout, schedule[waits - 1].stopwatchMs).Some?
        invariant waits == 0 ==> sharedRegion.AvailableSpace() + sent == space
        invariant waits > 0 ==> space < count
        decreases |schedule| - waits, count - sent
      {
        var stop;
        stop, sent, waits, taken := WriteTurn(buffer, offset, count, cancelAtMs, schedule, sent, waits, data, before, taken, space);
        if stop.Some? {
          return stop.value, sent, waits, taken;
        }
      }
      outcome := Completed;
    }

    /**
     * One turn of `ActualWrite`'s loop: with the ring full, check the
     * stopwatch and wait for the reader once; then hand the rest of the range
     * to the region. `stop` is the outcome when the turn ends the call. A turn
     * that does not stop makes progress: one more wait, or more bytes sent.
     */
    method WriteTurn(buffer: array<Byte>, offset: U64, count: U64, cancelAtMs: Option<nat>, schedule: seq<WriterWait>,
                     sent: U64, waits: nat, ghost data: seq<Byte>, ghost before: seq<Byte>, ghost taken: seq<Byte>,
                     ghost space: nat)
      returns (stop: Option<Outcome>, nextSent: U64, nextWaits: nat, ghost nextTaken: seq<Byte>)
      requires sharedRegion.Valid() && buffer != sharedRegion.sharedBuffer && buffer.Length < TWO_TO_THE_64
      requires buffer[..] == data
      requires sent < count && waits <= |schedule|
      requires sent > 0 ==> !OutOfRange(buffer.Length, offset, count)
      requires before + Span(data, offset, sent) == taken + sharedRegion.Contents()
      requires waits == 0 ==> taken == []
      requires waits > 0 ==> WaitBudget(timeout, schedule[waits - 1].stopwatchMs).Some?
      requires waits == 0 ==> sharedRegion.AvailableSpace() + sent == space
      requires waits > 0 ==> space < count
      modifies sharedRegion.sharedState`currentWriterIndex, sharedRegion.sharedState`currentReaderIndex
      modifies sharedRegion.sharedBuffer, sharedRegion.sharedState.writerSemaphore, sharedRegion.sharedState.readerSemaphore
      ensures sharedRegion.Valid()
      ensures nextSent <= count && nextWaits <= |schedule|
      ensures nextWaits == 0 ==> sharedRegion.AvailableSpace() + nextSent == space
      ensures nextWaits > 0 ==> space < count
      ensures nextSent > 0 ==> !OutOfRange(buffer.Length, offset, count)
      ensures before + Span(data, offset, nextSent) == nextTaken + sharedRegion.Contents()
      ensures nextWaits == 0 ==> nextTaken == []
      ensures nextWaits > 0 ==> WaitBudget(timeout, schedule[nextWaits - 1].stopwatchMs).Some?
      ensures stop.None? ==> nextWaits > waits || (nextWaits == waits && nextSent > sent)
      ensures stop.Some? ==> nextSent < count
      ensures stop.Some? ==> stop.value in {Stalled, Raised(Timeout), Raised(ArgumentOutOfRange)}
      ensures stop == Some(Raised(ArgumentOutOfRange)) ==> OutOfRange(buffer.Length, offset, count) && nextSent == 0
      ensures stop == Some(Raised(Timeout)) ==> (timeout != INFINITE_TIMEOUT && nextWaits < |schedule|
                && schedule[nextWaits].stopwatchMs > timeout && sharedRegion.AvailableSpace() == 0)
      ensures stop == Some(Stalled) ==> nextWaits == |schedule| && sharedRegion.AvailableSpace() == 0
    {
      nextSent := sent;
      stop, nextWaits, nextTaken := AwaitSpace(cancelAtMs, schedule, waits, before, Span(data, offset, sent), taken);
      if stop.Some? {
        return;
      }
      var written := WriteRest(buffer, offset, count, sent, data, before, nextTaken);
      if written.Failure? {
        return Some(Raised(written.error)), sent, nextWaits, nextTaken;
      }
      nextSent := sent + written.value;
    }

    /**
     * The first half of a turn of `ActualWrite`'s loop: nothing while the ring
     * has space; otherwise, past the timeout or at the end of the schedule the
     * call stops, and else the writer waits for the reader once.
     */
    method AwaitSpace(cancelAtMs: Option<nat>, schedule: seq<WriterWait>, waits: nat,
                      ghost before: seq<Byte>, ghost done: seq<Byte>, ghost taken: seq<Byte>)
      returns (stop: Option<Outcome>, nextWaits: nat, ghost nextTaken: seq<Byte>)
      requires sharedRegion.Valid() && waits <= |schedule|
      requires before + done == taken + sharedRegion.Contents()
      requires waits == 0 ==> taken == []
      requires waits > 0 ==> WaitBudget(timeout, schedule[waits - 1].stopwatchMs).Some?
      modifies sharedRegion.sharedState`currentReaderIndex, sharedRegion.sharedState.readerSemaphore
      ensures sharedRegion.Valid() && nextWaits <= |schedule|
      ensures before + done == nextTaken + sharedRegion.Contents()
      ensures nextWaits == 0 ==> nextTaken == []
      ensures nextWaits > 0 ==> WaitBudget(timeout, schedule[nextWaits - 1].stopwatchMs).Some?
      ensures nextWaits == waits || nextWaits == waits + 1
      ensures nextWaits == waits ==> sharedRegion.AvailableSpace() == old(sharedRegion.AvailableSpace())
      ensures nextWaits > waits ==> old(sharedRegion.AvailableSpace()) == 0
      ensures stop.None? && nextWaits == waits ==> sharedRegion.AvailableSpace() != 0
      ensures stop.Some? ==> nextWaits == waits && sharedRegion.AvailableSpace() == 0
      ensures stop.Some? ==> stop.value in {Stalled, Raised(Timeout)}
      ensures stop == Some(Stalled) ==> waits == |schedule|
      ensures stop == Some(Raised(Timeout)) ==> (timeout != INFINITE_TIMEOUT && waits < |schedule|
                && schedule[waits].stopwatchMs > timeout)
    {
      stop, nextWaits, nextTaken := None, waits, taken;
      if sharedRegion.AvailableSpace() == 0 {
        if waits == |schedule| {
          return Some(Stalled), waits, taken;
        }
        var step := schedule[waits];
        var budget := WaitBudget(timeout, step.stopwatchMs);
        if budget.None? {
          return Some(Raised(Timeout)), waits, taken;
        }
        ghost var more := WaitForReader(budget.value, step, cancelAtMs, before, done, taken);
        nextTaken := taken + more;
        nextWaits := waits + 1;
      }
    }

    /**
     * One wait of `ActualWrite`: the reader takes what the step says, then the
     * writer waits on its signal. Every byte written so far is still either
     * taken by the reader or queued, in order.
     */
    method WaitForReader(budget: nat, step: WriterWait, cancelAtMs: Option<nat>,
                         ghost before: seq<Byte>, ghost done: seq<Byte>, ghost taken: seq<Byte>)
      returns (ghost more: seq<Byte>)
      requires sharedRegion.Valid() && before + done == taken + sharedRegion.Contents()
      modifies sharedRegion.sharedState`currentReaderIndex, sharedRegion.sharedState.readerSemaphore
      ensures sharedRegion.Valid()
      ensures more + sharedRegion.Contents() == old(sharedRegion.Contents())
      ensures before + done == (taken + more) + sharedRegion.Contents()
    {
      ghost var queue := sharedRegion.Contents();
      more := PeerTakes(sharedRegion, step.peer);
      var signaled := sharedRegion.WaitReader(budget, OracleAt(step, cancelAtMs));
      FifoAfterPeer(before, done, taken, more, queue, sharedRegion.Contents());
    }

    /** One call of the region's `Write` from `ActualWrite`'s loop, with the rest of the caller's range. */
    method WriteRest(buffer: array<Byte>, offset: U64, count: U64, sent: U64,
                     ghost data: seq<Byte>, ghost before: seq<Byte>, ghost taken: seq<Byte>)
      returns (written: Result<U64>)
      requires sharedRegion.Valid() && buffer != sharedRegion.sharedBuffer && buffer.Length < TWO_TO_THE_64
      requires buffer[..] == data
      requires sent < count && (sent > 0 ==> !OutOfRange(buffer.Length, offset, count))
      requires before + Span(data, offset, sent) == taken + sharedRegion.Contents()
      modifies sharedRegion.sharedState`currentWriterIndex, sharedRegion.sharedBuffer, sharedRegion.sharedState.writerSemaphore
      ensures sharedRegion.Valid()
      ensures written.Failure? ==> written.error == ArgumentOutOfRange && sent == 0 && OutOfRange(buffer.Length, offset, count)
      ensures written.Failure? ==> sharedRegion.Contents() == old(sharedRegion.Contents())
      ensures written.Failure? ==> sharedRegion.AvailableSpace() == old(sharedRegion.AvailableSpace())
      ensures written.Success? ==> sharedRegion.AvailableSpace() == old(sharedRegion.AvailableSpace()) - written.value
      ensures written.Success? ==> !OutOfRange(buffer.Length, offset, count)
      ensures written.Success? ==> sent + written.value <= count && offset + sent + written.value <= buffer.Length
      ensures written.Success? ==> (written.value == 0 <==> old(sharedRegion.AvailableSpace()) == 0)
      ensures written.Success? ==> before + Span(data, offset, sent + written.value) == taken + sharedRegion.Contents()
    {
      ghost var queue := sharedRegion.Contents();
      written := sharedRegion.Write(buffer, offset + sent, count - sent);
      if written.Success? {
        FifoAfterWrite(before, data, offset, sent, written.value, taken, queue, sharedRegion.Contents());
      }
    }

    /** `Write(buffer, offset, count)`: the `int` arguments cast to `ulong`, and no cancellation. */
    method Write(buffer: array<Byte>, offset: Int32, count: Int32, schedule: seq<WriterWait>)
      returns (outcome: Outcome, ghost taken: seq<Byte>, ghost waits: nat)
      requires sharedRegion.Valid() && buffer != sharedRegion.sharedBuffer && buffer.Length < TWO_TO_THE_31
      modifies sharedRegion.sharedState`currentWriterIndex, sharedRegion.sharedState`currentReaderIndex
      modifies sharedRegion.sharedBuffer, sharedRegion.sharedState.writerSemaphore, sharedRegion.sharedState.readerSemaphore
      ensures sharedRegion.Valid()
      ensures outcome == Completed && count != 0 ==> (0 <= offset && 0 < count && offset + count <= buffer.Length
                && old(sharedRegion.Contents()) + buffer[offset..offset + count] == taken + sharedRegion.Contents())
      ensures outcome == Completed && count == 0 ==> taken == [] && sharedRegion.Contents() == old(sharedRegion.Contents())
      ensures outcome.Raised? ==> outcome.error == ArgumentOutOfRange || outcome.error == Timeout
      ensures timeout == INFINITE_TIMEOUT ==> outcome != Raised(Timeout)
      ensures 0 <= offset && 0 <= count && offset + count <= buffer.Length ==>
                outcome != Raised(ArgumentOutOfRange)
                && (count <= old(sharedRegion.AvailableSpace()) ==> outcome == Completed && waits == 0)
      ensures waits <= |schedule| && (waits == 0 ==> taken == [])
      ensures waits > 0 ==> WaitBudget(timeout, schedule[waits - 1].stopwatchMs).Some?
      ensures outcome == Raised(Timeout) ==> (waits < |schedule| && schedule[waits].stopwatchMs > timeout
                && sharedRegion.AvailableSpace() == 0)
      ensures outcome == Stalled ==> waits == |schedule| && sharedRegion.AvailableSpace() == 0
      ensures timeout != INFINITE_TIMEOUT && Monotone(schedule) && ClockPasses(schedule, timeout) ==> outcome != Stalled
    {
      var sent;
      outcome, sent, waits, taken := ActualWrite(buffer, ToU64(offset), ToU64(count), None, schedule);
      if timeout != INFINITE_TIMEOUT && Monotone(schedule) && ClockPasses(schedule, timeout) {
        PastTimeoutStaysPast(schedule, timeout);
      }
    }

    /** `WriteAsync`: the same loop, with the caller's cancellation token handed to every wait. */
    method WriteAsync(buffer: array<Byte>, offset: Int32, count: Int32, cancelAtMs: Option<nat>, schedule: seq<WriterWait>)
      returns (outcome: Outcome, ghost taken: seq<Byte>, ghost waits: nat)
      requires sharedRegion.Valid() && buffer != sharedRegion.sharedBuffer && buffer.Length < TWO_TO_THE_31
      modifies sharedRegion.sharedState`currentWriterIndex, sharedRegion.sharedState`currentReaderIndex
      modifies sharedRegion.sharedBuffer, sharedRegion.sharedState.writerSemaphore, sharedRegion.sharedState.readerSemaphore
      ensures sharedRegion.Valid()
      ensures outcome == Completed && count != 0 ==> (0 <= offset && 0 < count && offset + count <= buffer.Length
                && old(sharedRegion.Contents()) + buffer[offset..offset + count] == taken + sharedRegion.Contents())
      ensures outcome == Completed && count == 0 ==> taken == [] && sharedRegion.Contents() == old(sharedRegion.Contents())
      ensures outcome.Raised? ==> outcome.error == ArgumentOutOfRange || outcome.error == Timeout
      ensures timeout == INFINITE_TIMEOUT ==> outcome != Raised(Timeout)
      ensures 0 <= offset && 0 <= count && offset + count <= buffer.Length ==>
                outcome != Raised(ArgumentOutOfRange)
                && (count <= old(sharedRegion.AvailableSpace()) ==> outcome == Completed && waits == 0)
      ensures waits <= |schedule| && (waits == 0 ==> taken == [])
      ensures waits > 0 ==> WaitBudget(timeout, schedule[waits - 1].stopwatchMs).Some?
      ensures outcome == Raised(Timeout) ==> (waits < |schedule| && schedule[waits].stopwatchMs > timeout
                && sharedRegion.AvailableSpace() == 0)
      ensures outcome == Stalled ==> waits == |schedule| && sharedRegion.AvailableSpace() == 0
      ensures timeout != INFINITE_TIMEOUT && Monotone(schedule) && ClockPasses(schedule, timeout) ==> outcome != Stalled
    {
      var sent;
      outcome, sent, waits, taken := ActualWrite(buffer, ToU64(offset), ToU64(count), cancelAtMs, schedule);
      if timeout != INFINITE_TIMEOUT && Monotone(schedule) && ClockPasses(schedule, timeout) {
        PastTimeoutStaysPast(schedule, timeout);
      }
    }
  }

  /** The reader taking `more` off the front keeps the writer's account: what went in is what came out plus what is left. */
  lemma FifoAfterPeer(before: seq<Byte>, sent: seq<Byte>, taken: seq<Byte>, more: seq<Byte>, queue: seq<Byte>, rest: seq<Byte>)
    requires before + sent == taken + queue && more + rest == queue
    ensures before + sent == (taken + more) + rest
  {
  }

  /**
   * The region appending the next `n` bytes of the caller's range to the
   * queue extends both sides of the account by them.
   */
  lemma FifoAfterWrite(before: seq<Byte>, data: seq<Byte>, offset: nat, sent: nat, n: nat,
                       taken: seq<Byte>, queue: seq<Byte>, rest: seq<Byte>)
    requires offset + sent + n <= |data|
    requires before + Span(data, offset, sent) == taken + queue
    requires rest == queue + data[offset + sent..offset + sent + n]
    ensures before + Span(data, offset, sent + n) == taken + rest
  {
    var done, piece := Span(data, offset, sent), data[offset + sent..offset + sent + n];
    SpanGrows(data, offset, sent, n);
    AppendAssoc(before, done, piece);
    AppendAssoc(taken, queue, piece);
  }
}
