/**
 * `InterProcessStreamReader`: the reading end of the stream, a `Stream` whose
 * only supported operation is `Read`. `ActualRead` keeps calling the region's
 * `Read` until the caller's `count` bytes have arrived, waiting for the writer
 * whenever the ring is empty.
 *
 * The writer process is the environment: at each wait, the schedule says
 * which bytes it offers meanwhile (through the region's own `Write`, which
 * signals the semaphore the reader waits on). Together with the stopwatch
 * readings, that decides how the call ends.
 */
module StreamReader {
  import opened Native
  import opened RingState
  import opened Semaphore
  import opened Region
  import opened StreamWait

  /** The bytes a writer process offers in one call of `Write`; a `ulong` counts them. */
  type Offer = s: seq<Byte> | |s| < TWO_TO_THE_64

  /** At a wait of the reader: the bytes the writer process offers meanwhile. */
  type ReaderWait = WaitStep<Offer>

  /** The writer process writes `bytes` from a buffer of its own; the ring takes what fits. */
  method PeerGives(region: SharedRegion, bytes: Offer) returns (ghost given: seq<Byte>)
    requires region.Valid()
    modifies region.sharedState`currentWriterIndex, region.sharedBuffer, region.sharedState.writerSemaphore
    ensures region.Valid()
    ensures region.Contents() == old(region.Contents()) + given
    ensures given == bytes[..Min(|bytes|, old(region.AvailableSpace()))]
  {
    var source := new Byte[|bytes|](i requires 0 <= i < |bytes| => bytes[i]);
    assert source[..] == bytes;
    var r := region.Write(source, 0, |bytes|);
    given := bytes[..r.value];
  }

  /**
   * The caller's buffer `a` with `got` copied in at `offset`; nothing copied
   * leaves it as it was, wherever `offset` points.
   */
  function Placed(a: seq<Byte>, offset: nat, got: seq<Byte>): (r: seq<Byte>)
    requires |got| == 0 || offset + |got| <= |a|
    ensures |r| == |a|
    ensures forall i :: 0 <= i < |a| && !(offset <= i < offset + |got|) ==> r[i] == a[i]
  {
    if |got| == 0 then a else Splice(a, offset, got)
  }

  /** Copying `piece` right after what is already in place is placing both. */
  lemma PlacedGrows(original: seq<Byte>, offset: nat, got: seq<Byte>, piece: seq<Byte>,
                    buffer: seq<Byte>, next: seq<Byte>)
    requires offset + |got| + |piece| <= |original|
    requires buffer == Placed(original, offset, got)
    requires next == Splice(buffer, offset + |got|, piece)
    ensures next == Placed(original, offset, got + piece)
  {
    if |got| == 0 {
      assert got + piece == piece;
      if |piece| == 0 {
        assert next == original;
      }
    } else {
      SpliceTwice(original, offset, offset + |got|, got, piece);
    }
  }

  /** What was placed can be read back at its place. */
  lemma PlacedReadsBack(original: seq<Byte>, offset: nat, got: seq<Byte>)
    requires 0 < |got| && offset + |got| <= |original|
    ensures Placed(original, offset, got)[offset..offset + |got|] == got
  {
  }

  /** The writer appending `more` keeps the reader's account: what came in is what was read plus what is left. */
  lemma FifoAfterPeer(before: seq<Byte>, given: seq<Byte>, got: seq<Byte>, queue: seq<Byte>, more: seq<Byte>, rest: seq<Byte>)
    requires before + given == got + queue && rest == queue + more
    ensures before + (given + more) == got + rest
  {
    AppendAssoc(before, given, more);
    AppendAssoc(got, queue, more);
  }

  /** The region handing over the first `n` queued bytes moves them from the queue to what was read. */
  lemma FifoAfterRead(before: seq<Byte>, given: seq<Byte>, got: seq<Byte>, queue: seq<Byte>, n: nat, rest: seq<Byte>)
    requires n <= |queue| && rest == queue[n..]
    requires before + given == got + queue
    ensures before + given == (got + queue[..n]) + rest
  {
    assert queue == queue[..n] + rest;
    AppendAssoc(got, queue[..n], rest);
  }

  class InterProcessStreamReader {
    const sharedRegion: SharedRegion
    const capacity: int
    var timeout: Int32

    const CanRead: bool := true
    const CanSeek: bool := false
    const CanWrite: bool := false
    const CanTimeout: bool := true
    /** The `Position` getter always reads 0. */
    const Position: int := 0

    /** Wraps a region; unlike the writer, the reader announces nothing in the header. */
    constructor (sharedRegion: SharedRegion, capacity: int)
      ensures this.sharedRegion == sharedRegion && this.capacity == capacity
      ensures timeout == INFINITE_TIMEOUT
    {
      this.sharedRegion := sharedRegion;
      this.capacity := capacity;
      timeout := INFINITE_TIMEOUT;
    }

    /** Creates the shared segment for `capacity` bytes and a reader over it; `Length` is `capacity`. */
    static method CreateAsHost(capacity: nat) returns (reader: InterProcessStreamReader)
      requires capacity + 1 + SharedStateSize <= INT64_MAX
      ensures fresh(reader) && fresh(reader.sharedRegion) && reader.sharedRegion.Valid()
      ensures fresh(reader.sharedRegion.sharedFile) && fresh(reader.sharedRegion.sharedState) && fresh(reader.sharedRegion.sharedBuffer)
      ensures fresh(reader.sharedRegion.sharedState.readerSemaphore) && fresh(reader.sharedRegion.sharedState.writerSemaphore)
      ensures reader.Length() == capacity && reader.timeout == INFINITE_TIMEOUT
      ensures reader.sharedRegion.AvailableSpace() == capacity && reader.sharedRegion.Contents() == []
      ensures reader.sharedRegion.BufferSize() == capacity + 1
      ensures reader.sharedRegion.sharedState.streamState == 0
    {
      var region := SharedRegion.CreateHost(capacity);
      reader := new InterProcessStreamReader(region, capacity);
    }

    /**
     * Opens an existing segment and a reader over it; `Length` is the ring's
     * `BufferSize`, one more than the capacity the host asked for.
     */
    static method CreateAsClient(sharedFile: MemoryMappedFile) returns (reader: InterProcessStreamReader)
      requires sharedFile.Formatted()
      modifies sharedFile.header.readerSemaphore, sharedFile.header.writerSemaphore
      ensures fresh(reader) && fresh(reader.sharedRegion) && reader.sharedRegion.Valid()
      ensures reader.sharedRegion.sharedFile == sharedFile
      ensures reader.Length() == ToInt64(sharedFile.header.bufferSize)
      ensures reader.timeout == INFINITE_TIMEOUT
    {
      var region := SharedRegion.CreateClient(sharedFile);
      reader := new InterProcessStreamReader(region, ToInt64(region.BufferSize()));
    }

    /** `Length` is the value recorded at creation, not anything about the ring's contents. */
    function Length(): int {
      capacity
    }

    function ReadTimeout(): Int32
      reads this
    {
      timeout
    }

    method SetReadTimeout(value: Int32)
      modifies this`timeout
      ensures timeout == value && ReadTimeout() == value
    {
      timeout := value;
    }

    /** The `Position` setter always throws. */
    method SetPosition(value: int) returns (r: Result<()>)
      ensures r == Failure(InvalidOperation)
    {
      r := Failure(InvalidOperation);
    }

    method Seek(offset: int, origin: SeekOrigin) returns (r: Result<int>)
      ensures r == Failure(NotImplemented)
    {
      r := Failure(NotImplemented);
    }

    method SetLength(value: int) returns (r: Result<()>)
      ensures r == Failure(NotImplemented)
    {
      r := Failure(NotImplemented);
    }

    method Write(buffer: array<Byte>, offset: Int32, count: Int32) returns (r: Result<()>)
      ensures r == Failure(InvalidOperation)
    {
      r := Failure(InvalidOperation);
    }

    /**
     * `ActualRead(buffer, offset, count, cancellationToken)`. It ends normally
     * exactly when all `count` bytes arrived; it throws `TimeoutException`
     * only with a finite timeout, an empty ring and the stopwatch past the
     * timeout; and the wait's result and the cancellation token never end it.
     * Whatever the outcome, the bytes it received (`got`) are the front of
     * what was queued followed by what the writer gave meanwhile, they sit in
     * `buffer` from `offset` on, and the rest of `buffer` is untouched.
     */
    method ActualRead(buffer: array<Byte>, offset: U64, count: U64, cancelAtMs: Option<nat>, schedule: seq<ReaderWait>)
      returns (outcome: Outcome, received: U64, waits: nat, ghost given: seq<Byte>, ghost got: seq<Byte>)
      requires sharedRegion.Valid() && buffer != sharedRegion.sharedBuffer && buffer.Length < TWO_TO_THE_64
      modifies sharedRegion.sharedState`currentWriterIndex, sharedRegion.sharedState`currentReaderIndex
      modifies sharedRegion.sharedBuffer, sharedRegion.sharedState.writerSemaphore, sharedRegion.sharedState.readerSemaphore
      modifies buffer
      ensures sharedRegion.Valid()
      ensures received <= count && waits <= |schedule|
      ensures outcome == Completed <==> received == count
      ensures outcome.Raised? ==> outcome.error == ArgumentOutOfRange || outcome.error == Timeout
      ensures outcome == Raised(ArgumentOutOfRange) ==> OutOfRange(buffer.Length, offset, count) && received == 0
      ensures !OutOfRange(buffer.Length, offset, count) ==> outcome != Raised(ArgumentOutOfRange)
      ensures outcome == Raised(Timeout) ==> (timeout != INFINITE_TIMEOUT && waits < |schedule|
                && schedule[waits].stopwatchMs > timeout && sharedRegion.AvailableData() == 0)
      ensures timeout == INFINITE_TIMEOUT ==> outcome != Raised(Timeout)
      ensures outcome == Stalled ==> waits == |schedule| && sharedRegion.AvailableData() == 0
      ensures received == 0 || offset + received <= buffer.Length
      ensures |got| == received
      ensures old(sharedRegion.Contents()) + given == got + sharedRegion.Contents()
      ensures buffer[..] == Placed(old(buffer[..]), offset, got)
      ensures count == 0 ==> outcome == Completed && waits == 0 && given == [] && sharedRegion.Contents() == old(sharedRegion.Contents())
      ensures waits == 0 ==> given == []
      ensures waits > 0 ==> WaitBudget(timeout, schedule[waits - 1].stopwatchMs).Some?
      ensures !OutOfRange(buffer.Length, offset, count) ==>
                (count <= old(sharedRegion.AvailableData()) ==> outcome == Completed && waits == 0)
    {
      ghost var before, original, queued := sharedRegion.Contents(), buffer[..], sharedRegion.AvailableData();
      received, waits, given, got := 0, 0, [], [];
      while received < count
        invariant sharedRegion.Valid()
        invariant received <= count && waits <= |schedule|
        invariant received > 0 ==> !OutOfRange(buffer.Length, offset, count)
        invariant |got| == received
        invariant before + given == got + sharedRegion.Contents()
        invariant buffer[..] == Placed(original, offset, got)
        invariant count == 0 ==> waits == 0 && given == [] && sharedRegion.Contents() == before
        invariant waits == 0 ==> given == []
        invariant waits > 0 ==> WaitBudget(timeout, schedule[waits - 1].stopwatchMs).Some?
        invariant waits == 0 ==> sharedRegion.AvailableData() + received == queued
        invariant waits > 0 ==> queued < count
        decreases |schedule| - waits, count - received
      {
        var stop;
        stop, received, waits, given, got := ReadTurn(buffer, offset, count, cancelAtMs, schedule, received, waits,
                                                      original, before, given, got, queued);
        if stop.Some? {
          return stop.value, received, waits, given, got;
        }
      }
      outcome := Completed;
    }

    /**
     * One turn of `ActualRead`'s loop: with the ring empty, check the
     * stopwatch and wait for the writer once; then ask the region for the
     * rest of the range. `stop` is the outcome when the turn ends the call. A
     * turn that does not stop makes progress: one more wait, or more bytes
     * received.
     */
    method ReadTurn(buffer: array<Byte>, offset: U64, count: U64, cancelAtMs: Option<nat>, schedule: seq<ReaderWait>,
                    received: U64, waits: nat, ghost original: seq<Byte>,
                    ghost before: seq<Byte>, ghost given: seq<Byte>, ghost got: seq<Byte>, ghost queued: nat)
      returns (stop: Option<Outcome>, nextReceived: U64, nextWaits: nat, ghost nextGiven: seq<Byte>, ghost nextGot: seq<Byte>)
      requires sharedRegion.Valid() && buffer != sharedRegion.sharedBuffer && buffer.Length < TWO_TO_THE_64
      requires |original| == buffer.Length
      requires received < count && waits <= |schedule|
      requires received > 0 ==> !OutOfRange(buffer.Length, offset, count)
      requires |got| == received && before + given == got + sharedRegion.Contents()
      requires buffer[..] == Placed(original, offset, got)
      requires waits == 0 ==> given == []
      requires waits > 0 ==> WaitBudget(timeout, schedule[waits - 1].stopwatchMs).Some?
      requires waits == 0 ==> sharedRegion.AvailableData() + received == queued
      requires waits > 0 ==> queued < count
      modifies sharedRegion.sharedState`currentWriterIndex, sharedRegion.sharedState`currentReaderIndex
      modifies sharedRegion.sharedBuffer, sharedRegion.sharedState.writerSemaphore, sharedRegion.sharedState.readerSemaphore
      modifies buffer
      ensures sharedRegion.Valid()
      ensures nextReceived <= count && nextWaits <= |schedule|
      ensures nextWaits == 0 ==> sharedRegion.AvailableData() + nextReceived == queued
      ensures nextWaits > 0 ==> queued < count
      ensures nextReceived > 0 ==> !OutOfRange(buffer.Length, offset, count)
      ensures |nextGot| == nextReceived && before + nextGiven == nextGot + sharedRegion.Contents()
      ensures buffer[..] == Placed(original, offset, nextGot)
      ensures nextWaits == 0 ==> nextGiven == []
      ensures nextWaits > 0 ==> WaitBudget(timeout, schedule[nextWaits - 1].stopwatchMs).Some?
      ensures stop.None? ==> nextWaits > waits || (nextWaits == waits && nextReceived > received)
      ensures stop.Some? ==> nextReceived < count
      ensures stop.Some? ==> stop.value in {Stalled, Raised(Timeout), Raised(ArgumentOutOfRange)}
      ensures stop == Some(Raised(ArgumentOutOfRange)) ==> OutOfRange(buffer.Length, offset, count) && nextReceived == 0
      ensures stop == Some(Raised(Timeout)) ==> (timeout != INFINITE_TIMEOUT && nextWaits < |schedule|
                && schedule[nextWaits].stopwatchMs > timeout && sharedRegion.AvailableData() == 0)
      ensures stop == Some(Stalled) ==> nextWaits == |schedule| && sharedRegion.AvailableData() == 0
    {
      nextReceived, nextGot := received, got;
      stop, nextWaits, nextGiven := AwaitData(cancelAtMs, schedule, waits, before, given, got);
      if stop.Some? {
        return;
      }
      var read;
      read, nextGot := ReadRest(buffer, offset, count, received, original, before, nextGiven, got);
      if read.Failure? {
        return Some(Raised(read.error)), received, nextWaits, nextGiven, nextGot;
      }
      nextReceived := received + read.value;
    }

    /**
     * The first half of a turn of `ActualRead`'s loop: nothing while the ring
     * holds data; otherwise, past the timeout or at the end of the schedule
     * the call stops, and else the reader waits for the writer once.
     */
    method AwaitData(cancelAtMs: Option<nat>, schedule: seq<ReaderWait>, waits: nat,
                     ghost before: seq<Byte>, ghost given: seq<Byte>, ghost got: seq<Byte>)
      returns (stop: Option<Outcome>, nextWaits: nat, ghost nextGiven: seq<Byte>)
      requires sharedRegion.Valid() && waits <= |schedule|
      requires before + given == got + sharedRegion.Contents()
      requires waits == 0 ==> given == []
      requires waits > 0 ==> WaitBudget(timeout, schedule[waits - 1].stopwatchMs).Some?
      modifies sharedRegion.sharedState`currentWriterIndex, sharedRegion.sharedBuffer, sharedRegion.sharedState.writerSemaphore
      ensures sharedRegion.Valid() && nextWaits <= |schedule|
      ensures before + nextGiven == got + sharedRegion.Contents()
      ensures nextWaits == 0 ==> nextGiven == []
      ensures nextWaits > 0 ==> WaitBudget(timeout, schedule[nextWaits - 1].stopwatchMs).Some?
      ensures nextWaits == waits || nextWaits == waits + 1
      ensures nextWaits == waits ==> sharedRegion.AvailableData() == old(sharedRegion.AvailableData())
      ensures nextWaits > waits ==> old(sharedRegion.AvailableData()) == 0
      ensures stop.None? && nextWaits == waits ==> sharedRegion.AvailableData() != 0
      ensures stop.Some? ==> nextWaits == waits && sharedRegion.AvailableData() == 0
      ensures stop.Some? ==> stop.value in {Stalled, Raised(Timeout)}
      ensures stop == Some(Stalled) ==> waits == |schedule|
      ensures stop == Some(Raised(Timeout)) ==> (timeout != INFINITE_TIMEOUT && waits < |schedule|
                && schedule[waits].stopwatchMs > timeout)
    {
      stop, nextWaits, nextGiven := None, waits, given;
      if sharedRegion.AvailableData() == 0 {
        if waits == |schedule| {
          return Some(Stalled), waits, given;
        }
        var step := schedule[waits];
        var budget := WaitBudget(timeout, step.stopwatchMs);
        if budget.None? {
          return Some(Raised(Timeout)), waits, given;
        }
        ghost var more := WaitForWriter(budget.value, step, cancelAtMs, before, given, got);
        nextGiven := given + more;
        nextWaits := waits + 1;
      }
    }

    /**
     * One wait of `ActualRead`: the writer offers what the step says, then the
     * reader waits on its signal. Every byte that came in is still either
     * read or queued, in order.
     */
    method WaitForWriter(budget: nat, step: ReaderWait, cancelAtMs: Option<nat>,
                         ghost before: seq<Byte>, ghost given: seq<Byte>, ghost got: seq<Byte>)
      returns (ghost more: seq<Byte>)
      requires sharedRegion.Valid() && before + given == got + sharedRegion.Contents()
      modifies sharedRegion.sharedState`currentWriterIndex, sharedRegion.sharedBuffer, sharedRegion.sharedState.writerSemaphore
      ensures sharedRegion.Valid()
      ensures sharedRegion.Contents() == old(sharedRegion.Contents()) + more
      ensures before + (given + more) == got + sharedRegion.Contents()
    {
      ghost var queue := sharedRegion.Contents();
      more := PeerGives(sharedRegion, step.peer);
      var signaled := sharedRegion.WaitWriter(budget, OracleAt(step, cancelAtMs));
      FifoAfterPeer(before, given, got, queue, more, sharedRegion.Contents());
    }

    /** One call of the region's `Read` from `ActualRead`'s loop, for the rest of the caller's range. */
    method ReadRest(buffer: array<Byte>, offset: U64, count: U64, received: U64, ghost original: seq<Byte>,
                    ghost before: seq<Byte>, ghost given: seq<Byte>, ghost got: seq<Byte>)
      returns (read: Result<U64>, ghost gotNow: seq<Byte>)
      requires sharedRegion.Valid() && buffer != sharedRegion.sharedBuffer && buffer.Length < TWO_TO_THE_64
      requires received < count && (received > 0 ==> !OutOfRange(buffer.Length, offset, count))
      requires |got| == received && |original| == buffer.Length
      requires before + given == got + sharedRegion.Contents()
      requires buffer[..] == Placed(original, offset, got)
      modifies sharedRegion.sharedState`currentReaderIndex, buffer, sharedRegion.sharedState.readerSemaphore
      ensures sharedRegion.Valid()
      ensures read.Failure? ==> read.error == ArgumentOutOfRange && received == 0 && OutOfRange(buffer.Length, offset, count)
      ensures read.Failure? ==> gotNow == got && sharedRegion.Contents() == old(sharedRegion.Contents())
      ensures read.Failure? ==> buffer[..] == old(buffer[..])
      ensures read.Failure? ==> sharedRegion.AvailableData() == old(sharedRegion.AvailableData())
      ensures read.Success? ==> sharedRegion.AvailableData() == old(sharedRegion.AvailableData()) - read.value
      ensures read.Success? ==> !OutOfRange(buffer.Length, offset, count)
      ensures read.Success? ==> received + read.value <= count && |gotNow| == received + read.value
      ensures read.Success? ==> (read.value == 0 <==> old(sharedRegion.AvailableData()) == 0)
      ensures read.Success? ==> before + given == gotNow + sharedRegion.Contents()
      ensures read.Success? ==> buffer[..] == Placed(original, offset, gotNow)
    {
      ghost var queue, current := sharedRegion.Contents(), buffer[..];
      read := sharedRegion.Read(buffer, offset + received, count - received);
      if read.Success? {
        gotNow := got + queue[..read.value];
        FifoAfterRead(before, given, got, queue, read.value, sharedRegion.Contents());
        PlacedGrows(original, offset, got, queue[..read.value], current, buffer[..]);
      } else {
        gotNow := got;
      }
    }

    /** `Read(buffer, offset, count)`: the `int` arguments cast to `ulong`, no cancellation, the total cast back to `int`. */
    method Read(buffer: array<Byte>, offset: Int32, count: Int32, schedule: seq<ReaderWait>)
      returns (outcome: Outcome, n: Int32, ghost given: seq<Byte>, ghost waits: nat)
      requires sharedRegion.Valid() && buffer != sharedRegion.sharedBuffer && buffer.Length < TWO_TO_THE_31
      modifies sharedRegion.sharedState`currentWriterIndex, sharedRegion.sharedState`currentReaderIndex
      modifies sharedRegion.sharedBuffer, sharedRegion.sharedState.writerSemaphore, sharedRegion.sharedState.readerSemaphore
      modifies buffer
      ensures sharedRegion.Valid()
      ensures outcome == Completed ==> n == count
      ensures outcome == Completed && count != 0 ==> (0 <= offset && 0 < count && offset + count <= buffer.Length
                && old(sharedRegion.Contents()) + given == buffer[offset..offset + count] + sharedRegion.Contents()
                && buffer[..] == Splice(old(buffer[..]), offset, buffer[offset..offset + count]))
      ensures outcome == Completed && count == 0 ==> (given == [] && buffer[..] == old(buffer[..])
                && sharedRegion.Contents() == old(sharedRegion.Contents()))
      ensures outcome.Raised? ==> outcome.error == ArgumentOutOfRange || outcome.error == Timeout
      ensures timeout == INFINITE_TIMEOUT ==> outcome != Raised(Timeout)
      ensures 0 <= offset && 0 <= count && offset + count <= buffer.Length ==>
                outcome != Raised(ArgumentOutOfRange)
                && (count <= old(sharedRegion.AvailableData()) ==> outcome == Completed && waits == 0)
      ensures waits <= |schedule| && (waits == 0 ==> given == [])
      ensures waits > 0 ==> WaitBudget(timeout, schedule[waits - 1].stopwatchMs).Some?
      ensures outcome == Raised(Timeout) ==> (waits < |schedule| && schedule[waits].stopwatchMs > timeout
                && sharedRegion.AvailableData() == 0)
      ensures outcome == Stalled ==> waits == |schedule| && sharedRegion.AvailableData() == 0
      ensures timeout != INFINITE_TIMEOUT && Monotone(schedule) && ClockPasses(schedule, timeout) ==> outcome != Stalled
    {
      var received;
      ghost var got;
      outcome, received, waits, given, got := ActualRead(buffer, ToU64(offset), ToU64(count), None, schedule);
      if timeout != INFINITE_TIMEOUT && Monotone(schedule) && ClockPasses(schedule, timeout) {
        PastTimeoutStaysPast(schedule, timeout);
      }
      n := ToInt32(received);
      if outcome == Completed && count != 0 {
        PlacedReadsBack(old(buffer[..]), offset as nat, got);
      }
    }

    /** `ReadAsync`: the same loop, with the caller's cancellation token handed to every wait. */
    method ReadAsync(buffer: array<Byte>, offset: Int32, count: Int32, cancelAtMs: Option<nat>, schedule: seq<ReaderWait>)
      returns (outcome: Outcome, n: Int32, ghost given: seq<Byte>, ghost waits: nat)
      requires sharedRegion.Valid() && buffer != sharedRegion.sharedBuffer && buffer.Length < TWO_TO_THE_31
      modifies sharedRegion.sharedState`currentWriterIndex, sharedRegion.sharedState`currentReaderIndex
      modifies sharedRegion.sharedBuffer, sharedRegion.sharedState.writerSemaphore, sharedRegion.sharedState.readerSemaphore
      modifies buffer
      ensures sharedRegion.Valid()
      ensures outcome == Completed ==> n == count
      ensures outcome == Completed && count != 0 ==> (0 <= offset && 0 < count && offset + count <= buffer.Length
                && old(sharedRegion.Contents()) + given == buffer[offset..offset + count] + sharedRegion.Contents()
                && buffer[..] == Splice(old(buffer[..]), offset, buffer[offset..offset + count]))
      ensures outcome == Completed && count == 0 ==> (given == [] && buffer[..] == old(buffer[..])
                && sharedRegion.Contents() == old(sharedRegion.Contents()))
      ensures outcome.Raised? ==> outcome.error == ArgumentOutOfRange || outcome.error == Timeout
      ensures timeout == INFINITE_TIMEOUT ==> outcome != Raised(Timeout)
      ensures 0 <= offset && 0 <= count && offset + count <= buffer.Length ==>
                outcome != Raised(ArgumentOutOfRange)
                && (count <= old(sharedRegion.AvailableData()) ==> outcome == Completed && waits == 0)
      ensures waits <= |schedule| && (waits == 0 ==> given == [])
      ensures waits > 0 ==> WaitBudget(timeout, schedule[waits - 1].stopwatchMs).Some?
      ensures outcome == Raised(Timeout) ==> (waits < |schedule| && schedule[waits].stopwatchMs > timeout
                && sharedRegion.AvailableData() == 0)
      ensures outcome == Stalled ==> waits == |schedule| && sharedRegion.AvailableData() == 0
      ensures timeout != INFINITE_TIMEOUT && Monotone(schedule) && ClockPasses(schedule, timeout) ==> outcome != Stalled
    {
      var received;
      ghost var got;
      outcome, received, waits, given, got := ActualRead(buffer, ToU64(offset), ToU64(count), cancelAtMs, schedule);
      if timeout != INFINITE_TIMEOUT && Monotone(schedule) && ClockPasses(schedule, timeout) {
        PastTimeoutStaysPast(schedule, timeout);
      }
      n := ToInt32(received);
      if outcome == Completed && count != 0 {
        PlacedReadsBack(old(buffer[..]), offset as nat, got);
      }
    }
  }
}
