/**
 * The repository's unit tests, replayed against the model as clients of its
 * contracts: each scenario builds a region (or a stream pair) of capacity 10,
 * drives it the way the test does, and states the values the test asserts.
 */
module Scenarios {
  import opened Native
  import opened RingState
  import opened Region
  import opened StreamWait
  import opened StreamWriter
  import opened StreamReader

  /** A fresh array holding `s`. */
  method ArrayOf(s: seq<Byte>) returns (a: array<Byte>)
    ensures fresh(a) && a[..] == s
  {
    a := new Byte[|s|](i requires 0 <= i < |s| => s[i]);
  }

  /** `Array.Fill`: every element of `a` becomes `value`. */
  method Fill(a: array<Byte>, value: Byte)
    modifies a
    ensures forall i :: 0 <= i < a.Length ==> a[i] == value
  {
    forall i | 0 <= i < a.Length {
      a[i] := value;
    }
  }

  /** The bytes `from`, `from + 1`, ..., `from + n - 1`. */
  function Run(from: nat, n: nat): (s: seq<Byte>)
    requires from + n <= 256
    ensures |s| == n && forall i :: 0 <= i < n ==> s[i] == from + i
  {
    seq(n, i requires 0 <= i < n => from + i)
  }

  /** A writer writing `count` bytes of `data` from `offset`, from an array of its own. */
  method Put(region: SharedRegion, data: seq<Byte>, offset: nat, count: nat) returns (n: U64)
    requires region.Valid() && offset + count <= |data| < TWO_TO_THE_64
    modifies region.sharedState`currentWriterIndex, region.sharedBuffer, region.sharedState.writerSemaphore
    ensures region.Valid()
    ensures n == Min(count, old(region.AvailableSpace()))
    ensures region.Contents() == old(region.Contents()) + data[offset..offset + n]
    ensures region.AvailableSpace() == old(region.AvailableSpace()) - n
    ensures region.AvailableData() == old(region.AvailableData()) + n
  {
    var source := ArrayOf(data);
    var r := region.Write(source, offset, count);
    n := r.value;
    SpacePlusDataIsCapacity(old(region.sharedState.bufferSize), old(region.sharedState.currentWriterIndex), old(region.sharedState.currentReaderIndex));
    SpacePlusDataIsCapacity(region.sharedState.bufferSize, region.sharedState.currentWriterIndex, region.sharedState.currentReaderIndex);
  }

  /** A reader reading up to `count` bytes into `buffer` at `offset`. */
  method TakeInto(region: SharedRegion, buffer: array<Byte>, offset: nat, count: nat) returns (n: U64)
    requires region.Valid() && buffer != region.sharedBuffer && offset + count <= buffer.Length < TWO_TO_THE_64
    modifies region.sharedState`currentReaderIndex, buffer, region.sharedState.readerSemaphore
    ensures region.Valid()
    ensures n == Min(count, old(region.AvailableData()))
    ensures buffer[..] == Splice(old(buffer[..]), offset, old(region.Contents())[..n])
    ensures region.Contents() == old(region.Contents())[n..]
    ensures region.AvailableSpace() == old(region.AvailableSpace()) + n
    ensures region.AvailableData() == old(region.AvailableData()) - n
  {
    var r := region.Read(buffer, offset, count);
    n := r.value;
    SpacePlusDataIsCapacity(old(region.sharedState.bufferSize), old(region.sharedState.currentWriterIndex), old(region.sharedState.currentReaderIndex));
    SpacePlusDataIsCapacity(region.sharedState.bufferSize, region.sharedState.currentWriterIndex, region.sharedState.currentReaderIndex);
  }

  /**
   * Bytes written into an empty region and read back with a buffer of their
   * size come back whole, and leave the region empty again.
   */
  method RoundTrip(region: SharedRegion, data: seq<Byte>) returns (received: seq<Byte>)
    requires region.Valid() && region.Contents() == [] && |data| <= region.AvailableSpace()
    modifies region.sharedState`currentWriterIndex, region.sharedState`currentReaderIndex, region.sharedBuffer
    modifies region.sharedState.writerSemaphore, region.sharedState.readerSemaphore
    ensures region.Valid() && region.Contents() == []
    ensures region.AvailableSpace() == old(region.AvailableSpace()) && region.AvailableData() == 0
    ensures received == data
  {
    var n := Put(region, data, 0, |data|);
    assert region.Contents() == data;
    var buffer := new Byte[|data|](_ => 0);
    ghost var blank := buffer[..];
    n := TakeInto(region, buffer, 0, |data|);
    SpliceAtStart(blank, data);
    received := buffer[..];
  }

  /** A reader reading up to `count` bytes into a fresh buffer gets the front of the queue. */
  method Drain(region: SharedRegion, count: nat) returns (got: seq<Byte>)
    requires region.Valid() && count < TWO_TO_THE_64
    modifies region.sharedState`currentReaderIndex, region.sharedState.readerSemaphore
    ensures region.Valid()
    ensures got == old(region.Contents())[..Min(count, old(region.AvailableData()))]
    ensures region.Contents() == old(region.Contents())[|got|..]
  {
    var buffer := new Byte[count](_ => 0);
    ghost var blank := buffer[..];
    var n := TakeInto(region, buffer, 0, count);
    SpliceAtStart(blank, old(region.Contents())[..n]);
    got := buffer[..n];
  }

  /** Copying `src` over the start of `ring` keeps the rest of it. */
  lemma SpliceAtStart(ring: seq<Byte>, src: seq<Byte>)
    requires |src| <= |ring|
    ensures Splice(ring, 0, src) == src + ring[|src|..]
  {
  }

  /** The queue after writing 1, 2, 3, 4 and then 7, 6, 5, 4 out of 9, 8, 7, 6, 5, 4, 3. */
  lemma AfterTwoWrites(first: seq<Byte>, both: seq<Byte>)
    requires first == [] + [1, 2, 3, 4][0..4] && both == first + [9, 8, 7, 6, 5, 4, 3][2..6]
    ensures both == [1, 2, 3, 4, 7, 6, 5, 4]
  {
  }

  /** Four bytes followed by the last six of ten zero bytes. */
  lemma ZeroTail(blank: seq<Byte>)
    requires |blank| == 10 && forall i :: 0 <= i < 10 ==> blank[i] == 0
    ensures [1, 2, 3, 4] + blank[4..] == [1, 2, 3, 4, 0, 0, 0, 0, 0, 0]
  {
  }

  /** Four bytes copied into the middle of eight zero bytes. */
  lemma SpliceIntoMiddle(zeros: seq<Byte>, src: seq<Byte>)
    requires zeros == [0, 0, 0, 0, 0, 0, 0, 0] && src == [1, 2, 3, 4]
    ensures Splice(zeros, 2, src) == [0, 0, 1, 2, 3, 4, 0, 0]
  {
    var r := Splice(zeros, 2, src);
    assert r[0] == 0 && r[1] == 0 && r[6] == 0 && r[7] == 0;
    assert r[2] == 1 && r[3] == 2 && r[4] == 3 && r[5] == 4;
  }

  /**
   * `TestWrite`: writing 1, 2, 3, 4 and then the four bytes from offset 2 of
   * 9, 8, 7, 6, 5, 4, 3 queues 1, 2, 3, 4, 7, 6, 5, 4 (read back here).
   */
  method WriteWithOffset() returns (first: U64, second: U64, readBack: seq<Byte>)
    ensures first == 4 && second == 4
    ensures readBack == [1, 2, 3, 4, 7, 6, 5, 4]
  {
    var region := SharedRegion.CreateHost(10);
    first := Put(region, [1, 2, 3, 4], 0, 4);
    ghost var queued := region.Contents();
    second := Put(region, [9, 8, 7, 6, 5, 4, 3], 2, 4);
    AfterTwoWrites(queued, region.Contents());
    readBack := Drain(region, 8);
  }

  /**
   * `TestRead`: four bytes written come back in order; read again at offset 2
   * of an 8-byte buffer, they land in the middle and the rest stays zero.
   */
  method ReadWithOffset() returns (plain: seq<Byte>, shifted: seq<Byte>)
    ensures plain == [1, 2, 3, 4]
    ensures shifted == [0, 0, 1, 2, 3, 4, 0, 0]
  {
    var region := SharedRegion.CreateHost(10);
    plain := RoundTrip(region, [1, 2, 3, 4]);
    var n := Put(region, [1, 2, 3, 4], 0, 4);
    assert region.Contents() == [1, 2, 3, 4];
    var wide := ArrayOf([0, 0, 0, 0, 0, 0, 0, 0]);
    n := TakeInto(region, wide, 2, 4);
    SpliceIntoMiddle([0, 0, 0, 0, 0, 0, 0, 0], [1, 2, 3, 4]);
    shifted := wide[..];
  }

  /**
   * `TestWriteEndOfBuffer`: after five bytes in and out, ten more bytes wrap
   * round the end of the 11-slot ring and still come back in order.
   */
  method WriteEndOfBuffer() returns (received: seq<Byte>)
    ensures received == Run(1, 10)
  {
    var region := SharedRegion.CreateHost(10);
    var zeros := RoundTrip(region, [0, 0, 0, 0, 0]);
    received := RoundTrip(region, Run(1, 10));
  }

  /**
   * `TestWriteWithoutAvailableSpace`: with 4 of 10 bytes taken, a write of 10
   * takes 6, and a full ring takes none.
   */
  method WriteWithoutAvailableSpace() returns (first: U64, second: U64, third: U64)
    ensures first == 4 && second == 6 && third == 0
  {
    var region := SharedRegion.CreateHost(10);
    first := Put(region, [0, 0, 0, 0], 0, 4);
    second := Put(region, Run(1, 10), 0, 10);
    third := Put(region, [0, 0, 0, 0], 0, 4);
  }

  /**
   * `TestReadWithoutAvailableData`: an empty ring gives nothing; with four
   * bytes queued a read of ten gives those four and leaves the rest zero.
   */
  method ReadWithoutAvailableData() returns (first: U64, second: U64, buffer: seq<Byte>)
    ensures first == 0 && second == 4
    ensures buffer == [1, 2, 3, 4, 0, 0, 0, 0, 0, 0]
  {
    var region := SharedRegion.CreateHost(10);
    var readBuffer := new Byte[10];
    first := TakeInto(region, readBuffer, 0, 10);
    var n := Put(region, [1, 2, 3, 4], 0, 4);
    assert region.Contents() == [1, 2, 3, 4];
    second, buffer := TakeIntoCleared(region, readBuffer);
  }

  /** The second half of `TestReadWithoutAvailableData`: the buffer zeroed, then a read of ten with four bytes queued. */
  method TakeIntoCleared(region: SharedRegion, readBuffer: array<Byte>) returns (n: U64, buffer: seq<Byte>)
    requires region.Valid() && readBuffer != region.sharedBuffer && readBuffer.Length == 10
    requires region.Contents() == [1, 2, 3, 4]
    modifies region.sharedState`currentReaderIndex, readBuffer, region.sharedState.readerSemaphore
    ensures n == 4 && buffer == [1, 2, 3, 4, 0, 0, 0, 0, 0, 0]
  {
    Fill(readBuffer, 0);
    ghost var blank := readBuffer[..];
    n := TakeInto(region, readBuffer, 0, 10);
    SpliceAtStart(blank, [1, 2, 3, 4]);
    ZeroTail(blank);
    buffer := readBuffer[..];
  }

  /**
   * `TestReadWriteIndexOverflow`, with the corrected reader cursor: fill,
   * drain, fill and drain again; the ring reads full and empty at each step
   * and the second batch comes back whole.
   */
  method ReadWriteIndexOverflow() returns (readCount: U64, received: seq<Byte>)
    ensures readCount == 10 && received == Run(50, 10)
  {
    var region := SharedRegion.CreateHost(10);
    var readBuffer := ArrayOf(Run(0, 10));
    var n := Put(region, Run(1, 10), 0, 10);
    assert region.AvailableSpace() == 0 && region.AvailableData() == 10;
    n := TakeInto(region, readBuffer, 0, 10);
    assert region.AvailableSpace() == 10 && region.AvailableData() == 0;
    n := Put(region, Run(50, 10), 0, 10);
    assert region.AvailableSpace() == 0 && region.AvailableData() == 10;
    ghost var before := readBuffer[..];
    readCount := TakeInto(region, readBuffer, 0, 10);
    assert region.AvailableSpace() == 10 && region.AvailableData() == 0;
    SpliceAtStart(before, Run(50, 10));
    received := readBuffer[..];
  }

  /**
   * A host writer over a fresh segment of `capacity` bytes and a client
   * reader opened on the same segment: two regions over one header and ring.
   */
  method OpenPair(capacity: nat) returns (writer: InterProcessStreamWriter, reader: InterProcessStreamReader)
    requires capacity + 1 + SharedStateSize <= INT64_MAX
    ensures fresh(writer) && fresh(writer.sharedRegion) && fresh(writer.sharedRegion.sharedState)
    ensures fresh(writer.sharedRegion.sharedBuffer)
    ensures fresh(writer.sharedRegion.sharedState.readerSemaphore) && fresh(writer.sharedRegion.sharedState.writerSemaphore)
    ensures fresh(reader) && fresh(reader.sharedRegion)
    ensures writer.sharedRegion.Valid() && writer.timeout == INFINITE_TIMEOUT && reader.timeout == INFINITE_TIMEOUT
    ensures writer.sharedRegion.Contents() == [] && writer.sharedRegion.AvailableSpace() == capacity
    ensures SameRing(writer.sharedRegion, reader.sharedRegion)
  {
    writer := InterProcessStreamWriter.CreateAsHost(capacity);
    reader := InterProcessStreamReader.CreateAsClient(writer.sharedRegion.sharedFile);
  }

  /** Two regions mapping the same segment: one header, one ring, the same two signal bytes. */
  ghost predicate SameRing(host: SharedRegion, client: SharedRegion)
    reads client.readerSemaphore, client.writerSemaphore
  {
    && client.sharedFile == host.sharedFile && client.viewLength == host.viewLength
    && client.sharedState == host.sharedState && client.sharedBuffer == host.sharedBuffer
    && client.readerSemaphore.signalAddress == host.sharedState.readerSemaphore
    && client.writerSemaphore.signalAddress == host.sharedState.writerSemaphore
  }

  /** Whatever one process does to a segment, a region of the other process over it sees the same queue. */
  lemma SameRingSameQueue(host: SharedRegion, client: SharedRegion)
    requires host.Valid() && SameRing(host, client)
    ensures client.Valid() && client.Contents() == host.Contents()
  {
  }

  /** A writer writing a whole array that fits the free space of an empty ring. */
  method WriteAll(writer: InterProcessStreamWriter, data: array<Byte>) returns (outcome: Outcome)
    requires writer.sharedRegion.Valid() && data != writer.sharedRegion.sharedBuffer
    requires data.Length < TWO_TO_THE_31 && data.Length <= writer.sharedRegion.AvailableSpace()
    requires writer.sharedRegion.Contents() == []
    modifies writer.sharedRegion.sharedState`currentWriterIndex, writer.sharedRegion.sharedState`currentReaderIndex
    modifies writer.sharedRegion.sharedBuffer
    modifies writer.sharedRegion.sharedState.writerSemaphore, writer.sharedRegion.sharedState.readerSemaphore
    ensures writer.sharedRegion.Valid()
    ensures outcome == Completed && writer.sharedRegion.Contents() == data[..]
  {
    ghost var taken, waits;
    SpacePlusDataIsCapacity(writer.sharedRegion.sharedState.bufferSize,
                            writer.sharedRegion.sharedState.currentWriterIndex,
                            writer.sharedRegion.sharedState.currentReaderIndex);
    outcome, taken, waits := writer.Write(data, 0, data.Length, []);
    if data.Length != 0 {
      ghost var queued := writer.sharedRegion.Contents();
      assert [] + data[0..data.Length] == taken + queued && taken == [];
      assert data[0..data.Length] == data[..] == [] + data[0..data.Length];
      assert queued == [] + queued;
    }
  }

  /** A reader reading `count` bytes, no more than the ring holds, into a fresh buffer. */
  method ReadAll(reader: InterProcessStreamReader, count: nat) returns (outcome: Outcome, n: Int32, received: seq<Byte>)
    requires reader.sharedRegion.Valid() && count < TWO_TO_THE_31 && count <= reader.sharedRegion.AvailableData()
    modifies reader.sharedRegion.sharedState`currentWriterIndex, reader.sharedRegion.sharedState`currentReaderIndex
    modifies reader.sharedRegion.sharedBuffer
    modifies reader.sharedRegion.sharedState.writerSemaphore, reader.sharedRegion.sharedState.readerSemaphore
    ensures reader.sharedRegion.Valid()
    ensures outcome == Completed && n == count
    ensures received == old(reader.sharedRegion.Contents())[..count]
  {
    ghost var queue := reader.sharedRegion.Contents();
    SpacePlusDataIsCapacity(reader.sharedRegion.sharedState.bufferSize,
                            reader.sharedRegion.sharedState.currentWriterIndex,
                            reader.sharedRegion.sharedState.currentReaderIndex);
    var buffer := new Byte[count];
    ghost var given, waits;
    outcome, n, given, waits := reader.Read(buffer, 0, count, []);
    received := buffer[..];
    if count != 0 {
      assert queue + given == buffer[0..count] + reader.sharedRegion.Contents();
      assert buffer[0..count] == received;
      assert queue[..count] == (queue + given)[..count];
    }
  }

  /**
   * `TestSimpleTransfer`: a host writer and a client reader over the same
   * segment; ten bytes written into the 10-byte ring come out of the reader
   * whole, and neither call has to wait.
   */
  method SimpleTransfer() returns (written: Outcome, read: Outcome, n: Int32, received: seq<Byte>)
    ensures written == Completed && read == Completed && n == 10
    ensures received == Run(1, 10)
  {
    var writer, reader := OpenPair(10);
    var dataSent := ArrayOf(Run(1, 10));
    written := WriteAll(writer, dataSent);
    SameRingSameQueue(writer.sharedRegion, reader.sharedRegion);
    read, n, received := ReadAll(reader, 10);
  }

  /**
   * `TestWriteTimeout`: with `WriteTimeout` 100 and no reader, writing 15
   * bytes into the 10-byte ring fills it and throws `TimeoutException` once
   * the stopwatch reads past 100 ms.
   */
  method WriteTimeout() returns (outcome: Outcome)
    ensures outcome == Raised(Timeout)
  {
    var writer := InterProcessStreamWriter.CreateAsHost(10);
    writer.SetWriteTimeout(100);
    var dataSent := ArrayOf(Run(1, 15));
    ghost var taken, waits;
    outcome, taken, waits := writer.Write(dataSent, 0, 15, [WaitStep(150, 0, 0)]);
    SpacePlusDataIsCapacity(writer.sharedRegion.sharedState.bufferSize,
                            writer.sharedRegion.sharedState.currentWriterIndex,
                            writer.sharedRegion.sharedState.currentReaderIndex);
  }

  /**
   * `TestReadTimeout`: with `ReadTimeout` 100 and no writer, reading 20
   * bytes from an empty ring throws `TimeoutException` once the stopwatch
   * reads past 100 ms.
   */
  method ReadTimeout() returns (outcome: Outcome)
    ensures outcome == Raised(Timeout)
  {
    var reader := InterProcessStreamReader.CreateAsHost(10);
    reader.SetReadTimeout(100);
    var buffer := new Byte[20];
    ghost var given, waits;
    var n;
    var nothing: Offer := [];
    outcome, n, given, waits := reader.Read(buffer, 0, 20, [WaitStep(150, 0, nothing)]);
  }

  /** `TestInvalidBufferSize`: ranges past the end of a 5-byte buffer are refused both ways. */
  method InvalidBufferSize() returns (w1: Result<U64>, w2: Result<U64>, r1: Result<U64>, r2: Result<U64>)
    ensures w1 == w2 == r1 == r2 == Failure(ArgumentOutOfRange)
  {
    var region := SharedRegion.CreateHost(10);
    var writeBuffer := ArrayOf([0, 0, 0, 0, 0]);
    w1 := region.Write(writeBuffer, 0, 10);
    w2 := region.Write(writeBuffer, 2, 5);
    var readBuffer := ArrayOf([0, 0, 0, 0, 0]);
    r1 := region.Read(readBuffer, 0, 10);
    r2 := region.Read(readBuffer, 2, 5);
  }
}
