/**
 * `SharedRegion`: a shared segment made of a `SharedState` header followed by
 * a ring of `bufferSize = capacity + 1` bytes. `Write` copies bytes in at the
 * writer cursor and `Read` copies them out at the reader cursor, each in at
 * most two contiguous chunks per call, and each signals its semaphore after
 * every chunk.
 *
 * The bytes queued in the ring are `Contents()`: the `AvailableData` bytes
 * that start at the reader's slot, going round the ring. `Write` appends to
 * it and `Read` removes from its front, so the ring is a FIFO queue.
 */
module Region {
  import opened Native
  import opened RingState
  import opened Semaphore

  /** `Marshal.SizeOf<SharedState>()`: three 8-byte words, a 4-byte enum and two bytes, padded to 8. */
  const SharedStateSize: nat := 32

  /** Where one chunk of a `Write` or `Read` goes in the ring. */
  datatype ReadWriteInstructions = ReadWriteInstructions(startIndex: U64, count: U64)

  /**
   * The chunk one turn of `Write`'s loop copies, from the header and the bytes
   * still to write. With sound cursors, free space and bytes left, the chunk
   * is not empty, lies inside the ring and leaves the header sound.
   */
  function WriteChunk(bufferSize: U64, writer: U64, reader: U64, remaining: U64): (chunk: ReadWriteInstructions)
    ensures CursorsOk(bufferSize, writer, reader) && 0 < remaining && 0 < AvailableSpaceOf(bufferSize, writer, reader)
            ==> 1 <= chunk.count <= remaining && chunk.startIndex + chunk.count <= bufferSize
    ensures CursorsOk(bufferSize, writer, reader) && 0 < remaining && 0 < AvailableSpaceOf(bufferSize, writer, reader)
            ==> CursorsOk(bufferSize, chunk.startIndex + chunk.count, reader)
  {
    var distanceToEnd := Sub64(bufferSize, writer);
    var writeBlockSize := Min(remaining, AvailableSpaceOf(bufferSize, writer, reader));
    if distanceToEnd == 0 then ReadWriteInstructions(0, writeBlockSize)
    else ReadWriteInstructions(writer, Min(writeBlockSize, distanceToEnd))
  }

  /**
   * The chunk one turn of `Read`'s loop copies, from the header and the bytes
   * still to read. With sound cursors, queued data and bytes wanted, the chunk
   * is not empty, lies inside the ring, and the corrected reader cursor keeps
   * the header sound.
   */
  function ReadChunk(bufferSize: U64, writer: U64, reader: U64, remaining: U64): (chunk: ReadWriteInstructions)
    ensures CursorsOk(bufferSize, writer, reader) && 0 < remaining && 0 < AvailableDataOf(bufferSize, writer, reader)
            ==> 1 <= chunk.count <= remaining && ReaderCursor(chunk) == chunk.startIndex + chunk.count <= bufferSize
    ensures CursorsOk(bufferSize, writer, reader) && 0 < remaining && 0 < AvailableDataOf(bufferSize, writer, reader)
            ==> CursorsOk(bufferSize, writer, ReaderCursor(chunk))
  {
    var distanceToEnd := Sub64(bufferSize, reader);
    var dataToRead := Min(remaining, AvailableDataOf(bufferSize, writer, reader));
    var maxDataToRead := Min(AvailableDataOf(bufferSize, writer, reader), dataToRead);
    var startIndex := if distanceToEnd > 0 then reader else 0;
    if writer > startIndex then ReadWriteInstructions(startIndex, maxDataToRead)
    else ReadWriteInstructions(startIndex, Min(maxDataToRead, distanceToEnd))
  }

  /**
   * Where `Read` as written leaves the reader cursor after a chunk: it adds
   * the count to the old cursor. Without wrap-around it agrees with the
   * corrected cursor exactly when the chunk started at the old cursor, that
   * is, unless the chunk went back to slot 0.
   */
  function ReaderCursorAsWritten(reader: U64, chunk: ReadWriteInstructions): (cursor: U64)
    ensures reader + chunk.count < TWO_TO_THE_64 && chunk.startIndex + chunk.count < TWO_TO_THE_64
            ==> (cursor == ReaderCursor(chunk) <==> reader == chunk.startIndex)
  {
    Add64(reader, chunk.count)
  }

  /** Where the reader cursor belongs after a chunk: just past the bytes read, as `Write` does for its cursor. */
  function ReaderCursor(chunk: ReadWriteInstructions): U64 {
    Add64(chunk.startIndex, chunk.count)
  }

  /** `AssertBufferSize`'s test as written: `count + offset` in unchecked `ulong` arithmetic. */
  predicate OutOfRangeAsWritten(length: nat, offset: U64, count: U64) {
    Add64(count, offset) > length
  }

  /** `AssertBufferSize`'s test as intended: the range `[offset, offset + count)` does not fit the buffer. */
  predicate OutOfRange(length: nat, offset: U64, count: U64) {
    offset + count > length
  }

  /** A `Write` chunk starts at the writer's slot, fits the free space and the ring's end, and keeps the header sound. */
  lemma WriteChunkFits(bufferSize: U64, writer: U64, reader: U64, remaining: U64, chunk: ReadWriteInstructions)
    requires CursorsOk(bufferSize, writer, reader)
    requires 0 < remaining && 0 < AvailableSpaceOf(bufferSize, writer, reader)
    requires chunk == WriteChunk(bufferSize, writer, reader, remaining)
    ensures chunk.startIndex == Norm(bufferSize, writer)
    ensures AvailableDataOf(bufferSize, writer, reader) < bufferSize
    ensures chunk.startIndex == Slot(bufferSize, Norm(bufferSize, reader), AvailableDataOf(bufferSize, writer, reader))
    ensures 1 <= chunk.count <= remaining && chunk.count <= AvailableSpaceOf(bufferSize, writer, reader)
    ensures chunk.startIndex + chunk.count <= bufferSize
    ensures CursorsOk(bufferSize, chunk.startIndex + chunk.count, reader)
    ensures AvailableDataOf(bufferSize, chunk.startIndex + chunk.count, reader)
            == AvailableDataOf(bufferSize, writer, reader) + chunk.count
    ensures AvailableSpaceOf(bufferSize, chunk.startIndex + chunk.count, reader)
            == AvailableSpaceOf(bufferSize, writer, reader) - chunk.count
    ensures Norm(bufferSize, chunk.startIndex + chunk.count) == Slot(bufferSize, Norm(bufferSize, writer), chunk.count)
  {
    SpacePlusDataIsCapacity(bufferSize, writer, reader);
  }

  /** A `Read` chunk starts at the reader's slot, stays within the queued bytes and the ring's end, and keeps the header sound. */
  lemma ReadChunkFits(bufferSize: U64, writer: U64, reader: U64, remaining: U64, chunk: ReadWriteInstructions)
    requires CursorsOk(bufferSize, writer, reader)
    requires 0 < remaining && 0 < AvailableDataOf(bufferSize, writer, reader)
    requires chunk == ReadChunk(bufferSize, writer, reader, remaining)
    ensures chunk.startIndex == Norm(bufferSize, reader)
    ensures AvailableDataOf(bufferSize, writer, reader) < bufferSize
    ensures 1 <= chunk.count <= remaining && chunk.count <= AvailableDataOf(bufferSize, writer, reader)
    ensures ReaderCursor(chunk) == chunk.startIndex + chunk.count <= bufferSize
    ensures CursorsOk(bufferSize, writer, ReaderCursor(chunk))
    ensures AvailableDataOf(bufferSize, writer, ReaderCursor(chunk))
            == AvailableDataOf(bufferSize, writer, reader) - chunk.count
    ensures AvailableSpaceOf(bufferSize, writer, ReaderCursor(chunk))
            == AvailableSpaceOf(bufferSize, writer, reader) + chunk.count
    ensures Norm(bufferSize, ReaderCursor(chunk)) == Slot(bufferSize, Norm(bufferSize, reader), chunk.count)
  {
    SpacePlusDataIsCapacity(bufferSize, writer, reader);
  }

  /**
   * The ring of the unit test `TestReadWriteIndexOverflow` (capacity 10, so
   * 11 slots) after writing 10, reading 10 and writing 10 bytes. Reading 10
   * more takes the chunk at slot 10, then the chunk at slot 0; after the
   * second chunk `Read` as written moves the reader cursor to 20, outside the
   * ring. A later write of 5 then leaves the writer at 3, and the next read
   * takes 5 bytes from slot 20 of the 11-slot ring, past the shared segment.
   * The corrected cursor lands on slot 9, next to the writer.
   */
  lemma ReaderCursorLeavesRing()
    ensures WriteChunk(11, 0, 0, 10) == ReadWriteInstructions(0, 10)
    ensures ReadChunk(11, 10, 0, 10) == ReadWriteInstructions(0, 10)
    ensures ReaderCursorAsWritten(0, ReadWriteInstructions(0, 10)) == 10
    ensures WriteChunk(11, 10, 10, 10) == ReadWriteInstructions(10, 1)
    ensures WriteChunk(11, 11, 10, 9) == ReadWriteInstructions(0, 9)
    ensures ReadChunk(11, 9, 10, 10) == ReadWriteInstructions(10, 1)
    ensures ReaderCursorAsWritten(10, ReadWriteInstructions(10, 1)) == 11
    ensures ReadChunk(11, 9, 11, 9) == ReadWriteInstructions(0, 9)
    ensures ReaderCursorAsWritten(11, ReadWriteInstructions(0, 9)) == 20
    ensures !CursorsOk(11, 9, 20)
    ensures WriteChunk(11, 9, 20, 5) == ReadWriteInstructions(9, 2)
    ensures WriteChunk(11, 11, 20, 3) == ReadWriteInstructions(0, 3)
    ensures ReadChunk(11, 3, 20, 5) == ReadWriteInstructions(20, 5)
    ensures 20 + 5 > 11
    ensures ReaderCursor(ReadWriteInstructions(0, 9)) == 9 && CursorsOk(11, 9, 9)
  {
  }

  /**
   * As written, `AssertBufferSize` lets an offset of 2^64 - 1 (what
   * `(ulong)(-1)` becomes) through with a count of 1, because the sum wraps to
   * 0; the copy that follows then starts one byte before the buffer.
   */
  lemma RangeCheckWrapsAsWritten()
    ensures !OutOfRangeAsWritten(16, TWO_TO_THE_64 - 1, 1)
    ensures OutOfRange(16, TWO_TO_THE_64 - 1, 1)
  {
  }

  /**
   * The corrected check rejects everything the check as written rejects, and
   * the two agree whenever `offset + count` does not wrap.
   */
  lemma RangeChecksAgreeWithoutWrap(length: nat, offset: U64, count: U64)
    requires length < TWO_TO_THE_64
    ensures OutOfRangeAsWritten(length, offset, count) ==> OutOfRange(length, offset, count)
    ensures offset + count < TWO_TO_THE_64
            ==> (OutOfRangeAsWritten(length, offset, count) <==> OutOfRange(length, offset, count))
  {
  }

  /**
   * `CreateHost`'s ring size as written: `capacity + 1` on a `long`, then the
   * cast `(ulong)` into the header, both unchecked. A capacity of -1 gives a
   * ring of no slots, and a smaller one a ring past `long.MaxValue` slots.
   */
  function BufferSizeAsWritten(capacity: Int64): (bufferSize: U64)
    ensures 0 <= capacity < INT64_MAX ==> bufferSize == capacity + 1
    ensures capacity == -1 ==> bufferSize == 0
    ensures capacity < -1 ==> bufferSize > INT64_MAX
  {
    var sum := if capacity == INT64_MAX then -INT64_MAX - 1 else capacity + 1;
    if sum >= 0 then sum else sum + TWO_TO_THE_64
  }

  /**
   * `CreateHost` with a capacity of -1: the header says the ring has no
   * slots, `GetAvailableSpace` wraps round to 2^64 - 1 free bytes, and the
   * first `Write` of 10 bytes plans a 10-byte chunk at slot 0 of that empty
   * ring, past the end of the segment.
   */
  lemma NegativeCapacityAsWritten()
    ensures BufferSizeAsWritten(-1) == 0
    ensures AvailableSpaceOf(BufferSizeAsWritten(-1), 0, 0) == TWO_TO_THE_64 - 1
    ensures WriteChunk(BufferSizeAsWritten(-1), 0, 0, 10) == ReadWriteInstructions(0, 10)
    ensures !CursorsOk(BufferSizeAsWritten(-1), 0, 0)
  {
  }

  /** The `length` bytes of `ring` that start at slot `start`, going round the end once at most. */
  ghost function RingView(ring: seq<Byte>, start: nat, length: nat): seq<Byte>
    requires start < |ring| && length < |ring|
  {
    seq(length, i requires 0 <= i < length => ring[Slot(|ring|, start, i)])
  }

  /** `ring` with `src` copied over it from slot `at` on. */
  function Splice(ring: seq<Byte>, at: nat, src: seq<Byte>): seq<Byte>
    requires at + |src| <= |ring|
  {
    seq(|ring|, i requires 0 <= i < |ring| => if at <= i < at + |src| then src[i - at] else ring[i])
  }

  /** Two splices side by side are one splice of both pieces. */
  lemma SpliceTwice(ring: seq<Byte>, at: nat, mid: nat, first: seq<Byte>, second: seq<Byte>)
    requires mid == at + |first| && mid + |second| <= |ring|
    ensures Splice(Splice(ring, at, first), mid, second) == Splice(ring, at, first + second)
  {
  }

  /** Appending the first `m` bytes of `s` and then the next `n` is appending the first `m + n`. */
  lemma AppendNext(q: seq<Byte>, s: seq<Byte>, m: nat, n: nat)
    requires m + n <= |s|
    ensures q + s[..m] + s[m..][..n] == q + s[..m + n]
  {
    assert s[..m] + s[m..][..n] == s[..m + n];
  }

  /** Taking `m` bytes off the front of `q` and then `n` more of what is left: the pieces and the rest line up. */
  lemma TakeNext(q: seq<Byte>, m: nat, n: nat)
    requires m + n <= |q|
    ensures q[..m] + q[m..][..n] == q[..m + n]
    ensures q[m..][n..] == q[m + n..]
  {
  }

  /** Copying `src` into the free slots just past the queued bytes appends `src` to the queue. */
  lemma {:induction false} RingViewAppend(ring: seq<Byte>, start: nat, length: nat, at: nat, src: seq<Byte>)
    requires start < |ring| && length + |src| < |ring|
    requires at == Slot(|ring|, start, length) && at + |src| <= |ring|
    ensures RingView(Splice(ring, at, src), start, length + |src|) == RingView(ring, start, length) + src
  {
    var ring' := Splice(ring, at, src);
    var before := RingView(ring, start, length);
    var after := RingView(ring', start, length + |src|);
    forall i | 0 <= i < length + |src|
      ensures after[i] == (before + src)[i]
    {
      var slot := Slot(|ring|, start, i);
      if i < length {
        assert !(at <= slot < at + |src|);
        assert ring'[slot] == ring[slot];
      } else {
        assert slot == at + (i - length);
        assert ring'[slot] == src[i - length];
      }
    }
  }

  /** The first `n` queued bytes lie in one piece from the reader's slot, and removing them leaves the rest. */
  lemma {:induction false} RingViewConsume(ring: seq<Byte>, start: nat, length: nat, n: nat)
    requires start < |ring| && length < |ring| && n <= length && start + n <= |ring|
    ensures ring[start..start + n] == RingView(ring, start, length)[..n]
    ensures RingView(ring, Norm(|ring|, start + n), length - n) == RingView(ring, start, length)[n..]
  {
    var view := RingView(ring, start, length);
    forall i | 0 <= i < n
      ensures ring[start..start + n][i] == view[..n][i]
    {
      assert Slot(|ring|, start, i) == start + i;
    }
    var rest := RingView(ring, Norm(|ring|, start + n), length - n);
    forall i | 0 <= i < length - n
      ensures rest[i] == view[n..][i]
    {
      assert Slot(|ring|, Norm(|ring|, start + n), i) == Slot(|ring|, start, n + i);
    }
  }

  /** `Buffer.MemoryCopy`: `count` bytes from `source` at `sourceOffset` to `destination` at `destinationOffset`. */
  method MemoryCopy(source: array<Byte>, sourceOffset: nat, destination: array<Byte>, destinationOffset: nat, count: nat)
    requires source != destination
    requires sourceOffset + count <= source.Length && destinationOffset + count <= destination.Length
    modifies destination
    ensures destination[..] == Splice(old(destination[..]), destinationOffset, source[sourceOffset..sourceOffset + count])
  {
    forall k | destinationOffset <= k < destinationOffset + count {
      destination[k] := source[sourceOffset + (k - destinationOffset)];
    }
    assert destination[..] == Splice(old(destination[..]), destinationOffset, source[sourceOffset..sourceOffset + count]);
  }

  /** The ring part of the shared segment, as a value: the geometry and cursors of the header, and the slot bytes. */
  datatype Ring = Ring(bufferSize: U64, writer: U64, reader: U64, slots: seq<Byte>)

  /** A ring whose slots match its size and whose cursors are ones the code keeps. */
  predicate Sound(s: Ring) {
    |s.slots| == s.bufferSize && CursorsOk(s.bufferSize, s.writer, s.reader)
  }

  function Space(s: Ring): U64 {
    AvailableSpaceOf(s.bufferSize, s.writer, s.reader)
  }

  function Data(s: Ring): U64 {
    AvailableDataOf(s.bufferSize, s.writer, s.reader)
  }

  /** The bytes written and not yet read, oldest first: `Data` bytes from the reader's slot on, going round the ring. */
  ghost function Queue(s: Ring): (q: seq<Byte>)
    requires Sound(s)
    ensures |q| == Data(s)
  {
    SpacePlusDataIsCapacity(s.bufferSize, s.writer, s.reader);
    RingView(s.slots, Norm(s.bufferSize, s.reader), Data(s))
  }

  /** How many bytes the next turn of `Write`'s loop copies. */
  function PutCount(s: Ring, remaining: U64): U64 {
    WriteChunk(s.bufferSize, s.writer, s.reader, remaining).count
  }

  /** The ring after one turn of `Write`'s loop with the bytes `src` still to write: the chunk copied in, the writer past it. */
  function PutStep(s: Ring, src: seq<Byte>): (t: Ring)
    requires Sound(s) && 0 < |src| < TWO_TO_THE_64 && 0 < Space(s)
    ensures Sound(t) && t.bufferSize == s.bufferSize && t.reader == s.reader
    ensures 1 <= PutCount(s, |src|) <= |src|
  {
    var chunk := WriteChunk(s.bufferSize, s.writer, s.reader, |src|);
    Ring(s.bufferSize, chunk.startIndex + chunk.count, s.reader, Splice(s.slots, chunk.startIndex, src[..chunk.count]))
  }

  /** One turn of `Write`'s loop appends the chunk it copies to the queue and takes that much space. */
  lemma PutStepAppends(s: Ring, src: seq<Byte>)
    requires Sound(s) && 0 < |src| < TWO_TO_THE_64 && 0 < Space(s)
    ensures 1 <= PutCount(s, |src|) <= |src| && PutCount(s, |src|) <= Space(s)
    ensures Queue(PutStep(s, src)) == Queue(s) + src[..PutCount(s, |src|)]
    ensures Space(PutStep(s, src)) == Space(s) - PutCount(s, |src|)
    ensures Norm(s.bufferSize, PutStep(s, src).writer) == Slot(s.bufferSize, Norm(s.bufferSize, s.writer), PutCount(s, |src|))
  {
    var chunk := WriteChunk(s.bufferSize, s.writer, s.reader, |src|);
    WriteChunkFits(s.bufferSize, s.writer, s.reader, |src|, chunk);
    var piece := src[..chunk.count];
    var t := PutStep(s, src);
    assert t == Ring(s.bufferSize, chunk.startIndex + chunk.count, s.reader, Splice(s.slots, chunk.startIndex, piece));
    assert Data(t) == Data(s) + |piece|;
    RingViewAppend(s.slots, Norm(s.bufferSize, s.reader), Data(s), chunk.startIndex, piece);
  }

  /** How many bytes the next turn of `Read`'s loop copies. */
  function TakeCount(s: Ring, remaining: U64): U64 {
    ReadChunk(s.bufferSize, s.writer, s.reader, remaining).count
  }

  /** The bytes the next turn of `Read`'s loop copies out: one contiguous piece of the ring. */
  function Taken(s: Ring, remaining: U64): (piece: seq<Byte>)
    requires Sound(s) && 0 < remaining && 0 < Data(s)
    ensures |piece| == TakeCount(s, remaining)
  {
    var chunk := ReadChunk(s.bufferSize, s.writer, s.reader, remaining);
    s.slots[chunk.startIndex..chunk.startIndex + chunk.count]
  }

  /** The ring after one turn of `Read`'s loop: the reader just past the chunk copied out. */
  function TakeStep(s: Ring, remaining: U64): (t: Ring)
    requires Sound(s) && 0 < remaining && 0 < Data(s)
    ensures Sound(t) && t.bufferSize == s.bufferSize && t.writer == s.writer && t.slots == s.slots
    ensures 1 <= TakeCount(s, remaining) <= remaining
  {
    var chunk := ReadChunk(s.bufferSize, s.writer, s.reader, remaining);
    Ring(s.bufferSize, s.writer, ReaderCursor(chunk), s.slots)
  }

  /** One turn of `Read`'s loop copies out the front of the queue and removes just that. */
  lemma TakeStepConsumes(s: Ring, remaining: U64)
    requires Sound(s) && 0 < remaining && 0 < Data(s)
    ensures 1 <= TakeCount(s, remaining) <= remaining && TakeCount(s, remaining) <= Data(s)
    ensures Taken(s, remaining) == Queue(s)[..TakeCount(s, remaining)]
    ensures Queue(TakeStep(s, remaining)) == Queue(s)[TakeCount(s, remaining)..]
    ensures Data(TakeStep(s, remaining)) == Data(s) - TakeCount(s, remaining)
    ensures Norm(s.bufferSize, TakeStep(s, remaining).reader)
            == Slot(s.bufferSize, Norm(s.bufferSize, s.reader), TakeCount(s, remaining))
  {
    var chunk := ReadChunk(s.bufferSize, s.writer, s.reader, remaining);
    ReadChunkFits(s.bufferSize, s.writer, s.reader, remaining, chunk);
    RingViewConsume(s.slots, chunk.startIndex, Data(s), chunk.count);
  }

  /**
   * One turn of `Read`'s loop, seen from the loop: when the ring holds what is
   * left of `queue` after `done` bytes, and those bytes sit in `buffer` from
   * `offset` on, the turn's chunk is the next piece of `queue` and lands right
   * after them.
   */
  lemma TakeStepExtends(s: Ring, remaining: U64, t: Ring, n: nat, queue: seq<Byte>, done: nat,
                        original: seq<Byte>, buffer: seq<Byte>, offset: nat)
    requires Sound(s) && 0 < remaining && 0 < Data(s)
    requires t == TakeStep(s, remaining) && n == TakeCount(s, remaining)
    requires done <= |queue| && Queue(s) == queue[done..]
    requires offset + done + remaining <= |original| && buffer == Splice(original, offset, queue[..done])
    ensures Sound(t) && done + n <= |queue|
    ensures Queue(t) == queue[done + n..]
    ensures Splice(buffer, offset + done, Taken(s, remaining)) == Splice(original, offset, queue[..done + n])
  {
    TakeStepConsumes(s, remaining);
    assert Taken(s, remaining) == queue[done..][..n];
    TakeNext(queue, done, n);
    SpliceTwice(original, offset, offset + done, queue[..done], queue[done..][..n]);
  }

  /**
   * A memory-mapped file laid out as the header followed by the ring. Opening
   * it by name is left to the caller: a client receives the very object the
   * host created, so both see the same header and the same ring.
   */
  class MemoryMappedFile {
    const size: nat
    const header: SharedState
    const ring: array<Byte>

    constructor (size: nat, header: SharedState, ring: array<Byte>)
      ensures this.size == size && this.header == header && this.ring == ring
    {
      this.size := size;
      this.header := header;
      this.ring := ring;
    }

    /** The file holds a header written by `CreateHost` and kept sound by the regions using it. */
    ghost predicate Formatted()
      reads header
    {
      && ring.Length == header.bufferSize
      && size == SharedStateSize + header.bufferSize
      && CursorsOk(header.bufferSize, header.currentWriterIndex, header.currentReaderIndex)
      && header.readerSemaphore != header.writerSemaphore
    }
  }

  class SharedRegion {
    const sharedFile: MemoryMappedFile
    /** The length of the view this region maps: the header and the ring. */
    const viewLength: nat
    const sharedState: SharedState
    const sharedBuffer: array<Byte>
    const readerSemaphore: IPCSemaphore
    const writerSemaphore: IPCSemaphore

    ghost predicate Valid()
      reads sharedState, readerSemaphore, writerSemaphore
    {
      && sharedState == sharedFile.header
      && sharedBuffer == sharedFile.ring
      && sharedBuffer.Length == sharedState.bufferSize
      && viewLength == SharedStateSize + sharedState.bufferSize
      && CursorsOk(sharedState.bufferSize, sharedState.currentWriterIndex, sharedState.currentReaderIndex)
      && sharedState.readerSemaphore != sharedState.writerSemaphore
      && readerSemaphore.signalAddress == sharedState.readerSemaphore
      && writerSemaphore.signalAddress == sharedState.writerSemaphore
    }

    /** The ring as a value: the header's geometry and cursors, and the slot bytes. */
    ghost function State(): Ring
      reads sharedState, sharedBuffer
    {
      Ring(sharedState.bufferSize, sharedState.currentWriterIndex, sharedState.currentReaderIndex, sharedBuffer[..])
    }

    /** The bytes written and not yet read, oldest first. */
    ghost function Contents(): seq<Byte>
      reads sharedState, readerSemaphore, writerSemaphore, sharedBuffer
      requires Valid()
    {
      Queue(State())
    }

    function BufferSize(): U64
      reads sharedState
    {
      sharedState.bufferSize
    }

    /** The header's free space, `GetAvailableSpace`. */
    function AvailableSpace(): U64
      reads sharedState
    {
      sharedState.GetAvailableSpace()
    }

    /** The header's queued data, `GetAvailableData`. */
    function AvailableData(): U64
      reads sharedState
    {
      sharedState.GetAvailableData()
    }

    /** Maps the header and the ring, and binds both semaphores to their bytes, clearing them. */
    constructor (sharedFile: MemoryMappedFile, viewLength: nat)
      requires sharedFile.Formatted()
      requires viewLength == SharedStateSize + sharedFile.header.bufferSize
      modifies sharedFile.header.readerSemaphore, sharedFile.header.writerSemaphore
      ensures Valid()
      ensures this.sharedFile == sharedFile && this.viewLength == viewLength
      ensures fresh(readerSemaphore) && fresh(writerSemaphore)
      ensures sharedState.readerSemaphore.value == NOT_SIGNALED
      ensures sharedState.writerSemaphore.value == NOT_SIGNALED
      ensures |Contents()| == sharedState.GetAvailableData()
    {
      this.sharedFile := sharedFile;
      this.viewLength := viewLength;
      sharedState := sharedFile.header;
      sharedBuffer := sharedFile.ring;
      readerSemaphore := new IPCSemaphore(sharedFile.header.readerSemaphore, Some(false));
      writerSemaphore := new IPCSemaphore(sharedFile.header.writerSemaphore, Some(false));
    }

    /** Creates the segment for a ring of `capacity` bytes (`capacity + 1` slots), empty and zero-filled. */
    static method CreateHost(capacity: nat) returns (region: SharedRegion)
      requires capacity + 1 + SharedStateSize <= INT64_MAX
      ensures fresh(region) && fresh(region.sharedFile) && fresh(region.sharedState) && fresh(region.sharedBuffer)
      ensures fresh(region.sharedState.readerSemaphore) && fresh(region.sharedState.writerSemaphore)
      ensures region.Valid()
      ensures region.sharedFile.size == region.viewLength == SharedStateSize + capacity + 1
      ensures region.BufferSize() == capacity + 1 == BufferSizeAsWritten(capacity)
      ensures region.sharedState.currentWriterIndex == 0 && region.sharedState.currentReaderIndex == 0
      ensures region.AvailableSpace() == capacity && region.AvailableData() == 0
      ensures region.Contents() == []
      ensures region.sharedState.streamState == 0
      ensures region.sharedState.readerSemaphore.value == NOT_SIGNALED
      ensures region.sharedState.writerSemaphore.value == NOT_SIGNALED
    {
      var bufferSize := capacity + 1;
      var totalSharedMemorySize := bufferSize + SharedStateSize;
      var header := new SharedState();
      var ring := new Byte[bufferSize];
      var sharedFile := new MemoryMappedFile(totalSharedMemorySize, header, ring);
      header.currentReaderIndex := 0;
      header.currentWriterIndex := 0;
      header.bufferSize := bufferSize;
      region := new SharedRegion(sharedFile, totalSharedMemorySize);
    }

    /** Opens a segment a host created: the view length comes from the ring size in its header. */
    static method CreateClient(sharedFile: MemoryMappedFile) returns (region: SharedRegion)
      requires sharedFile.Formatted()
      modifies sharedFile.header.readerSemaphore, sharedFile.header.writerSemaphore
      ensures fresh(region) && region.Valid() && region.sharedFile == sharedFile
      ensures region.viewLength == sharedFile.size
      ensures region.sharedState.readerSemaphore.value == NOT_SIGNALED
      ensures region.sharedState.writerSemaphore.value == NOT_SIGNALED
      ensures region.State() == Ring(sharedFile.header.bufferSize, sharedFile.header.currentWriterIndex,
                                     sharedFile.header.currentReaderIndex, sharedFile.ring[..])
    {
      var bufferSize := sharedFile.header.bufferSize;
      region := new SharedRegion(sharedFile, SharedStateSize + bufferSize);
    }

    /** One turn of `Write`'s loop: copies the next chunk into the ring, moves the writer past it and signals. */
    method PutChunk(data: array<Byte>, from: nat, remaining: U64, ghost src: seq<Byte>) returns (copied: U64)
      requires Valid() && data != sharedBuffer
      requires 0 < remaining && from + remaining <= data.Length && 0 < Space(State())
      requires src == data[from..from + remaining]
      modifies sharedState`currentWriterIndex, sharedBuffer, sharedState.writerSemaphore
      ensures Valid()
      ensures State() == PutStep(old(State()), src)
      ensures copied == PutCount(old(State()), |src|) && 1 <= copied <= |src|
      ensures sharedState.writerSemaphore.value == SIGNALED
    {
      var bufferSize, writer, reader := sharedState.bufferSize, sharedState.currentWriterIndex, sharedState.currentReaderIndex;
      var instruction := WriteChunk(bufferSize, writer, reader, remaining);
      assert data[from..from + remaining][..instruction.count] == data[from..from + instruction.count];
      MemoryCopy(data, from, sharedBuffer, instruction.startIndex, instruction.count);
      sharedState.currentWriterIndex := instruction.startIndex + instruction.count;
      copied := instruction.count;
      writerSemaphore.Signal();
    }

    /** One turn of `Read`'s loop: copies the next chunk out of the ring, moves the reader past it and signals. */
    method TakeChunk(readBuffer: array<Byte>, to: nat, remaining: U64, ghost before: Ring, ghost buffer: seq<Byte>)
      returns (copied: U64)
      requires Valid() && readBuffer != sharedBuffer
      requires before == State() && buffer == readBuffer[..]
      requires 0 < remaining && to + remaining <= readBuffer.Length && 0 < Data(before)
      modifies sharedState`currentReaderIndex, readBuffer, sharedState.readerSemaphore
      ensures Valid()
      ensures sharedBuffer[..] == before.slots
      ensures State() == TakeStep(before, remaining)
      ensures copied == TakeCount(before, remaining) == |Taken(before, remaining)|
      ensures 1 <= copied <= remaining
      ensures readBuffer[..] == Splice(buffer, to, Taken(before, remaining))
      ensures sharedState.readerSemaphore.value == SIGNALED
    {
      var bufferSize, writer, reader := sharedState.bufferSize, sharedState.currentWriterIndex, sharedState.currentReaderIndex;
      var instruction := ReadChunk(bufferSize, writer, reader, remaining);
      MemoryCopy(sharedBuffer, instruction.startIndex, readBuffer, to, instruction.count);
      sharedState.currentReaderIndex := ReaderCursor(instruction);
      copied := instruction.count;
      readerSemaphore.Signal();
    }

    /** One turn of `Write`'s loop: the next bytes of `src` join the back of the queue. */
    method WriteTurn(data: array<Byte>, offset: U64, count: U64, dataCopied: U64,
                     ghost queue: seq<Byte>, ghost src: seq<Byte>)
      returns (copied: U64)
      requires Valid() && data != sharedBuffer
      requires offset + count <= data.Length && data[offset..offset + count] == src
      requires dataCopied < count && 0 < Space(State())
      requires Queue(State()) == queue + src[..dataCopied]
      modifies sharedState`currentWriterIndex, sharedBuffer, sharedState.writerSemaphore
      ensures Valid()
      ensures 1 <= copied <= count - dataCopied && copied <= old(Space(State()))
      ensures Space(State()) == old(Space(State())) - copied
      ensures Queue(State()) == queue + src[..dataCopied + copied]
      ensures sharedState.writerSemaphore.value == SIGNALED
    {
      ghost var before := State();
      ghost var rest := src[dataCopied..];
      assert data[offset + dataCopied..offset + count] == rest;
      copied := PutChunk(data, offset + dataCopied, count - dataCopied, rest);
      PutStepAppends(before, rest);
      AppendNext(queue, src, dataCopied, copied);
    }

    /**
     * `Write(data, offset, count)`: copies as many of the `count` bytes as
     * there is space for, chunk by chunk, signalling after each, and returns
     * how many it copied: exactly those bytes join the back of the queue.
     */
    method Write(data: array<Byte>, offset: U64, count: U64) returns (r: Result<U64>)
      requires Valid() && data != sharedBuffer
      modifies sharedState`currentWriterIndex, sharedBuffer, sharedState.writerSemaphore
      ensures Valid()
      ensures r.Failure? <==> OutOfRange(data.Length, offset, count)
      ensures r.Failure? ==> (r.error == ArgumentOutOfRange && State() == old(State())
                && sharedState.writerSemaphore.value == old(sharedState.writerSemaphore.value))
      ensures r.Success? ==> (offset + r.value <= data.Length && r.value == Min(count, Space(old(State())))
                && Queue(State()) == Queue(old(State())) + data[offset..offset + r.value])
      ensures r.Success? ==> Space(State()) == Space(old(State())) - r.value
      ensures r.Success? ==> (sharedState.writerSemaphore.value
                == if r.value > 0 then SIGNALED else old(sharedState.writerSemaphore.value))
    {
      if OutOfRange(data.Length, offset, count) {
        return Failure(ArgumentOutOfRange);
      }
      ghost var queue := Queue(State());
      ghost var space := Space(State());
      ghost var src := data[offset..offset + count];
      var dataCopied: U64 := 0;
      while dataCopied < count && sharedState.GetAvailableSpace() > 0
        invariant Valid()
        invariant dataCopied <= count && dataCopied <= space
        invariant data[offset..offset + count] == src
        invariant Space(State()) == space - dataCopied
        invariant Queue(State()) == queue + src[..dataCopied]
        invariant sharedState.writerSemaphore.value
                    == if dataCopied > 0 then SIGNALED else old(sharedState.writerSemaphore.value)
        decreases count - dataCopied
      {
        var copied := WriteTurn(data, offset, count, dataCopied, queue, src);
        dataCopied := dataCopied + copied;
      }
      assert src[..dataCopied] == data[offset..offset + dataCopied];
      r := Success(dataCopied);
    }

    /** `Write(data)`: the whole array, appended to the queue as far as there is space. */
    method WriteAll(data: array<Byte>) returns (r: Result<U64>)
      requires Valid() && data != sharedBuffer && data.Length < TWO_TO_THE_64
      modifies sharedState`currentWriterIndex, sharedBuffer, sharedState.writerSemaphore
      ensures Valid()
      ensures r.Success? && r.value == Min(data.Length, old(AvailableSpace()))
      ensures Contents() == old(Contents()) + data[..r.value]
      ensures AvailableSpace() == old(AvailableSpace()) - r.value
    {
      r := Write(data, 0, data.Length);
    }

    /** One turn of `Read`'s loop: the next bytes of `queue` land in `readBuffer` right after those already read. */
    method ReadTurn(readBuffer: array<Byte>, offset: U64, count: U64, dataCopied: U64,
                    ghost queue: seq<Byte>, ghost original: seq<Byte>)
      returns (copied: U64)
      requires Valid() && readBuffer != sharedBuffer
      requires offset + count <= readBuffer.Length && |original| == readBuffer.Length
      requires dataCopied < count && dataCopied <= |queue| && 0 < Data(State())
      requires Queue(State()) == queue[dataCopied..]
      requires readBuffer[..] == Splice(original, offset, queue[..dataCopied])
      modifies sharedState`currentReaderIndex, readBuffer, sharedState.readerSemaphore
      ensures Valid()
      ensures 1 <= copied <= count - dataCopied && dataCopied + copied <= |queue|
      ensures Queue(State()) == queue[dataCopied + copied..]
      ensures readBuffer[..] == Splice(original, offset, queue[..dataCopied + copied])
      ensures sharedState.readerSemaphore.value == SIGNALED
    {
      ghost var before, buffer := State(), readBuffer[..];
      copied := TakeChunk(readBuffer, offset + dataCopied, count - dataCopied, before, buffer);
      TakeStepExtends(before, count - dataCopied, State(), copied, queue, dataCopied, original, buffer, offset);
    }

    /**
     * `Read(readBuffer, offset, count)`: copies up to `count` queued bytes,
     * chunk by chunk, to `readBuffer` from `offset` on, signalling after each
     * chunk, and returns how many it copied: the front of the queue, which it
     * removes.
     */
    method Read(readBuffer: array<Byte>, offset: U64, count: U64) returns (r: Result<U64>)
      requires Valid() && readBuffer != sharedBuffer
      modifies sharedState`currentReaderIndex, readBuffer, sharedState.readerSemaphore
      ensures Valid()
      ensures r.Failure? <==> OutOfRange(readBuffer.Length, offset, count)
      ensures r.Failure? ==> (r.error == ArgumentOutOfRange && State() == old(State())
                && readBuffer[..] == old(readBuffer[..])
                && sharedState.readerSemaphore.value == old(sharedState.readerSemaphore.value))
      ensures r.Success? ==> (offset + r.value <= readBuffer.Length && r.value == Min(count, Data(old(State())))
                && readBuffer[..] == Splice(old(readBuffer[..]), offset, Queue(old(State()))[..r.value])
                && Queue(State()) == Queue(old(State()))[r.value..])
      ensures r.Success? ==> Data(State()) == Data(old(State())) - r.value
      ensures r.Success? ==> (sharedState.readerSemaphore.value
                == if r.value > 0 then SIGNALED else old(sharedState.readerSemaphore.value))
    {
      if OutOfRange(readBuffer.Length, offset, count) {
        return Failure(ArgumentOutOfRange);
      }
      ghost var queue := Queue(State());
      ghost var original := readBuffer[..];
      var dataCopied: U64 := 0;
      while dataCopied < count && sharedState.GetAvailableData() > 0
        invariant Valid()
        invariant dataCopied <= count && dataCopied <= |queue|
        invariant Queue(State()) == queue[dataCopied..]
        invariant readBuffer[..] == Splice(original, offset, queue[..dataCopied])
        invariant sharedState.readerSemaphore.value
                    == if dataCopied > 0 then SIGNALED else old(sharedState.readerSemaphore.value)
        decreases count - dataCopied
      {
        var copied := ReadTurn(readBuffer, offset, count, dataCopied, queue, original);
        dataCopied := dataCopied + copied;
      }
      r := Success(dataCopied);
    }

    /** `Read(readBuffer)`: into the whole array, taking the front of the queue. */
    method ReadAll(readBuffer: array<Byte>) returns (r: Result<U64>)
      requires Valid() && readBuffer != sharedBuffer && readBuffer.Length < TWO_TO_THE_64
      modifies sharedState`currentReaderIndex, readBuffer, sharedState.readerSemaphore
      ensures Valid()
      ensures r.Success? && r.value == Min(readBuffer.Length, old(AvailableData()))
      ensures readBuffer[..] == Splice(old(readBuffer[..]), 0, old(Contents())[..r.value])
      ensures Contents() == old(Contents())[r.value..]
    {
      r := Read(readBuffer, 0, readBuffer.Length);
    }

    /** Waits on the byte `Read` signals; only the peer's signal can change it. */
    method WaitReader(timeout: nat, oracle: WaitOracle) returns (signaled: bool)
      requires Valid()
      modifies sharedState.readerSemaphore
      ensures Valid()
      ensures signaled <==> sharedState.readerSemaphore.value == SIGNALED
      ensures old(sharedState.readerSemaphore.value) == SIGNALED ==> signaled
      ensures sharedState.readerSemaphore.value == SIGNALED
              || sharedState.readerSemaphore.value == old(sharedState.readerSemaphore.value)
    {
      var elapsedMs, spins, sleeps;
      signaled, elapsedMs, spins, sleeps := readerSemaphore.Wait(timeout, oracle);
    }

    /** Waits on the byte `Write` signals; only the peer's signal can change it. */
    method WaitWriter(timeout: nat, oracle: WaitOracle) returns (signaled: bool)
      requires Valid()
      modifies sharedState.writerSemaphore
      ensures Valid()
      ensures signaled <==> sharedState.writerSemaphore.value == SIGNALED
      ensures old(sharedState.writerSemaphore.value) == SIGNALED ==> signaled
      ensures sharedState.writerSemaphore.value == SIGNALED
              || sharedState.writerSemaphore.value == old(sharedState.writerSemaphore.value)
    {
      var elapsedMs, spins, sleeps;
      signaled, elapsedMs, spins, sleeps := writerSemaphore.Wait(timeout, oracle);
    }
  }
}
