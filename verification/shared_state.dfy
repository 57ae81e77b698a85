/**
 * The header at the start of the shared segment (`SharedState`): the ring
 * geometry, the two cursors, the connection flags and the two signal bytes,
 * with the available-space / available-data arithmetic exactly as the code
 * does it on `nuint` (wrapping on underflow).
 */
module RingState {
  import opened Native

  // The `StreamState` flag bits.
  const WriterConnected: bv32 := 1
  const ReaderConnected: bv32 := 2
  const StreamFinished: bv32 := 4

  /** `IsState`: every bit of `state` is set in `streamState`, so OR-ing `state` in again changes nothing. */
  predicate IsStateOf(streamState: bv32, state: bv32): (holds: bool)
    ensures holds <==> (streamState | state) == streamState
  {
    streamState & state == state
  }

  /**
   * `GetAvailableSpace`, with the code's unchecked subtractions. For the
   * cursors the code keeps, space and data add up to the capacity.
   */
  function AvailableSpaceOf(bufferSize: U64, writer: U64, reader: U64): (space: U64)
    ensures CursorsOk(bufferSize, writer, reader) ==> space + AvailableDataOf(bufferSize, writer, reader) == bufferSize - 1
  {
    var availableSpace :=
      if reader <= writer then Sub64(bufferSize, writer - reader)
      else reader - writer;
    Sub64(availableSpace, 1)
  }

  /**
   * `GetAvailableData`, with the code's unchecked `writer + bufferSize - reader`.
   * For the cursors the code keeps, it is below the ring size, and zero
   * exactly when both cursors denote the same slot.
   */
  function AvailableDataOf(bufferSize: U64, writer: U64, reader: U64): (data: U64)
    ensures CursorsOk(bufferSize, writer, reader) ==> data < bufferSize
    ensures CursorsOk(bufferSize, writer, reader) ==> (data == 0 <==> Norm(bufferSize, writer) == Norm(bufferSize, reader))
  {
    if reader <= writer then writer - reader
    else Sub64(Add64(writer, bufferSize), reader)
  }

  /**
   * The ring slot a cursor denotes. `Write` may leave the writer cursor at
   * `bufferSize` (one past the last slot); the next chunk then starts at slot 0.
   */
  function Norm(bufferSize: nat, cursor: nat): nat {
    if cursor == bufferSize then 0 else cursor
  }

  /** The slot `i` places after slot `start`, going round the ring once at most. */
  function Slot(bufferSize: nat, start: nat, i: nat): nat
    requires start < bufferSize && i < bufferSize
  {
    if start + i < bufferSize then start + i else start + i - bufferSize
  }

  /** Moving `a` slots and then `b` more is moving `a + b`. */
  lemma SlotAdd(bufferSize: nat, start: nat, a: nat, b: nat)
    requires start < bufferSize && a + b < bufferSize
    ensures Slot(bufferSize, Slot(bufferSize, start, a), b) == Slot(bufferSize, start, a + b)
  {
  }

  /**
   * The header states the code keeps: both cursors within `[0, bufferSize]`,
   * and never reader 0 with writer `bufferSize` (that pair would read as a
   * full ring of `bufferSize` bytes, one more than the ring can hold).
   */
  predicate CursorsOk(bufferSize: U64, writer: U64, reader: U64) {
    1 <= bufferSize && writer <= bufferSize && reader <= bufferSize &&
    !(reader == 0 && writer == bufferSize)
  }

  /** The available data is the distance from the reader's slot to the writer's, modulo the ring. */
  lemma AvailableDataIsDistance(bufferSize: U64, writer: U64, reader: U64)
    requires CursorsOk(bufferSize, writer, reader)
    ensures AvailableDataOf(bufferSize, writer, reader)
            == (Norm(bufferSize, writer) - Norm(bufferSize, reader)) % bufferSize
    ensures AvailableDataOf(bufferSize, writer, reader) < bufferSize
  {
    var d := Norm(bufferSize, writer) - Norm(bufferSize, reader);
    var data := AvailableDataOf(bufferSize, writer, reader);
    if d >= 0 {
      assert data == d;
      ModOfSmall(d, bufferSize);
    } else {
      assert data == d + bufferSize;
      ModOfNegative(d, bufferSize);
    }
  }

  lemma ModOfSmall(x: int, m: int)
    requires 0 <= x < m
    ensures x % m == x
  {
  }

  lemma ModOfNegative(x: int, m: int)
    requires 0 < m && -m <= x < 0
    ensures x % m == x + m
  {
  }

  /** Space and data always add up to the capacity, `bufferSize - 1`. */
  lemma SpacePlusDataIsCapacity(bufferSize: U64, writer: U64, reader: U64)
    requires CursorsOk(bufferSize, writer, reader)
    ensures AvailableSpaceOf(bufferSize, writer, reader) + AvailableDataOf(bufferSize, writer, reader)
            == bufferSize - 1
  {
  }

  /** The ring is empty exactly when both cursors denote the same slot. */
  lemma EmptyIffSameSlot(bufferSize: U64, writer: U64, reader: U64)
    requires CursorsOk(bufferSize, writer, reader)
    ensures AvailableDataOf(bufferSize, writer, reader) == 0
            <==> Norm(bufferSize, writer) == Norm(bufferSize, reader)
    ensures AvailableSpaceOf(bufferSize, writer, reader) == bufferSize - 1
            <==> Norm(bufferSize, writer) == Norm(bufferSize, reader)
  {
  }

  /** Equal cursors read as empty wherever they sit, even outside the ring. */
  lemma EqualCursorsMeanEmpty(bufferSize: U64, cursor: U64)
    requires 1 <= bufferSize
    ensures AvailableDataOf(bufferSize, cursor, cursor) == 0
    ensures AvailableSpaceOf(bufferSize, cursor, cursor) == bufferSize - 1
  {
  }

  /**
   * With `reader <= writer`, the final `- 1` of `GetAvailableSpace` gives the
   * true free space exactly when the unread span is shorter than the ring;
   * otherwise the result has wrapped round to a huge value.
   */
  lemma SpaceExactIffShorterThanRing(bufferSize: U64, writer: U64, reader: U64)
    requires reader <= writer
    ensures AvailableSpaceOf(bufferSize, writer, reader) == bufferSize - 1 - (writer - reader)
            <==> writer - reader < bufferSize
    ensures writer - reader >= bufferSize
            ==> AvailableSpaceOf(bufferSize, writer, reader) >= TWO_TO_THE_64 - (writer - reader) - 1
  {
  }

  /** A writer cursor resting at `bufferSize` reads the same as one at slot 0. */
  lemma WriterAtEndActsAsZero(bufferSize: U64, reader: U64)
    requires 0 < reader < bufferSize
    ensures AvailableSpaceOf(bufferSize, bufferSize, reader) == AvailableSpaceOf(bufferSize, 0, reader)
    ensures AvailableDataOf(bufferSize, bufferSize, reader) == AvailableDataOf(bufferSize, 0, reader)
  {
  }

  /** The four header states the unit tests check, with a ring of 10 bytes. */
  lemma TestedHeaderStates()
    ensures AvailableSpaceOf(10, 0, 0) == 9 && AvailableDataOf(10, 0, 0) == 0
    ensures AvailableSpaceOf(10, 5, 5) == 9 && AvailableDataOf(10, 5, 5) == 0
    ensures AvailableSpaceOf(10, 5, 0) == 4 && AvailableDataOf(10, 5, 0) == 5
    ensures AvailableSpaceOf(10, 0, 5) == 4 && AvailableDataOf(10, 0, 5) == 5
  {
  }

  /** A flag setter turns its own bit on, whatever was there before. */
  lemma SetFlagSetsIt(streamState: bv32, flag: bv32)
    ensures IsStateOf(streamState | flag, flag)
  {
  }

  /** A flag setter never clears a flag, and leaves every disjoint flag as it was. */
  lemma SetFlagKeepsOthers(streamState: bv32, flag: bv32, other: bv32)
    ensures IsStateOf(streamState, other) ==> IsStateOf(streamState | flag, other)
    ensures flag & other == 0 ==> (IsStateOf(streamState | flag, other) <==> IsStateOf(streamState, other))
  {
  }

  /** A zeroed header reports no flag. */
  lemma DefaultStateHasNoFlag()
    ensures !IsStateOf(0, WriterConnected) && !IsStateOf(0, ReaderConnected) && !IsStateOf(0, StreamFinished)
  {
  }

  /**
   * `SharedState`, the header struct as it lies in shared memory. The two
   * semaphore bytes are separate cells so that an `IPCSemaphore` can point at
   * one of them.
   */
  class SharedState {
    var bufferSize: U64
    var currentWriterIndex: U64
    var currentReaderIndex: U64
    var streamState: bv32
    const writerSemaphore: ByteCell
    const readerSemaphore: ByteCell

    /** `new SharedState()`: every field zero. */
    constructor ()
      ensures bufferSize == 0 && currentWriterIndex == 0 && currentReaderIndex == 0
      ensures streamState == 0
      ensures fresh(writerSemaphore) && fresh(readerSemaphore) && writerSemaphore != readerSemaphore
      ensures writerSemaphore.value == 0 && readerSemaphore.value == 0
    {
      bufferSize, currentWriterIndex, currentReaderIndex := 0, 0, 0;
      streamState := 0;
      writerSemaphore := new ByteCell(0);
      readerSemaphore := new ByteCell(0);
    }

    /** With the cursors the code keeps, the free space is what the queued data leaves of the capacity. */
    function GetAvailableSpace(): (space: U64)
      reads this
      ensures CursorsOk(bufferSize, currentWriterIndex, currentReaderIndex)
              ==> space + GetAvailableData() == bufferSize - 1
    {
      AvailableSpaceOf(bufferSize, currentWriterIndex, currentReaderIndex)
    }

    /** With the cursors the code keeps, the queued data is below the ring size and zero exactly on an empty ring. */
    function GetAvailableData(): (data: U64)
      reads this
      ensures CursorsOk(bufferSize, currentWriterIndex, currentReaderIndex) ==> data < bufferSize
      ensures CursorsOk(bufferSize, currentWriterIndex, currentReaderIndex)
              ==> (data == 0 <==> Norm(bufferSize, currentWriterIndex) == Norm(bufferSize, currentReaderIndex))
    {
      AvailableDataOf(bufferSize, currentWriterIndex, currentReaderIndex)
    }

    /** `IsState(state)`: `IsStateOf` on this header's flags. */
    predicate IsState(state: bv32)
      reads this
    {
      IsStateOf(streamState, state)
    }

    predicate IsWriterConnected()
      reads this
    {
      IsState(WriterConnected)
    }

    predicate IsReaderConnected()
      reads this
    {
      IsState(ReaderConnected)
    }

    predicate IsStreamFinished()
      reads this
    {
      IsState(StreamFinished)
    }

    /** The `IsWriterConnected` setter ORs its bit in and ignores the value assigned. */
    method SetWriterConnected(value: bool)
      modifies this`streamState
      ensures streamState == old(streamState) | WriterConnected
      ensures IsWriterConnected()
      ensures IsReaderConnected() == old(IsReaderConnected()) && IsStreamFinished() == old(IsStreamFinished())
    {
      streamState := streamState | WriterConnected;
    }

    /** The `IsReaderConnected` setter ORs its bit in and ignores the value assigned. */
    method SetReaderConnected(value: bool)
      modifies this`streamState
      ensures streamState == old(streamState) | ReaderConnected
      ensures IsReaderConnected()
      ensures IsWriterConnected() == old(IsWriterConnected()) && IsStreamFinished() == old(IsStreamFinished())
    {
      streamState := streamState | ReaderConnected;
    }

    /** The `IsStreamFinished` setter ORs its bit in and ignores the value assigned. */
    method SetStreamFinished(value: bool)
      modifies this`streamState
      ensures streamState == old(streamState) | StreamFinished
      ensures IsStreamFinished()
      ensures IsWriterConnected() == old(IsWriterConnected()) && IsReaderConnected() == old(IsReaderConnected())
    {
      streamState := streamState | StreamFinished;
    }
  }
}
