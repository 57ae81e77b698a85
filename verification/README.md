# inter-process-stream, modelled in Dafny

This project models the core of inter-process-stream, a .NET library that
passes bytes between two processes through one shared memory segment. The
segment holds a `SharedState` header followed by a ring of
`bufferSize = capacity + 1` bytes. The header holds the ring size, a writer
cursor, a reader cursor, connection flags and two one-byte signals.

- `SharedRegion.Write` copies bytes in at the writer cursor, in at most two
  contiguous chunks per call.
- `SharedRegion.Read` copies bytes out at the reader cursor, the same way.
- Both signal the other side's `IPCSemaphore` after each chunk.
- `InterProcessStreamWriter` and `InterProcessStreamReader` are the two
  `Stream` ends. They loop over the region until the caller's whole range has
  gone through. They wait on the semaphore while the ring is full (writer) or
  empty (reader). Past a finite timeout they throw `TimeoutException`.

The modules follow the source files:

| module | file | what it holds |
|---|---|---|
| `Native` | (shared) | bytes, `ulong` with explicit wrap-around, `int`/`long` casts, the exceptions, `Option`/`Result`, a one-byte memory cell |
| `RingState` | `SharedState.cs` | the free-space and queued-data arithmetic, the flag bits, the `SharedState` class |
| `Semaphore` | `IPCSemaphore.cs` | the signal byte and its spin-then-sleep `Wait` |
| `Region` | `SharedRegion.cs` | the segment, the chunk arithmetic of `Write`/`Read`, the ring as a value (`Ring`, `Queue`), the `SharedRegion` class |
| `StreamWait` | both facades | the timeout budget of a wait, the outcome of a call, the environment of one wait |
| `StreamWriter` | `InterProcessStreamWriter.cs` | the writer class and its `ActualWrite` loop |
| `StreamReader` | `InterProcessStreamReader.cs` | the reader class and its `ActualRead` loop |
| `Scenarios` | the unit tests | each unit test replayed as a client of the contracts |

Central to the model is `SharedRegion.Contents()`: the bytes written and not
yet read, oldest first. It is the `AvailableData` bytes starting at the
reader's slot and going round the ring. `Write` is proved to append exactly
the bytes it reports to this queue. `Read` is proved to remove exactly the
bytes it copies out, from the front. So the ring is a FIFO queue.

Both stream loops are proved against the same queue. The other process is an
input to each call: a schedule says what it does at each wait. For the
writer, that is how many bytes the reader process reads. For the reader, it
is which bytes the writer process writes. The schedule also gives the
stopwatch reading at each wait. The other process acts through the region's
own `Read`/`Write`, so its progress follows the same contracts. A ghost
account then ties the outcome together: what was queued before the call plus
what went in equals what came out plus what is still queued, in order.

A call that needs more waits than its schedule provides ends as `Stalled`.
That stands for a call that is still blocked.

### Where the code is followed rather than the intended design

- `IPCSemaphore.CompareExchange` as written swaps a local copy of the byte's address
  and compares it with the address of its own parameter, so the swap never
  happens. It returns the current byte and stores nothing. `Wait` therefore
  never resets the signal. The byte behaves as a flag that stays set, not as
  an auto-reset event. The model keeps this (`Semaphore.IPCSemaphore.CompareExchange`,
  `Semaphore.IPCSemaphore.Wait`). No stream-level property depends on the
  signal being consumed.
- `(ulong)offset` and `(ulong)count` in the facades wrap negative `int`
  arguments to huge values (`Native.ToU64`). The corrected range check
  refuses such a range. The check as written lets through any range whose
  `ulong` sum wraps (see Findings). The reader's `(int)` cast of the total
  keeps the low 32 bits (`Native.ToInt32`).
- `Write` and `Read` of `SharedRegion`, and the stream methods built on them,
  use the corrected range check (`Region.OutOfRange`) and the corrected
  reader cursor (`Region.ReaderCursor`) of the Findings. The code as written
  is modelled beside them (`Region.OutOfRangeAsWritten`,
  `Region.ReaderCursorAsWritten`), with the inputs where the two differ.
- The client reader's `Length` is the ring's `BufferSize`, one more than the
  host's capacity. The host reader's `Length` is the capacity.
- The region's unit tests `TestWrite` and `TestWriteEndOfBuffer`
  (`TestSharedRegion.cs:26-51`, `80-108`) look for the bytes one slot later
  than where the code puts them. `Write` copies to `sharedBuffer + startIndex`
  and the first chunk starts at slot 0, while the tests read from
  `sharedData + 1`. The model follows the code. The scenarios state what the
  tests are about (the queue's contents and the counts), not slot positions.
- `Write` may leave the writer cursor at `bufferSize`, one past the last
  slot. The next chunk then starts at slot 0. The model allows this resting
  place (`RingState.CursorsOk`), so it does not state the check
  `index < bufferSize` that `TestReadWriteIndexOverflow` makes on the
  writer's cursor.

## Model

| member | source | states |
|---|---|---|
| Native.ToU64 | src/dotnet/InterProcessStream/InterProcessStreamWriter.cs:73-81 | `(ulong)x` keeps a non-negative `int` and sends a negative one to the top of the 64-bit range |
| Native.ToInt32 | src/dotnet/InterProcessStream/InterProcessStreamReader.cs:54-57 | `(int)x` of a `ulong` keeps values below 2^31 and otherwise agrees with `x` modulo 2^32 |
| Native.ToInt64 | src/dotnet/InterProcessStream/InterProcessStreamReader.cs:38-42 | `(long)x` keeps values up to `long.MaxValue` and wraps larger ones to negative |
| RingState.AvailableSpaceOf | src/dotnet/InterProcessStream/SharedState.cs:32-47 | `GetAvailableSpace` with unchecked `nuint` subtraction; for the cursors the code keeps, it plus the queued data is the capacity `bufferSize - 1` |
| RingState.AvailableDataOf | src/dotnet/InterProcessStream/SharedState.cs:49-59 | `GetAvailableData` with unchecked `nuint` arithmetic; for the cursors the code keeps, it is below `bufferSize` and zero exactly when both cursors denote the same slot |
| RingState.SharedState.GetAvailableSpace | src/dotnet/InterProcessStream/SharedState.cs:32-47 | the header's free space; with sound cursors, what the queued data leaves of the capacity |
| RingState.SharedState.GetAvailableData | src/dotnet/InterProcessStream/SharedState.cs:49-59 | the header's queued data; with sound cursors, below the ring size and zero exactly on an empty ring |
| RingState.IsStateOf | src/dotnet/InterProcessStream/SharedState.cs:61 | `IsState`: all bits of the flag are set, which holds exactly when OR-ing the flag in again changes nothing |
| RingState.SharedState.IsState | src/dotnet/InterProcessStream/SharedState.cs:61 | `IsStateOf` on the header's flags; no contract of its own (its meaning is `IsStateOf`'s) |
| RingState.SharedState.IsWriterConnected | src/dotnet/InterProcessStream/SharedState.cs:63-67 | the getter, `IsState(WriterConnected)`; what the setters and a zeroed header do to it is stated by `SetWriterConnected`, `SetFlagKeepsOthers` and `DefaultStateHasNoFlag` |
| RingState.SharedState.IsReaderConnected | src/dotnet/InterProcessStream/SharedState.cs:69-73 | the getter, `IsState(ReaderConnected)`; its behaviour under the setters is stated as for `IsWriterConnected` |
| RingState.SharedState.IsStreamFinished | src/dotnet/InterProcessStream/SharedState.cs:75-79 | the getter, `IsState(StreamFinished)`; its behaviour under the setters is stated as for `IsWriterConnected` |
| RingState.AvailableDataIsDistance | src/dotnet/InterProcessStream/SharedState.cs:49-59 | for cursors the code keeps, `GetAvailableData` is the distance from the reader's slot to the writer's modulo the ring, always below `bufferSize` |
| RingState.SpacePlusDataIsCapacity | src/dotnet/InterProcessStream/SharedState.cs:32-59 | free space plus queued data is always `bufferSize - 1`, the one slot kept free by the `- 1` |
| RingState.EmptyIffSameSlot | src/dotnet/InterProcessStream/SharedState.cs:32-59 | the ring reads empty (no data, all space) exactly when both cursors denote the same slot |
| RingState.EqualCursorsMeanEmpty | src/dotnet/InterProcessStream/SharedState.cs:32-59 | equal cursors read as an empty ring wherever they sit |
| RingState.SpaceExactIffShorterThanRing | src/dotnet/InterProcessStream/SharedState.cs:32-47 | with `reader <= writer`, `GetAvailableSpace` is the true free space exactly when the unread span is shorter than the ring; otherwise the unchecked subtraction wraps to a huge value |
| RingState.WriterAtEndActsAsZero | src/dotnet/InterProcessStream/SharedState.cs:32-59 | a writer cursor resting at `bufferSize` gives the same space and data as one at slot 0 |
| RingState.TestedHeaderStates | src/dotnet/InterProcessStream.Tests/TestSharedState.cs:22-114 | the four header states of the unit tests give the expected space and data |
| RingState.SetFlagSetsIt | src/dotnet/InterProcessStream/SharedState.cs:61-79 | after a flag setter ORs its bit in, the flag's getter reads true |
| RingState.SetFlagKeepsOthers | src/dotnet/InterProcessStream/SharedState.cs:61-79 | setting a flag never clears another, and leaves a disjoint flag as it was, both ways |
| RingState.DefaultStateHasNoFlag | src/dotnet/InterProcessStream.Tests/TestSharedState.cs:117-123 | a zeroed header reports none of the three flags |
| RingState.SharedState.constructor | src/dotnet/InterProcessStream/SharedState.cs:23-30 | a new header has every field zero, with two distinct signal bytes |
| RingState.SharedState.SetWriterConnected | src/dotnet/InterProcessStream/SharedState.cs:63-67 | the setter ORs the bit in whatever value is assigned; the flag then reads set and the other two are unchanged |
| RingState.SharedState.SetReaderConnected | src/dotnet/InterProcessStream/SharedState.cs:69-73 | the same for `ReaderConnected` |
| RingState.SharedState.SetStreamFinished | src/dotnet/InterProcessStream/SharedState.cs:75-79 | the same for `StreamFinished` |
| Semaphore.IPCSemaphore.constructor | src/dotnet/InterProcessStream/IPCSemaphore.cs:23-30 | binds to the byte; `true` writes SIGNALED, `false` writes NOT_SIGNALED, `null` leaves the byte alone |
| Semaphore.IPCSemaphore.CompareExchange | src/dotnet/InterProcessStream/IPCSemaphore.cs:16-21 | as written it returns the byte's current value and changes no existing memory |
| Semaphore.IPCSemaphore.Signal | src/dotnet/InterProcessStream/IPCSemaphore.cs:68-71 | the byte reads SIGNALED afterwards, whatever it held |
| Semaphore.IPCSemaphore.IsSignaled | src/dotnet/InterProcessStream/IPCSemaphore.cs:32 | the byte reads SIGNALED; `Signal`, `Wait` and the constructor state their effects through it or the byte itself |
| Semaphore.IPCSemaphore.Wait | src/dotnet/InterProcessStream/IPCSemaphore.cs:34-66 | the result is true exactly when the byte reads SIGNALED at the end; a byte already set returns at once; only the peer's signal changes the byte; a false result with the byte clear means the timeout passed or cancellation was requested; at most 500 spins, then sleeps of 1, 2, ... ms capped at 100 |
| Region.WriteChunk | src/dotnet/InterProcessStream/SharedRegion.cs:190-206 | the chunk `Write` plans from the header: with sound cursors, free space and bytes left, it is non-empty, no longer than what is left, inside the ring, and leaves the cursors sound |
| Region.WriteChunkFits | src/dotnet/InterProcessStream/SharedRegion.cs:190-216 | a `Write` chunk starts at the slot right after the queued data, fits the free space, and moves the writer that many slots round the ring |
| Region.ReadChunk | src/dotnet/InterProcessStream/SharedRegion.cs:236-252 | the chunk `Read` plans from the header: with sound cursors, queued data and bytes wanted, it is non-empty, no longer than what is wanted, inside the ring, and the corrected reader cursor leaves the cursors sound |
| Region.ReadChunkFits | src/dotnet/InterProcessStream/SharedRegion.cs:236-262 | a `Read` chunk starts at the reader's slot, takes no more than is queued, and moves the reader that many slots round the ring (corrected reader cursor, see Findings) |
| Region.ReaderCursorAsWritten | src/dotnet/InterProcessStream/SharedRegion.cs:262 | the `+=` update as written; without wrap-around it agrees with the corrected cursor exactly when the chunk started at the old cursor, and differs whenever the chunk went back to slot 0 |
| Region.ReaderCursor | src/dotnet/InterProcessStream/SharedRegion.cs:262 | the corrected update, just past the chunk copied (as `Write` does at line 216); `ReadChunk` proves it keeps the cursors sound |
| Region.OutOfRangeAsWritten | src/dotnet/InterProcessStream/SharedRegion.cs:298-305 | `AssertBufferSize` as written: `count + offset` summed with `ulong` wrap-around and compared with the length; `RangeCheckWrapsAsWritten` and `RangeChecksAgreeWithoutWrap` state how it relates to the corrected check |
| Region.OutOfRange | src/dotnet/InterProcessStream/SharedRegion.cs:298-305 | the corrected check, `offset + count` past the length without wrap-around; `Write` and `Read` fail exactly when it holds |
| Region.ReaderCursorLeavesRing | src/dotnet/InterProcessStream/SharedRegion.cs:262 | on the 11-slot ring of `TestReadWriteIndexOverflow`, the `+=` cursor update lands on 20, outside the ring, and a later read starts at slot 20; the corrected cursor lands on slot 9 |
| Region.RangeCheckWrapsAsWritten | src/dotnet/InterProcessStream/SharedRegion.cs:298-305 | the check as written lets offset 2^64 - 1 with count 1 through on a 16-byte buffer; the intended check refuses it |
| Region.RangeChecksAgreeWithoutWrap | src/dotnet/InterProcessStream/SharedRegion.cs:298-305 | the intended check refuses everything the written one refuses, and the two agree whenever `offset + count` does not wrap |
| Region.BufferSizeAsWritten | src/dotnet/InterProcessStream/SharedRegion.cs:102-139 | the ring size `CreateHost` writes for a `long` capacity: `capacity + 1` for the capacities `CreateHost` is meant for, 0 for -1, and past `long.MaxValue` for anything smaller |
| Region.NegativeCapacityAsWritten | src/dotnet/InterProcessStream/SharedRegion.cs:102-139 | with capacity -1 the ring has no slots, the header reports 2^64 - 1 free bytes, and a 10-byte `Write` plans 10 bytes at slot 0 |
| Region.MemoryCopy | src/dotnet/InterProcessStream/SharedRegion.cs:207-215 | `Buffer.MemoryCopy` overwrites exactly `count` bytes of the destination with the source range and leaves the rest |
| Region.PutStepAppends | src/dotnet/InterProcessStream/SharedRegion.cs:190-220 | one turn of `Write`'s loop appends the bytes it copies to the back of the queue and takes that much space |
| Region.TakeStepConsumes | src/dotnet/InterProcessStream/SharedRegion.cs:236-265 | one turn of `Read`'s loop copies out the front of the queue and removes exactly that (corrected reader cursor, see Findings) |
| Region.TakeStepExtends | src/dotnet/InterProcessStream/SharedRegion.cs:251-263 | a turn's chunk lands in the caller's buffer right after the bytes already read |
| Region.SharedRegion.constructor | src/dotnet/InterProcessStream/SharedRegion.cs:20-55 | maps the header and the ring of a formatted segment and clears both signal bytes |
| Region.SharedRegion.CreateHost | src/dotnet/InterProcessStream/SharedRegion.cs:102-143 | a fresh segment of `capacity + 1` slots plus the header, both cursors 0, no flags, empty queue, `capacity` bytes free; the ring size agrees with `BufferSizeAsWritten` for these capacities |
| Region.SharedRegion.CreateClient | src/dotnet/InterProcessStream/SharedRegion.cs:145-176 | opens an existing segment with a view sized from its header; the header's ring size, cursors and flags and the ring's bytes are unchanged, and both signal bytes are cleared |
| Region.SharedRegion.BufferSize | src/dotnet/InterProcessStream/SharedRegion.cs:62 | the ring size read from the header; `CreateHost` states it is `capacity + 1` |
| Region.SharedRegion.AvailableSpace | src/dotnet/InterProcessStream/SharedRegion.cs:195 | `GetAvailableSpace` of the mapped header; no contract of its own (its meaning is `GetAvailableSpace`'s) |
| Region.SharedRegion.AvailableData | src/dotnet/InterProcessStream/SharedRegion.cs:241 | `GetAvailableData` of the mapped header; no contract of its own (its meaning is `GetAvailableData`'s) |
| Region.SharedRegion.PutChunk | src/dotnet/InterProcessStream/SharedRegion.cs:190-220 | one turn of the loop: the ring becomes `PutStep` of the old ring and the writer's signal is set |
| Region.SharedRegion.TakeChunk | src/dotnet/InterProcessStream/SharedRegion.cs:236-266 | one turn of the loop: the ring becomes `TakeStep` of the old ring, the chunk lands in the buffer and the reader's signal is set (corrected reader cursor, see Findings) |
| Region.SharedRegion.WriteTurn | src/dotnet/InterProcessStream/SharedRegion.cs:190-220 | one turn of `Write`'s loop, with free space and bytes left: between 1 and the bytes left are copied, no more than the free space, the free space shrinks by that many, exactly the next bytes of the range join the back of the queue, and the writer's signal is set |
| Region.SharedRegion.Write | src/dotnet/InterProcessStream/SharedRegion.cs:183-223 | fails with `ArgumentOutOfRange` exactly when the range does not fit, changing nothing; otherwise returns `min(count, free space)` and exactly those bytes join the back of the queue; the writer's signal is set iff something was written (corrected range check and reader cursor, see Findings) |
| Region.SharedRegion.WriteAll | src/dotnet/InterProcessStream/SharedRegion.cs:178-181 | the whole array, appended as far as there is space (corrected range check and reader cursor, see Findings) |
| Region.SharedRegion.ReadTurn | src/dotnet/InterProcessStream/SharedRegion.cs:236-266 | one turn of `Read`'s loop, with queued data and bytes wanted: between 1 and the bytes wanted are copied, they leave the front of the queue and land in the caller's buffer right after the bytes already read, nothing else in it changes, and the reader's signal is set (corrected reader cursor, see Findings) |
| Region.SharedRegion.Read | src/dotnet/InterProcessStream/SharedRegion.cs:230-268 | fails exactly when the range does not fit, changing nothing; otherwise returns `min(count, queued)`, copies the front of the queue to the buffer at `offset` (the rest of the buffer untouched) and removes it; the reader's signal is set iff something was read (corrected range check and reader cursor, see Findings) |
| Region.SharedRegion.ReadAll | src/dotnet/InterProcessStream/SharedRegion.cs:225-228 | into the whole array, taking the front of the queue (corrected range check and reader cursor, see Findings) |
| Region.SharedRegion.WaitReader | src/dotnet/InterProcessStream/SharedRegion.cs:270-273 | waits on the reader's signal; the result says whether it is set, and only the peer can set it |
| Region.SharedRegion.WaitWriter | src/dotnet/InterProcessStream/SharedRegion.cs:275-278 | the same on the writer's signal |
| StreamWait.WaitBudget | src/dotnet/InterProcessStream/InterProcessStreamWriter.cs:92-104 | with a finite timeout, a stopwatch past it throws and otherwise the wait gets exactly the time left; `Timeout.Infinite` waits for `TimeSpan.MaxValue` |
| StreamWait.OracleAt | src/dotnet/InterProcessStream/InterProcessStreamWriter.cs:105 | the caller's cancellation is handed to the wait on the wait's own clock: a token already cancelled when the wait starts is cancelled at once, and a later cancellation falls at the same moment of the caller's stopwatch; the peer's signal is not an input of the wait |
| StreamWait.PastTimeoutStaysPast | src/dotnet/InterProcessStream/InterProcessStreamWriter.cs:92-104 | once a stopwatch that never runs backwards has passed a finite timeout, it is past it at the last wait too, where the timeout test throws |
| StreamWriter.InterProcessStreamWriter.constructor | src/dotnet/InterProcessStream/InterProcessStreamWriter.cs:11-19 | sets `IsWriterConnected` in the shared header and leaves the other flags; the timeout starts infinite |
| StreamWriter.InterProcessStreamWriter.CreateAsHost | src/dotnet/InterProcessStream/InterProcessStreamWriter.cs:21-25 | a fresh formatted segment that a client can open, empty with `capacity` bytes free; `Length` is `capacity`; only the writer flag is set |
| StreamWriter.InterProcessStreamWriter.Length | src/dotnet/InterProcessStream/InterProcessStreamWriter.cs:33 | the capacity given at creation, not the queued data; `CreateAsHost` states it |
| StreamWriter.InterProcessStreamWriter.WriteTimeout | src/dotnet/InterProcessStream/InterProcessStreamWriter.cs:47-51 | the timeout field; `SetWriteTimeout` states that it reads back the value set |
| StreamWriter.InterProcessStreamWriter.SetWriteTimeout | src/dotnet/InterProcessStream/InterProcessStreamWriter.cs:47-51 | the timeout becomes the value set, and `WriteTimeout` reads it back |
| StreamWriter.InterProcessStreamWriter.SetPosition | src/dotnet/InterProcessStream/InterProcessStreamWriter.cs:35-43 | setting `Position` always throws `InvalidOperationException` |
| StreamWriter.InterProcessStreamWriter.Read | src/dotnet/InterProcessStream/InterProcessStreamWriter.cs:58-61 | always throws `InvalidOperationException` |
| StreamWriter.InterProcessStreamWriter.Seek | src/dotnet/InterProcessStream/InterProcessStreamWriter.cs:63-66 | always throws `InvalidOperationException` |
| StreamWriter.InterProcessStreamWriter.SetLength | src/dotnet/InterProcessStream/InterProcessStreamWriter.cs:68-71 | always throws `InvalidOperationException` |
| StreamWriter.InterProcessStreamWriter.ActualWrite | src/dotnet/InterProcessStream/InterProcessStreamWriter.cs:83-114 | ends normally exactly when all `count` bytes went in; throws `ArgumentOutOfRange` only on a range that does not fit, before writing anything; throws `Timeout` only with a finite timeout, a full ring and the stopwatch past it; never times out with `Timeout.Infinite`; a range that fits the free space completes without waiting; the bytes sent followed what was queued, behind what the reader took meanwhile (corrected range check and reader cursor, see Findings) |
| StreamWriter.InterProcessStreamWriter.WriteTurn | src/dotnet/InterProcessStream/InterProcessStreamWriter.cs:88-113 | one turn of the loop keeps the FIFO account and the space account, and either stops with one of the three outcomes or makes progress (one more wait, or more bytes sent) |
| StreamWriter.InterProcessStreamWriter.AwaitSpace | src/dotnet/InterProcessStream/InterProcessStreamWriter.cs:90-106 | waits only when the ring is full; stops when the stopwatch is past the timeout or the schedule is used up; a turn without a wait leaves the ring alone |
| StreamWriter.InterProcessStreamWriter.WaitForReader | src/dotnet/InterProcessStream/InterProcessStreamWriter.cs:105 | the bytes the reader takes during the wait come off the front of the queue, so the account still balances |
| StreamWriter.InterProcessStreamWriter.WriteRest | src/dotnet/InterProcessStream/InterProcessStreamWriter.cs:107-112 | the region's `Write` of the rest of the range either fails on the first call with nothing changed, or appends the next bytes of the range and takes that much space |
| StreamWriter.FifoAfterWrite | src/dotnet/InterProcessStream/InterProcessStreamWriter.cs:107-112 | appending the next piece of the range to the queue extends both sides of the writer's account by it |
| StreamWriter.InterProcessStreamWriter.Write | src/dotnet/InterProcessStream/InterProcessStreamWriter.cs:73-76 | with the `int` arguments cast to `ulong` and no cancellation, completion means the range was valid and its bytes followed the old queue; a valid range that fits the free space completes without waiting; a timeout needs a finite timeout, a full ring and the stopwatch past it; with a stopwatch that never runs backwards and passes a finite timeout at some wait, the call does not stay blocked (corrected range check and reader cursor, see Findings) |
| StreamWriter.InterProcessStreamWriter.WriteAsync | src/dotnet/InterProcessStream/InterProcessStreamWriter.cs:78-81 | the same, with the caller's cancellation token at every wait (corrected range check and reader cursor, see Findings) |
| StreamReader.InterProcessStreamReader.constructor | src/dotnet/InterProcessStream/InterProcessStreamReader.cs:10-14 | records the region and `Length`; the timeout starts infinite and the header is not touched |
| StreamReader.InterProcessStreamReader.CreateAsHost | src/dotnet/InterProcessStream/InterProcessStreamReader.cs:44-48 | a fresh empty segment of `capacity + 1` slots with no flags set; `Length` is `capacity` |
| StreamReader.InterProcessStreamReader.CreateAsClient | src/dotnet/InterProcessStream/InterProcessStreamReader.cs:38-42 | opens the host's segment; `Length` is `(long)BufferSize`, one more than the host's capacity |
| StreamReader.InterProcessStreamReader.Length | src/dotnet/InterProcessStream/InterProcessStreamReader.cs:22 | the value recorded at creation, not the queued data; `CreateAsHost` and `CreateAsClient` state it |
| StreamReader.InterProcessStreamReader.ReadTimeout | src/dotnet/InterProcessStream/InterProcessStreamReader.cs:32-36 | the timeout field; `SetReadTimeout` states that it reads back the value set |
| StreamReader.InterProcessStreamReader.SetReadTimeout | src/dotnet/InterProcessStream/InterProcessStreamReader.cs:32-36 | the timeout becomes the value set, and `ReadTimeout` reads it back |
| StreamReader.InterProcessStreamReader.SetPosition | src/dotnet/InterProcessStream/InterProcessStreamReader.cs:24-28 | setting `Position` always throws `InvalidOperationException` |
| StreamReader.InterProcessStreamReader.Seek | src/dotnet/InterProcessStream/InterProcessStreamReader.cs:102-105 | always throws `NotImplementedException` |
| StreamReader.InterProcessStreamReader.SetLength | src/dotnet/InterProcessStream/InterProcessStreamReader.cs:107-110 | always throws `NotImplementedException` |
| StreamReader.InterProcessStreamReader.Write | src/dotnet/InterProcessStream/InterProcessStreamReader.cs:112-115 | always throws `InvalidOperationException` |
| StreamReader.InterProcessStreamReader.ActualRead | src/dotnet/InterProcessStream/InterProcessStreamReader.cs:67-100 | ends normally exactly when all `count` bytes arrived; the out-of-range and timeout cases as for the writer; a range no longer than the queued data completes without waiting; the bytes received are the front of the old queue followed by what the writer gave meanwhile, placed in the buffer from `offset` with the rest untouched (corrected range check and reader cursor, see Findings) |
| StreamReader.InterProcessStreamReader.ReadTurn | src/dotnet/InterProcessStream/InterProcessStreamReader.cs:72-97 | one turn of the loop keeps the FIFO account, the data account and the buffer's placement, and either stops or makes progress |
| StreamReader.InterProcessStreamReader.AwaitData | src/dotnet/InterProcessStream/InterProcessStreamReader.cs:74-90 | waits only when the ring is empty; stops when the stopwatch is past the timeout or the schedule is used up; a turn without a wait leaves the ring alone |
| StreamReader.InterProcessStreamReader.WaitForWriter | src/dotnet/InterProcessStream/InterProcessStreamReader.cs:89 | the bytes the writer adds during the wait join the back of the queue, so the account still balances |
| StreamReader.InterProcessStreamReader.ReadRest | src/dotnet/InterProcessStream/InterProcessStreamReader.cs:91-96 | the region's `Read` of the rest of the range either fails on the first call with nothing changed, or moves the next queued bytes into the buffer right after those already received |
| StreamReader.PlacedGrows | src/dotnet/InterProcessStream/InterProcessStreamReader.cs:91-96 | copying the next piece right after what is already in place is placing both |
| StreamReader.FifoAfterRead | src/dotnet/InterProcessStream/InterProcessStreamReader.cs:91-96 | moving the first bytes of the queue into what was received keeps the reader's account balanced |
| StreamReader.InterProcessStreamReader.Read | src/dotnet/InterProcessStream/InterProcessStreamReader.cs:54-57 | completion returns `count` and means the range was valid, its bytes are the front of the old queue (plus what arrived meanwhile), and the rest of the buffer is untouched; a valid range no longer than the queued data completes without waiting; with a stopwatch that never runs backwards and passes a finite timeout at some wait, the call does not stay blocked (corrected range check and reader cursor, see Findings) |
| StreamReader.InterProcessStreamReader.ReadAsync | src/dotnet/InterProcessStream/InterProcessStreamReader.cs:59-65 | the same, with the caller's cancellation token at every wait (corrected range check and reader cursor, see Findings) |
| Scenarios.RoundTrip | src/dotnet/InterProcessStream/SharedRegion.cs:183-268 | bytes written into an empty region and read back with a buffer of their size come back whole, leaving the region empty with the same free space |
| Scenarios.SameRingSameQueue | src/dotnet/InterProcessStream/SharedRegion.cs:145-176 | a client region over the host's segment sees the host's queue, whatever the host has done to it |
| Scenarios.WriteWithOffset | src/dotnet/InterProcessStream.Tests/TestSharedRegion.cs:26-51 | writing 4 bytes and then 4 bytes from offset 2 reports 4 and 4 and queues 1, 2, 3, 4, 7, 6, 5, 4 |
| Scenarios.ReadWithOffset | src/dotnet/InterProcessStream.Tests/TestSharedRegion.cs:54-76 | 4 bytes come back in order; read at offset 2 of 8 zero bytes they land in the middle |
| Scenarios.WriteEndOfBuffer | src/dotnet/InterProcessStream.Tests/TestSharedRegion.cs:80-108 | after 5 bytes in and out, 10 bytes wrap round the end of the ring and come back in order |
| Scenarios.WriteWithoutAvailableSpace | src/dotnet/InterProcessStream.Tests/TestSharedRegion.cs:111-129 | with 4 of 10 bytes used, a write of 10 takes 6 and a write into the full ring takes 0 |
| Scenarios.ReadWithoutAvailableData | src/dotnet/InterProcessStream.Tests/TestSharedRegion.cs:132-150 | a read from the empty ring gives 0; with 4 bytes queued a read of 10 gives those 4 and leaves the rest of the buffer zero |
| Scenarios.ReadWriteIndexOverflow | src/dotnet/InterProcessStream.Tests/TestSharedRegion.cs:153-203 | with the corrected reader cursor, after a fill, a drain and a second fill, the second drain reports 10 bytes and gives back the second batch whole |
| Scenarios.InvalidBufferSize | src/dotnet/InterProcessStream.Tests/TestSharedRegion.cs:206-231 | ranges past the end of a 5-byte buffer are refused by both `Write` and `Read` |
| Scenarios.SimpleTransfer | src/dotnet/InterProcessStream.Tests/TestInterProcessStream.cs:9-25 | a host writer's 10 bytes come out of a client reader whole, and both calls end normally |
| Scenarios.WriteTimeout | src/dotnet/InterProcessStream.Tests/TestInterProcessStream.cs:61-86 | with `WriteTimeout` 100 and no reader, writing 15 bytes into the 10-byte ring throws `TimeoutException` |
| Scenarios.ReadTimeout | src/dotnet/InterProcessStream.Tests/TestInterProcessStream.cs:89-114 | with `ReadTimeout` 100 and no writer, reading 20 bytes throws `TimeoutException` |

## Left out

- Creating and opening the segment by name is left out. This covers `MemoryMappedFile`, `/dev/shm`, the platform checks, view accessors and acquiring their base addresses. A client receives the host's segment object directly.
- `Dispose`, the finalizer and `ActualDispose` are left out: releasing OS handles has no effect on the stream's state.
- True concurrency is left out. Each call runs alone. The other process acts only during a wait, through the region's own `Read`/`Write`.
- `Stalled` is not an outcome of the code. It marks a call still blocked when its schedule of waits ran out.
- The clocks are whole milliseconds given as inputs. This covers the stopwatch, `SpinWait` and `Thread.Sleep`; tick-level rounding is not modelled, and neither is a sleep that lasts longer than requested.
- `Task.Run` in `WriteAsync`/`ReadAsync` is not modelled. Each call runs as the synchronous loop with the caller's cancellation token.
- `Flush` on both streams is not modelled: it does nothing.
- The `Position` getter and the `Can*` properties are constants of the classes.
- The writer's `WaitReader()` (`InterProcessStreamWriter.cs:116-129`) is left out. It spins until the reader flag is set, and it is only used by tests.
- Region.SharedRegion.Write, Region.SharedRegion.Read, Region.SharedRegion.WriteAll, Region.SharedRegion.ReadAll, StreamWriter.InterProcessStreamWriter.ActualWrite, StreamWriter.InterProcessStreamWriter.Write, StreamWriter.InterProcessStreamWriter.WriteAsync, StreamReader.InterProcessStreamReader.ActualRead, StreamReader.InterProcessStreamReader.Read, StreamReader.InterProcessStreamReader.ReadAsync, Region.ReadChunk, Region.ReadChunkFits, Region.TakeStepConsumes, Region.SharedRegion.TakeChunk, Region.SharedRegion.ReadTurn: these use the corrected range check or the corrected reader cursor `Region.OutOfRange` and `Region.ReaderCursor`, not the code as written. The as-written `+=` cursor and the wrapping range check are modelled only as header arithmetic (`Region.ReaderCursorAsWritten`, `Region.OutOfRangeAsWritten`), with the inputs that break them under Findings. The contracts of these members therefore do not describe the program on those inputs.
- Semaphore.IPCSemaphore.Wait: each sleep advances the clock by exactly the milliseconds requested, and each spin costs a fixed `spinMs`. `Thread.Sleep` may last longer than requested. The elapsed-time sum and the deadline bound in its contract describe the model's clock, not the program's.
- Region.SharedRegion.CreateHost, StreamWriter.InterProcessStreamWriter.CreateAsHost, StreamReader.InterProcessStreamReader.CreateAsHost: the capacity is a non-negative number. The code takes any `long`; a negative capacity is covered only by `Region.BufferSizeAsWritten` and `Region.NegativeCapacityAsWritten` (see Findings). A capacity so large that the segment's size overflows a `long` is also not accepted; there the memory-mapped file creation would fail, and that is not modelled.
- `TestLargerThanBufferTransfer` is not replayed: it needs the writer's contract to say how many bytes the reader takes at each wait, and the facade's contract does not expose that.
- The console test program is not part of this model.

## Findings

| source | as written | input that shows it | evidently intended | confidence | as-written member | corrected member |
|---|---|---|---|---|---|---|
| src/dotnet/InterProcessStream/SharedRegion.cs:262 | `Read` moves the reader cursor with `+=` the chunk's count, even when the chunk started at slot 0 after the wrap | the sequence of `TestReadWriteIndexOverflow` on an 11-slot ring (write 10, read 10, write 10, read 10) leaves the reader cursor at 20; a later write of 5 and read of 5 copy from slot 20, past the segment | the cursor goes just past the chunk, `startIndex + count`, as `Write` does for its cursor at line 216 | not executed | Region.ReaderCursorAsWritten, Region.ReaderCursorLeavesRing | Region.ReaderCursor, Region.TakeStepConsumes |
| src/dotnet/InterProcessStream/SharedRegion.cs:301 | `AssertBufferSize` adds `count + offset` in unchecked `ulong` | offset 2^64 - 1 (what `(ulong)(-1)` gives in the streams) with count 1 on a 16-byte buffer: the sum wraps to 0 and passes, and the copy then starts one byte before the buffer | refuse any range with `offset + count` past the buffer's length, computed without wrap | not executed | Region.OutOfRangeAsWritten, Region.RangeCheckWrapsAsWritten | Region.OutOfRange, Region.RangeChecksAgreeWithoutWrap |
| src/dotnet/InterProcessStream/SharedRegion.cs:105 | `CreateHost` computes the ring size as `capacity + 1` in unchecked `long` for any capacity, and stores it as `ulong` at line 139 | capacity -1: the ring size is 0, `GetAvailableSpace` reports 2^64 - 1 free bytes, and a first `Write` of 10 bytes is planned at slot 0 of a ring with no slots, past the segment | refuse a negative capacity, so the ring has at least one slot | not executed | Region.BufferSizeAsWritten, Region.NegativeCapacityAsWritten | Region.SharedRegion.CreateHost |
