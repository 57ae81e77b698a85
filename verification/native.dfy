/**
 * Machine-level building blocks shared by every module: bytes, the 64-bit
 * unsigned integers the shared header is made of (with the wrap-around of
 * unchecked `ulong` arithmetic written out), 32-bit signed integers of the
 * stream API, the exceptions the code throws, and one byte of memory that
 * several objects can point at.
 */
module Native {

  const TWO_TO_THE_64: int := 0x1_0000_0000_0000_0000
  const TWO_TO_THE_31: int := 0x8000_0000
  /** `long.MaxValue`. */
  const INT64_MAX: int := 0x7FFF_FFFF_FFFF_FFFF

  type Byte = x: int | 0 <= x < 256

  /** `ulong` / `nuint` on a 64-bit process. */
  type U64 = x: int | 0 <= x < TWO_TO_THE_64

  /** `long`, the type of capacities. */
  type Int64 = x: int | -INT64_MAX - 1 <= x <= INT64_MAX

  /** `int`, the type of offsets, counts and timeouts of the `Stream` API. */
  type Int32 = x: int | -TWO_TO_THE_31 <= x < TWO_TO_THE_31

  /** Unchecked `a - b` on `ulong`: wraps below zero. */
  function Sub64(a: U64, b: U64): U64 {
    if a >= b then a - b else a - b + TWO_TO_THE_64
  }

  /** Unchecked `a + b` on `ulong`: wraps past 2^64 - 1. */
  function Add64(a: U64, b: U64): U64 {
    if a + b < TWO_TO_THE_64 then a + b else a + b - TWO_TO_THE_64
  }

  /** The cast `(ulong)x` of an `int`: a negative value wraps to the top of the range. */
  function ToU64(x: Int32): (r: U64)
    ensures x >= 0 ==> r == x
    ensures x < 0 ==> r >= TWO_TO_THE_64 - TWO_TO_THE_31
  {
    if x >= 0 then x else x + TWO_TO_THE_64
  }

  /** The unchecked cast `(int)x` of a `ulong`: keeps the low 32 bits, read as two's complement. */
  function ToInt32(x: U64): (r: Int32)
    ensures x < TWO_TO_THE_31 ==> r == x
    ensures r % 0x1_0000_0000 == x % 0x1_0000_0000
  {
    var low := x % 0x1_0000_0000;
    if low < TWO_TO_THE_31 then low else low - 0x1_0000_0000
  }

  /** The unchecked cast `(long)x` of a `ulong`: values past `long.MaxValue` wrap to negative. */
  function ToInt64(x: U64): (r: int)
    ensures -INT64_MAX - 1 <= r <= INT64_MAX
    ensures r % TWO_TO_THE_64 == x % TWO_TO_THE_64
    ensures x <= INT64_MAX ==> r == x
    ensures x > INT64_MAX ==> r < 0
  {
    if x <= INT64_MAX then x else x - TWO_TO_THE_64
  }

  function Min(a: int, b: int): int {
    if a <= b then a else b
  }

  /** The exceptions thrown by the modelled code. */
  datatype StreamError =
    | ArgumentOutOfRange   // ArgumentOutOfRangeException
    | InvalidOperation     // InvalidOperationException
    | NotImplemented       // NotImplementedException
    | Timeout              // TimeoutException

  datatype Option<+T> = None | Some(value: T)

  datatype Result<+T> = Success(value: T) | Failure(error: StreamError)

  /** One byte of shared memory; an object holding a `ByteCell` holds a `byte*`. */
  class ByteCell {
    var value: Byte

    constructor (value: Byte)
      ensures this.value == value
    {
      this.value := value;
    }
  }
}
