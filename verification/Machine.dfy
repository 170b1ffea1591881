/** Machine integers and the error codes that the modelled functions return. */
module Machine {

  newtype u8 = x: int | 0 <= x < 256

  const U32_MAX: nat := 0xffff_ffff
  const U64_MAX: nat := 0xffff_ffff_ffff_ffff
  // No slice or vector is longer than this.
  const ISIZE_MAX: nat := 0x7fff_ffff_ffff_ffff

  // The most descriptors that one cross-domain message carries.
  const MAX_IDENTIFIERS: nat := 28

  type u32 = x: int | 0 <= x <= U32_MAX
  type u64 = x: int | 0 <= x <= U64_MAX

  /** An unchecked `+` or `*` on u64, which wraps around in a release build. */
  function Wrap64(x: nat): u64 {
    x % 0x1_0000_0000_0000_0000
  }

  /** An unchecked `*` on u32. */
  function Wrap32(x: nat): u32 {
    x % 0x1_0000_0000
  }

  function Max(a: nat, b: nat): nat {
    if a < b then b else a
  }

  function Min(a: nat, b: nat): nat {
    if a < b then a else b
  }

  datatype Option<+T> = None | Some(value: T)

  datatype Error =
    | CheckedRange
    | CheckedArithmetic
    | InvalidIovec
    | Invalid2DInfo
    | InvalidResourceId
    | InvalidGrallocDrmFormat
    | InvalidCommandBuffer
    | InvalidCommandSize
    | InvalidCommand
    | HandlerFailed
    | InvalidItemId
    | InvalidItemType
    | InvalidWriteLength
    | AlreadyInUse
    | WithContext
    | SystemCallFailed
    | Unsupported

  datatype Outcome = Ok | Err(error: Error)

  datatype Result<+T> = Success(value: T) | Failure(error: Error)

  /** A slice of a slice is a slice of the whole. */
  lemma SliceOfSlice<T>(b: seq<T>, at: nat, size: nat, i: nat, n: nat)
    requires at + size <= |b| && i + n <= size
    ensures b[at + i..at + i + n] == b[at..at + size][i..i + n]
  {
    var all, part := b[at..at + size], b[at + i..at + i + n];
    assert |all| == size;
    forall j | 0 <= j < n
      ensures part[j] == all[i..i + n][j]
    {
      assert part[j] == b[at + (i + j)] == all[i + j];
    }
  }
}
