/**
  Shared vocabulary of the adapter model: bytes and fixed-width integers,
  the host's nullable error handle, the result of a native call, and the
  three ways a Rust call of the adapter can end (a value, an `Err`, or a
  panic).

  Every native `TRITONBACKEND_*` / `TRITONSERVER_*` call is an oracle: the
  host objects of the other modules carry, as fields, what each call
  returns, so the model never needs pointers.
 */
module Native {

  type byte = x: int | 0 <= x < 0x100
  type Bytes = seq<byte>

  const U32_LIMIT: int := 0x1_0000_0000
  const U64_LIMIT: int := 0x1_0000_0000_0000_0000

  type u32 = x: int | 0 <= x < 0x1_0000_0000
  type u64 = x: int | 0 <= x < 0x1_0000_0000_0000_0000

  /** One more than `isize::MAX` on a 64-bit target: the largest allocation a `Vec` accepts is below it. */
  const ISIZE_LIMIT: int := 0x8000_0000_0000_0000

  /** `TRITONSERVER_ERROR_INTERNAL`, the only code the adapter ever creates errors with. */
  const ERROR_INTERNAL: u32 := 1

  datatype Option<+T> = None | Some(value: T) {
    function GetOr(default: T): T {
      match this
      case Some(v) => v
      case None => default
    }
  }

  /** A native error object: the host answers `TRITONSERVER_ErrorCode` with `code`. */
  datatype NativeError = NativeError(code: u32, message: string)

  /** The nullable `TRITONSERVER_Error*` every native call returns. */
  datatype ErrorPtr = Null | Ptr(error: NativeError)

  /** A native call that also fills an out-parameter: either the value, or the error handle it returned. */
  datatype Native<+T> = Returned(value: T) | Failed(error: NativeError) {
    function Status(): ErrorPtr {
      if Returned? then Null else Ptr(error)
    }
  }

  /** The crate's `Error` (a boxed `std::error::Error`), seen through its `to_string`. */
  datatype Error = Error(message: string)

  /** Why a Rust call panics instead of returning. */
  datatype PanicKind =
    | IndexOutOfBounds      // slice indexing past the end
    | InteriorNul           // `CString::new(..)` on text holding a NUL byte
    | UnwrapNone            // `Option::unwrap` on `None`
    | SliceLengthMismatch   // `copy_from_slice` between slices of different length
    | CapacityOverflow      // `Vec::with_capacity` asked for more than `isize::MAX` bytes

  /** How a call of the adapter ends: `Ok`, `Err`, or a panic that unwinds out of it. */
  datatype Res<+T> = Ok(value: T) | Err(error: Error) | Panic(kind: PanicKind) {
    predicate IsFailure() {
      !Ok?
    }

    function PropagateFailure<U>(): Res<U>
      requires !Ok?
    {
      if Err? then Err(error) else Panic(kind)
    }

    function Extract(): T
      requires Ok?
    {
      value
    }
  }

  const NUL: char := '\0'

  /** True when the text cannot become a C string: `CString::new` rejects it. */
  predicate HasNul(s: string) {
    NUL in s
  }
}
