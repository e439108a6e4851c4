# triton-rs adapter layer, modelled in Dafny

triton-rs lets a Rust crate be loaded as a backend plugin of the Triton
inference server. This project models the crate's ABI adapter layer, which
has five parts:

- **Error bridge.** `check_err` turns the host's nullable error handle into
  a Rust `Result`. `call_checked!` turns a hook's `Result` back into a handle.
- **Entry-point shim.** `declare_backend!` builds the seven `extern "C"`
  entry points from an implementation of the `Backend` trait.
- **Handle wrappers.** These are `Model` (its accessors and one-cell state
  slot), `Request`/`Input` (input lookup, buffer assembly, typed readers)
  and `Response`/`Output` (the send-or-delete life cycle, outputs and
  output buffers).
- **String-tensor codec.** `encode_string` and `decode_string` handle the
  length-prefixed wire format.
- **`tracing` bridge.** `TritonLogger::on_event` maps levels and gates
  events.

Every native `TRITONBACKEND_*` / `TRITONSERVER_*` call is an oracle. A host
object is a datatype whose fields hold what each call answers, either a
value or an error handle. Every operation is a pure function from such a
host object (and, for the model slot, to an updated one). A Rust call can
end in three ways, `Ok`, `Err` or a panic, and `Native.Res` keeps them
apart. So a panic (an out-of-bounds index, `CString::new` on text holding a
NUL, `unwrap` on `None`, `copy_from_slice` between different lengths) is
never confused with an `Err`.

Modules, one per file:

| file | module | models |
|---|---|---|
| native.dfy | `Native` | bytes, `u32`/`u64`, error handles, native-call results, `Res` |
| little_endian.dfy | `LittleEndian` | `from_le_bytes` / `to_le_bytes` |
| decimal.dfy | `Decimal` | the `{}` formatting of unsigned integers |
| utf8.dfy | `Utf8` | `str::bytes` and `String::from_utf8_lossy` |
| bridge.dfy | `Bridge` | `check_err` and the `check_err(..)?; Ok(out)` idiom |
| codec.dfy | `Codec` | `encode_string`, `decode_string` |
| backend.dfy | `Backend` | the trait defaults, `call_checked!`, `declare_backend!` |
| models.dfy | `Models` | `Model` accessors, `set_data` / `drop_data` / `data`, `path` |
| requests.dfy | `Requests` | `get_input`, `Input::buffer`, `as_u64`, `as_string` |
| responses.dfy | `Responses` | `Response::new`, `send`, `Drop`, `output`, `Output::buffer` |
| logging.dfy | `Logging` | the two level conversions and `on_event` |

Nothing here was executed. All statements below are proved by the verifier
about the model.

Three behaviours of the code that a reader might not expect:

- **Truncated input to `decode_string`.** A length-prefixed record that
  runs past the end of the buffer is indexed out of bounds and panics
  (triton-rs/src/lib.rs:38 and :44). `Codec.DecodeRecords` gives
  `Panic(IndexOutOfBounds)`; there is no decode error.
- **Memory kinds.** `raw_buffer` receives the memory kind of each region
  and never reads it (triton-rs/src/request.rs:44-61), so `Input::buffer`
  has no memory-kind error and neither has the model.
- **State type check.** `data::<D>()` compares `TypeId::of::<D>()` with
  itself (triton-rs/src/model.rs:73), so the check can never fail and
  `Models.Data` has no mismatch branch.

## Model

| member | source | states |
|---|---|---|
| Bridge.CheckErr | triton-rs/src/lib.rs:18-29 | null is `Ok`; a non-null handle is an `Err`, never a panic, whose message starts with the fixed text naming `TRITONBACKEND_ModelInstanceModel` and ends in decimal digits that read back as the handle's code |
| Bridge.Checked | triton-rs/src/lib.rs:18-29 | the accessor idiom: the out-value is returned exactly when the call returned no error, otherwise `check_err`'s error |
| Bridge.CheckErrSeparatesCodes | triton-rs/src/lib.rs:18-29 | two failing handles give equal results exactly when their codes are equal: the code is the only thing the message keeps |
| Decimal.ParseShow | triton-rs/src/lib.rs:21-24 | the decimal rendering of a number is all digits and reads back as that number |
| LittleEndian.ValueOfEncode | triton-rs/src/lib.rs:61 | `to_le_bytes` then `from_le_bytes` gives back every value below 256^width |
| LittleEndian.EncodeOfValue | triton-rs/src/lib.rs:38 | reading bytes as a little-endian number and writing it back gives the same bytes |
| Utf8.DecodeEncode | triton-rs/src/lib.rs:45 | `from_utf8_lossy` of a string's own UTF-8 bytes gives the string back, with no replacement characters |
| Codec.LengthPrefix | triton-rs/src/lib.rs:61-62 | the prefix is 4 bytes whose little-endian value is the length modulo 2^32 (the `as u32` truncation) |
| Codec.EncodeString | triton-rs/src/lib.rs:54-70 | exactly 4 + the UTF-8 length bytes: the truncated length, little-endian, then the string's bytes with no padding |
| Codec.DecodeRecords | triton-rs/src/lib.rs:31-52 | never `Err`; `[]` decodes to `[]`; a successful decode re-encodes to exactly its input, and every payload's length fits a `u32` |
| Codec.DecodeString | triton-rs/src/lib.rs:31-52 | never `Err`; succeeds exactly when the framing decodes, with one string per record, each the lossy decoding of that record's payload |
| Codec.DecodeLeadingRecord | triton-rs/src/lib.rs:35-49 | one loop step consumes exactly 4 + len bytes and emits that payload ahead of everything decoded after it |
| Codec.DecodeRecordsRoundTrip | triton-rs/src/lib.rs:31-70 | decoding the records of payloads shorter than 2^32 bytes gives the payloads back |
| Codec.DecodeSucceedsIffFramed | triton-rs/src/lib.rs:31-52 | a buffer decodes without panicking exactly when it is a run of well-formed records |
| Codec.DecodeStringRoundTrip | triton-rs/src/lib.rs:31-70 | `decode_string` of the concatenated `encode_string`s of strings whose UTF-8 forms are shorter than 2^32 bytes is `Ok` of those strings |
| Codec.CatDogsEncoded | triton-rs/src/lib.rs:54-70 | `["cat", "dogs"]` encodes to `03 00 00 00 63 61 74 04 00 00 00 64 6F 67 73` |
| Codec.CatDogsDecoded | triton-rs/src/lib.rs:31-52 | those fifteen bytes decode to `["cat", "dogs"]` |
| Backend.WithDefaults | triton-rs/src/backend.rs:3-81 | an implementation overriding only the mandatory execute hook answers every other entry point with the null handle: all six defaults are `Ok(())` |
| Backend.CallChecked | triton-rs/src/backend.rs:83-99 | `Ok` becomes null; an `Err` becomes an INTERNAL error carrying exactly the error's text, unless the text has a NUL, which panics with `InteriorNul`; a hook's panic passes through with its own kind |
| Backend.CheckErrOfCallChecked | triton-rs/src/backend.rs:83-99 | across the boundary and back, success stays success and an error stays an error, seen with the INTERNAL code |
| Backend.WrapRequests | triton-rs/src/backend.rs:165-169 | `count` wrappers, the k-th holding the host array's k-th pointer |
| Backend.Enter | triton-rs/src/backend.rs:101-174 | no hook runs exactly when execute's model lookup fails, and then that same handle is returned; model hooks get a wrapper of their pointer; execute gets the looked-up model and `request_count` wrappers in array order |
| Backend.EnterReturnsCheckedHook | triton-rs/src/backend.rs:104-171 | whenever a hook runs, the entry point returns `call_checked!` of that hook's outcome on the arguments it received |
| Backend.EnterUsesOnlyItsHook | triton-rs/src/backend.rs:101-174 | each entry point depends only on its own hook, and an execute whose lookup fails depends on no hook |
| Backend.EnterIgnoresBackendAndInstance | triton-rs/src/backend.rs:104-148 | the backend and instance pointers passed in never affect the result |
| Models.Name | triton-rs/src/model.rs:24-30 | the host's name, or `check_err` of the host's error |
| Models.Version | triton-rs/src/model.rs:81-85 | the host's version, or `check_err` of the host's error |
| Models.Location | triton-rs/src/model.rs:87-96 | the repository location, or `check_err` of the host's error |
| Models.Path | triton-rs/src/model.rs:98-105 | succeeds exactly when both queries do; a location failure wins over a version failure; the result starts with the location and ends with `/` and the file name |
| Models.PathRecoversVersion | triton-rs/src/model.rs:98-105 | the text between the location and the file name is `/` and then the decimal digits of the version |
| Models.DropData | triton-rs/src/model.rs:45-56 | corrected `drop_data`: never panics and frees nothing itself; succeeds exactly when the state read works and, if the slot is full, the clear works; it returns the slot's old contents and leaves it empty; on failure nothing changes and the error is the read's, or else the clear's |
| Models.DropDataAsWritten | triton-rs/src/model.rs:45-56 | `drop_data` as written: never panics; succeeds exactly when the state read works and returns the old contents; a read failure is that error with nothing changed; the slot is never refilled, but stays full exactly when it was full and the clear fails |
| Models.DropDataAsWrittenReclaimsTwice | triton-rs/src/model.rs:48-53 | when the host's clear fails, two successive as-written `drop_data` calls hand back the same stored object |
| Models.DropDataTakesOnce | triton-rs/src/model.rs:45-56 | after a successful `drop_data`, another returns `Ok(None)` and changes nothing |
| Models.SetDataAsWritten | triton-rs/src/model.rs:32-43 | `set_data` as written: never panics; succeeds exactly when the state read and the store work, whatever the clear answers; then the slot holds exactly the new object; the old object is freed exactly when the read works; a read failure changes nothing; a failed store leaves the slot empty, or still pointing at the freed object when the clear also failed |
| Models.SetData | triton-rs/src/model.rs:32-43 | corrected `set_data`: never panics; succeeds exactly when the read, the clear of a full slot, and the store all work; then the slot holds exactly the new object; the old object is freed only when the corrected `drop_data` succeeded, and a freed object is never left in the slot; a failed `drop_data` changes nothing and is the error |
| Models.SetDataAgreesWhenStatusesAgree | triton-rs/src/model.rs:32-56 | when the host answers the clear and the store alike, the as-written and corrected `set_data` give the same result and the same model |
| Models.SetDataAsWrittenLeavesFreedInSlot | triton-rs/src/model.rs:36-41 | with a full slot, a failing clear and a failing store, the code frees the old object yet leaves the slot pointing at it; the corrected one frees nothing and changes nothing |
| Models.SetDataAsWrittenIgnoresFailedClear | triton-rs/src/model.rs:36-41 | with a full slot, a failing clear and a working store, the code reports success; the corrected one reports the clear's error and changes nothing |
| Models.Data | triton-rs/src/model.rs:58-79 | the slot's contents (`None` when empty), or the read's error; it never fails with a type mismatch |
| Models.SetThenData | triton-rs/src/model.rs:32-79 | after a successful `set_data(x)` as written, `data` returns `Some(x)` |
| Models.SetThenDropTwice | triton-rs/src/model.rs:32-56 | after a successful corrected `set_data(x)`, `drop_data` returns `Some(x)` once and `None` the next time when the host's clear works, and otherwise fails with the clear's error leaving `x` in place |
| Requests.GetInput | triton-rs/src/request.rs:22-31 | a name with a NUL panics before the host is asked; otherwise the host's input, or `check_err` of its error |
| Requests.Gather | triton-rs/src/request.rs:67-74 | never panics; succeeds exactly when every region fetches, giving the regions end to end in index order; otherwise fails with the lowest failing region's error |
| Requests.GatherUsesOnlyRegions | triton-rs/src/request.rs:67-74 | the assembled buffer depends only on the region fetches |
| Requests.Buffer | triton-rs/src/request.rs:63-76 | panics with a capacity overflow exactly when the count is not 1 and `byte_size` is at least 2^63; otherwise succeeds exactly when the properties and all regions fetch; the bytes are the regions concatenated, their length the sum of the region lengths; the view is borrowed exactly when the count is 1; a failure is the properties error, or else the lowest failing region's error |
| Requests.BufferIgnoresByteSize | triton-rs/src/request.rs:68 | below 2^63, or with a single region, `byte_size` is only a capacity hint: changing it changes nothing |
| Requests.BufferPanicsOverCapacity | triton-rs/src/request.rs:68 | with more or fewer than one region and a `byte_size` of 2^63 or more, `Vec::with_capacity` panics before any region is fetched |
| Codec.FirstRecord | triton-rs/src/lib.rs:35-48 | when non-empty bytes decode, the first record's prefix fits and the first payload is the bytes after it up to the prefix's length |
| Requests.FirstString | triton-rs/src/request.rs:78-83 | never `Err`; panics exactly when there are no bytes (`unwrap`) or the framing panics; otherwise the lossy decoding of the first record's payload |
| Requests.AsString | triton-rs/src/request.rs:78-83 | fails exactly when the buffer fails; panics exactly when the buffer panics, is empty or is mis-framed; otherwise the lossy decoding of the buffer's first record's payload |
| Requests.FirstStringOfEncoded | triton-rs/src/request.rs:78-83 | bytes holding encoded strings give the first of them, or an `unwrap` panic when there are none |
| Requests.AsU64 | triton-rs/src/request.rs:85-92 | panics exactly when the buffer panics (capacity overflow) or is not 8 bytes (length mismatch); otherwise the value whose little-endian bytes are the buffer |
| Requests.AsU64OfEncoded | triton-rs/src/request.rs:85-92 | a buffer holding the 8 little-endian bytes of `n` reads back as `n` |
| Responses.New | triton-rs/src/response.rs:21-30 | an unsent response holding the host's pointer, or `check_err` of its error |
| Responses.Drop | triton-rs/src/response.rs:68-78 | deletes exactly when not sent; a failed delete is logged, not reported |
| Responses.Send | triton-rs/src/response.rs:59-65 | exactly one native call, a send with the FINAL flag, and no delete afterwards; succeeds exactly when the send does |
| Responses.ExactlyOneTerminalCall | triton-rs/src/response.rs:59-78 | each created response gets exactly one terminal call for its own pointer: a send if sent, a delete if dropped |
| Responses.DimsCount | triton-rs/src/response.rs:49 | the dimension count is the shape's length when that fits a `u32` |
| Responses.NewOutput | triton-rs/src/response.rs:38-54 | a NUL in the name panics; otherwise the host declares the output with the shape and its length as `dims_count`, or fails with its error |
| Responses.OutputBuffer | triton-rs/src/response.rs:92-108 | a slice of exactly `size` bytes at the host's address, or the host's error |
| Logging.FromTracing | triton-rs/src/log.rs:40-50 | the three upper levels map one to one; DEBUG and TRACE both become Verbose |
| Logging.ToNative | triton-rs/src/log.rs:52-63 | each level maps to the native constant of the same meaning |
| Logging.ToNativeInjective | triton-rs/src/log.rs:52-63 | the four native constants are distinct |
| Logging.FromTracingMonotone | triton-rs/src/log.rs:40-50 | the mapping never reorders severities |
| Logging.AsI32 | triton-rs/src/log.rs:74 | `line as i32` is the value congruent to the line modulo 2^32 within the `i32` range |
| Logging.OnEvent | triton-rs/src/log.rs:66-92 | a message is emitted exactly when the mapped level is enabled; an enabled event with a NUL in its file name or text panics; otherwise one message at that level, with the file falling back to the target and the line to 0 |
| Logging.OnEventRecoversLine | triton-rs/src/log.rs:74-84 | the `i32` line the host receives, cast back to `u32`, is the event's line, or 0 when it has none |

## Left out

- The native library itself. Each call is an oracle field, so pointers,
  `slice::from_raw_parts`, lifetimes and the borrowed-versus-owned memory
  of the returned slices are not modelled. `Requests.View` records only
  which of the two `buffer` returns.
- `tritonserver.h` is not part of this model. The constants taken from it
  are `TRITONSERVER_ERROR_INTERNAL` = 1, `TRITONSERVER_RESPONSE_COMPLETE_FINAL` = 1
  and the log levels INFO = 0, WARN = 1, ERROR = 2, VERBOSE = 3.
- `Input::properties`, `Input::raw_buffer`, `Request::as_ptr` and the
  `from_ptr` constructors. They are single native calls or pointer wrapping,
  so they appear only as oracle fields and wrapper datatypes.
- Memory kinds: `raw_buffer` receives a memory kind and never looks at it.
- `ModelConfig` (triton-rs/src/model.rs:117-187). It wraps the host's JSON
  serializer and `serde_json`.
- `Model::load_file`. It is filesystem I/O.
- The layout of the stored state box. `set_data` stores a `Box<D>`, while
  `drop_data` rebuilds a `Box<Box<dyn Any>>` from the same pointer. The slot
  is kept abstract, so this reinterpretation is not modelled.
- Message formatting in `on_event`. The `PrettyVisitor` rendering of an
  event is the `message` parameter of `Logging.OnEvent`.
- What the host does with a logged line, and the `error!` side channel of
  `Drop`. `Responses.Drop` only records that it logs.
- Side effects of plugin hooks on host state. A hook is a function from its
  arguments to its outcome.
- Concurrency: the adapter has no shared mutable state of its own.
- The example backend and the `triton-sys` build script.
- Models.Name: `to_string_lossy` of the host's C string is not modelled. The
  host's answer is taken to be the string itself.
- Models.Location: the same applies, and the artifact type the call also
  returns is not modelled because the code never reads it.
- Requests.Buffer: only the `isize::MAX` capacity panic of
  `Vec::with_capacity` is modelled; an allocation that is reservable in
  principle but fails at run time aborts the process, which is not
  modelled.
- Models.SetData: the object `x` boxed by `Box::into_raw` before a failing
  store is leaked; the model has no notion of ownership to show the leak.
- Models.DropData: both calls of `TRITONBACKEND_ModelSetState` are oracle
  fields of their own, `clearStatus` for the clear with null and
  `storeStatus` for the store, so a host may answer them differently.
- Codec.DecodeRecords: on a 64-bit target, `i + wide` cannot overflow
  `usize`, so the model adds without wrap-around.
- Bridge.CheckErr: the error handle returned by the host is not freed by
  `check_err` (the crate leaks it), and the model has no notion of
  ownership to show this.

## Findings

| source | as written | input that shows it | evidently intended | confidence | as-written member | corrected member |
|---|---|---|---|---|---|---|
| triton-rs/src/model.rs:51 | `drop_data` discards the status of `TRITONBACKEND_ModelSetState(ptr, null)`, yet still returns the rebuilt box | a host whose state read works, whose slot holds an object, and whose `ModelSetState` fails: the box is returned and freed by its owner, the slot still points at it, and the next `drop_data` rebuilds and frees it again | clear the slot with a checked call and hand the object back only once the clear has succeeded | not executed | Models.DropDataAsWritten, Models.DropDataAsWrittenReclaimsTwice | Models.DropData, Models.DropDataTakesOnce |
| triton-rs/src/model.rs:36-41 | `set_data` runs the as-written `drop_data`, so the unchecked clear reaches it | a host whose state read works, whose slot holds an object, and whose clear fails: with a working store the failure is hidden and `Ok(())` returned; with a failing store the old object is freed while the slot still points at it | propagate the clear's failure before anything is freed or stored | not executed | Models.SetDataAsWritten, Models.SetDataAsWrittenLeavesFreedInSlot, Models.SetDataAsWrittenIgnoresFailedClear | Models.SetData, Models.SetDataAgreesWhenStatusesAgree, Models.SetThenDropTwice |
