/**
  `Request` and `Input`: named input lookup, and assembly of an input
  tensor's bytes from the regions the host holds them in, with the two
  typed readers built on it (`as_u64`, `as_string`).

  The region fetch `raw_buffer(i)` is the host oracle `region(i)`. The
  memory kind the host reports with each region is never inspected by the
  code, so it is not part of the model.
 */
module Requests {
  import opened Native
  import Bridge
  import Codec
  import LittleEndian

  /** What `TRITONBACKEND_InputProperties` reports (the shape itself is not read). */
  datatype InputProperties = InputProperties(
    name: string, dataType: u32, dimsCount: u32, byteSize: u64, bufferCount: u32)

  /** What the host answers for one input pointer. */
  datatype Input = Input(
    properties: Native<InputProperties>,  // TRITONBACKEND_InputProperties
    region: nat -> Native<Bytes>)         // TRITONBACKEND_InputBuffer(index)

  /** What the host answers for one request pointer: `TRITONBACKEND_RequestInput(name)`. */
  datatype Request = Request(input: string -> Native<Input>)

  /**
    `get_input(name)`: a name holding a NUL byte panics in `CString::new`
    before the host is asked; a failed lookup is the host's error.
   */
  function GetInput(req: Request, name: string): (r: Res<Input>)
    ensures r.Panic? <==> HasNul(name)
    ensures r.Panic? ==> r.kind == InteriorNul
    ensures r.Ok? <==> !HasNul(name) && req.input(name).Returned?
    ensures r.Ok? ==> r.value == req.input(name).value
    ensures r.Err? ==> Err(r.error) == Bridge.CheckErr(req.input(name).Status())
  {
    if HasNul(name) then Panic(InteriorNul) else Bridge.Checked(req.input(name))
  }

  /** Regions `0 .. count - 1` can all be fetched. */
  ghost predicate Fetched(input: Input, count: nat) {
    forall i :: 0 <= i < count ==> input.region(i).Returned?
  }

  /** The contents of regions `0 .. count - 1`, in index order. */
  ghost function Regions(input: Input, count: nat): (parts: seq<Bytes>)
    requires Fetched(input, count)
    ensures |parts| == count
    ensures forall i :: 0 <= i < count ==> parts[i] == input.region(i).value
  {
    if count == 0 then [] else Regions(input, count - 1) + [input.region(count - 1).value]
  }

  /** The parts joined end to end, in order. */
  ghost function Flatten(parts: seq<Bytes>): Bytes {
    if parts == [] then [] else Flatten(parts[..|parts| - 1]) + parts[|parts| - 1]
  }

  /** The total size of the parts. */
  ghost function TotalSize(parts: seq<Bytes>): nat {
    if parts == [] then 0 else TotalSize(parts[..|parts| - 1]) + |parts[|parts| - 1]|
  }

  lemma {:induction false} FlattenSize(parts: seq<Bytes>)
    ensures |Flatten(parts)| == TotalSize(parts)
  {
    if parts != [] {
      FlattenSize(parts[..|parts| - 1]);
    }
  }

  /** The lowest-numbered region among `0 .. count - 1` whose fetch fails. */
  ghost function FirstFailure(input: Input, count: nat): (k: nat)
    requires !Fetched(input, count)
    ensures k < count && Fetched(input, k) && input.region(k).Failed?
  {
    if !Fetched(input, count - 1) then FirstFailure(input, count - 1) else count - 1
  }

  /**
    The multi-region branch of `buffer()`: fetch regions `0 .. count - 1` in
    index order and append each one. The first fetch that fails aborts the
    whole assembly with that region's error; no partial bytes are returned.
   */
  function Gather(input: Input, count: nat): (r: Res<Bytes>)
    ensures !r.Panic?
    ensures r.Ok? <==> Fetched(input, count)
    ensures r.Ok? ==> r.value == Flatten(Regions(input, count))
    ensures r.Err? ==> Err(r.error) == Bridge.CheckErr(input.region(FirstFailure(input, count)).Status())
  {
    if count == 0 then Ok([])
    else
      var front := Gather(input, count - 1);
      if !front.Ok? then
        assert FirstFailure(input, count) == FirstFailure(input, count - 1);
        front
      else
        match input.region(count - 1)
        case Failed(e) =>
          assert FirstFailure(input, count) == count - 1;
          Bridge.CheckErr(Ptr(e)).PropagateFailure()
        case Returned(last) =>
          FlattenRegionsStep(input, count);
          Ok(front.value + last)
  }

  lemma FlattenRegionsStep(input: Input, count: nat)
    requires 0 < count && Fetched(input, count)
    ensures Flatten(Regions(input, count)) == Flatten(Regions(input, count - 1)) + input.region(count - 1).value
  {
    assert Regions(input, count)[..count - 1] == Regions(input, count - 1);
  }

  /** What `Gather` yields depends on the region fetches alone. */
  lemma {:induction false} GatherUsesOnlyRegions(a: Input, b: Input, count: nat)
    requires a.region == b.region
    ensures Gather(a, count) == Gather(b, count)
  {
    if count > 0 {
      GatherUsesOnlyRegions(a, b, count - 1);
      assert a.region(count - 1) == b.region(count - 1);
    }
  }

  /** The bytes of an input, and whether they are the host's own region or a copy. */
  datatype View = Borrowed(bytes: Bytes) | Owned(bytes: Bytes)

  /**
    The multi-region branch first reserves `byte_size` bytes with
    `Vec::with_capacity`, which panics on a request above `isize::MAX`
    before any region is fetched.
   */
  predicate OverCapacity(props: InputProperties) {
    props.bufferCount != 1 && props.byteSize >= ISIZE_LIMIT
  }

  /**
    `buffer()`: with exactly one region, that region's bytes are returned
    borrowed, without a copy; with any other count, including zero, the
    regions are copied end to end into an owned buffer. The declared
    `byte_size` only sizes the allocation and is never checked against the
    regions.
   */
  function Buffer(input: Input): (r: Res<View>)
    ensures r.Panic? <==> input.properties.Returned? && OverCapacity(input.properties.value)
    ensures r.Panic? ==> r.kind == CapacityOverflow
    ensures r.Ok? <==>
      && input.properties.Returned?
      && !OverCapacity(input.properties.value)
      && Fetched(input, input.properties.value.bufferCount)
    ensures input.properties.Failed? ==> Err(r.error) == Bridge.CheckErr(input.properties.Status())
    ensures (input.properties.Returned? && !OverCapacity(input.properties.value) &&
             !Fetched(input, input.properties.value.bufferCount)) ==>
      Err(r.error) == Bridge.CheckErr(input.region(FirstFailure(input, input.properties.value.bufferCount)).Status())
    ensures r.Ok? ==>
      && r.value.bytes == Flatten(Regions(input, input.properties.value.bufferCount))
      && |r.value.bytes| == TotalSize(Regions(input, input.properties.value.bufferCount))
      && (r.value.Borrowed? <==> input.properties.value.bufferCount == 1)
  {
    var props :- Bridge.Checked(input.properties);
    if props.bufferCount == 1 then
      assert !Fetched(input, 1) ==> FirstFailure(input, 1) == 0;
      var only :- Bridge.Checked(input.region(0));
      assert Regions(input, 1) == [only];
      assert Flatten([only]) == Flatten([]) + only;
      FlattenSize(Regions(input, 1));
      Ok(Borrowed(only))
    else if props.byteSize >= ISIZE_LIMIT then
      Panic(CapacityOverflow)
    else
      var all :- Gather(input, props.bufferCount);
      FlattenSize(Regions(input, props.bufferCount));
      Ok(Owned(all))
  }

  /**
    `byte_size` is a capacity hint: among sizes a `Vec` can reserve, inputs
    differing only in it give the same buffer; with a single region it is
    not read at all.
   */
  lemma BufferIgnoresByteSize(input: Input, size: u64)
    requires input.properties.Returned?
    requires input.properties.value.bufferCount == 1 ||
      (size < ISIZE_LIMIT && input.properties.value.byteSize < ISIZE_LIMIT)
    ensures Buffer(input.(properties := Returned(input.properties.value.(byteSize := size)))) == Buffer(input)
  {
    var resized := input.(properties := Returned(input.properties.value.(byteSize := size)));
    GatherUsesOnlyRegions(resized, input, input.properties.value.bufferCount);
  }

  /** A declared size a `Vec` cannot reserve makes a multi-region buffer panic, whatever the regions hold. */
  lemma BufferPanicsOverCapacity(input: Input)
    requires input.properties.Returned? && input.properties.value.bufferCount != 1
    requires input.properties.value.byteSize >= ISIZE_LIMIT
    ensures Buffer(input) == Panic(CapacityOverflow)
  {
  }

  /**
    `as_u64()`: the buffer must be exactly eight bytes (`copy_from_slice`
    panics otherwise) and is read as a little-endian `u64`.
   */
  function AsU64(input: Input): (r: Res<u64>)
    ensures r.Ok? ==> Buffer(input).Ok? && LittleEndian.Encode(r.value, 8) == Buffer(input).value.bytes
    ensures r.Panic? <==> Buffer(input).Panic? || (Buffer(input).Ok? && |Buffer(input).value.bytes| != 8)
    ensures r.Panic? ==> r.kind == if Buffer(input).Panic? then CapacityOverflow else SliceLengthMismatch
    ensures r.Err? <==> Buffer(input).Err?
  {
    var view :- Buffer(input);
    if |view.bytes| != 8 then Panic(SliceLengthMismatch)
    else
      LittleEndian.ValueBound(view.bytes);
      assert LittleEndian.Pow256(8) == U64_LIMIT;
      LittleEndian.EncodeOfValue(view.bytes);
      Ok(LittleEndian.Value(view.bytes))
  }

  /**
    The decoding half of `as_string()`: the first string `decode_string`
    finds, which is the lossy decoding of the first record's payload.
    Decoding never fails with an `Err`; bytes that are not a run of records
    panic inside `decode_string`, and bytes that decode to no strings at
    all, which is only the empty buffer, panic in `unwrap`.
   */
  function FirstString(bytes: Bytes): (r: Res<string>)
    ensures !r.Err?
    ensures r.Panic? <==> bytes == [] || Codec.DecodeRecords(bytes).Panic?
    ensures bytes == [] ==> r == Panic(UnwrapNone)
    ensures r.Ok? ==>
      && |bytes| >= 4
      && 4 + LittleEndian.Value(bytes[..4]) <= |bytes|
      && r.value == Codec.Utf8.DecodeLossy(bytes[4..4 + LittleEndian.Value(bytes[..4])])
  {
    var strings :- Codec.DecodeString(bytes);
    if |strings| == 0 then
      assert bytes == [] by {
        assert Codec.DecodeRecords(bytes).value == [];
      }
      Panic(UnwrapNone)
    else
      Codec.FirstRecord(bytes);
      Ok(strings[0])
  }

  /** `as_string()`: the first string encoded in the input's buffer. */
  function AsString(input: Input): (r: Res<string>)
    ensures r.Err? <==> Buffer(input).Err?
    ensures r.Panic? <==> (Buffer(input).Panic? ||
      (Buffer(input).Ok? && (Buffer(input).value.bytes == [] || Codec.DecodeRecords(Buffer(input).value.bytes).Panic?)))
    ensures r.Ok? ==> (Buffer(input).Ok? &&
      var b := Buffer(input).value.bytes;
      && |b| >= 4
      && 4 + LittleEndian.Value(b[..4]) <= |b|
      && r.value == Codec.Utf8.DecodeLossy(b[4..4 + LittleEndian.Value(b[..4])]))
    ensures Buffer(input).Ok? ==> r == FirstString(Buffer(input).value.bytes)
  {
    var view :- Buffer(input);
    FirstString(view.bytes)
  }

  /** Bytes holding encoded strings decode to the first of them. */
  lemma FirstStringOfEncoded(values: seq<string>)
    requires forall i :: 0 <= i < |values| ==> Codec.Representable(Codec.Utf8.Encode(values[i]))
    ensures values != [] ==> FirstString(Codec.EncodeAll(values)) == Ok(values[0])
    ensures values == [] ==> FirstString(Codec.EncodeAll(values)) == Panic(UnwrapNone)
  {
    Codec.DecodeStringRoundTrip(values);
  }

  /** An input whose bytes are the eight-byte little-endian form of `n` reads back as `n`. */
  lemma AsU64OfEncoded(input: Input, n: u64)
    requires Buffer(input).Ok? && Buffer(input).value.bytes == LittleEndian.Encode(n, 8)
    ensures AsU64(input) == Ok(n)
  {
    assert LittleEndian.Pow256(8) == U64_LIMIT;
    LittleEndian.ValueOfEncode(n, 8);
  }
}
