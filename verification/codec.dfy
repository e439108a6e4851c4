/**
  The byte-tensor string codec (`encode_string` / `decode_string`): a string
  tensor is a run of records, each a 4-byte little-endian `u32` length and
  that many raw bytes. There is no count prefix and no terminator; the end of
  the buffer ends the list.
 */
module Codec {
  import opened Native
  import LittleEndian
  import Utf8

  /** `(len as u32).to_le_bytes()`: the cast keeps only the low 32 bits of the length. */
  function LengthPrefix(len: nat): (r: Bytes)
    ensures |r| == 4
    ensures LittleEndian.Value(r) == len % U32_LIMIT
  {
    var n := len % U32_LIMIT;
    assert LittleEndian.Pow256(4) == U32_LIMIT;
    LittleEndian.ValueOfEncode(n, 4);
    LittleEndian.Encode(n, 4)
  }

  /** One record: the length prefix, then the payload, with no padding. */
  function Record(payload: Bytes): (r: Bytes)
    ensures |r| == 4 + |payload|
    ensures LittleEndian.Value(r[..4]) == |payload| % U32_LIMIT
    ensures r[4..] == payload
  {
    var r := LengthPrefix(|payload|) + payload;
    assert r[..4] == LengthPrefix(|payload|);
    r
  }

  /** `encode_string`: the record of the string's UTF-8 bytes. */
  function EncodeString(value: string): (r: Bytes)
    ensures |r| == 4 + |Utf8.Encode(value)|
    ensures LittleEndian.Value(r[..4]) == |Utf8.Encode(value)| % U32_LIMIT
    ensures r[4..] == Utf8.Encode(value)
  {
    Record(Utf8.Encode(value))
  }

  /** The records of several payloads, back to back. */
  function Records(payloads: seq<Bytes>): Bytes {
    if payloads == [] then [] else Record(payloads[0]) + Records(payloads[1..])
  }

  /** `encode_string(s1) ++ ... ++ encode_string(sn)`. */
  function EncodeAll(values: seq<string>): Bytes {
    if values == [] then [] else EncodeString(values[0]) + EncodeAll(values[1..])
  }

  /** A payload whose length survives the `u32` cast in its prefix. */
  predicate Representable(payload: Bytes) {
    |payload| < U32_LIMIT
  }

  /**
    The payloads `decode_string` reads, front to back, as its `while i < len`
    loop does: each step reads a 4-byte length `wide` and then `wide` bytes.
    Fewer than four bytes at a record start, or a length running past the end,
    is an out-of-bounds index: a panic, never an `Err`. A successful decode
    reproduces its input exactly when re-encoded.
   */
  function DecodeRecords(data: Bytes): (r: Res<seq<Bytes>>)
    ensures !r.Err?
    ensures data == [] ==> r == Ok([])
    ensures r.Ok? ==> Records(r.value) == data
    ensures r.Ok? ==> forall i :: 0 <= i < |r.value| ==> Representable(r.value[i])
    decreases |data|
  {
    if data == [] then Ok([])
    else if |data| < 4 then Panic(IndexOutOfBounds)
    else
      var wide := LittleEndian.Value(data[..4]);
      if 4 + wide > |data| then Panic(IndexOutOfBounds)
      else
        var rest :- DecodeRecords(data[4 + wide..]);
        var payload := data[4..4 + wide];
        RecordAtFront(data);
        RecordsCons(payload, rest);
        Ok([payload] + rest)
  }

  /** The bytes a decoding step reads form exactly the record of the payload it returns. */
  lemma RecordAtFront(data: Bytes)
    requires |data| >= 4 && 4 + LittleEndian.Value(data[..4]) <= |data|
    ensures var wide := LittleEndian.Value(data[..4]);
      Representable(data[4..4 + wide]) && Record(data[4..4 + wide]) + data[4 + wide..] == data
  {
    var wide := LittleEndian.Value(data[..4]);
    LittleEndian.ValueBound(data[..4]);
    assert LittleEndian.Pow256(4) == U32_LIMIT;
    LittleEndian.EncodeOfValue(data[..4]);
    assert LengthPrefix(wide) == data[..4];
  }

  lemma RecordsCons(payload: Bytes, rest: seq<Bytes>)
    ensures Records([payload] + rest) == Record(payload) + Records(rest)
  {
    assert ([payload] + rest)[1..] == rest;
  }

  /** A non-empty buffer that decodes starts with a whole record, whose payload is decoded first. */
  lemma FirstRecord(data: Bytes)
    requires data != [] && DecodeRecords(data).Ok?
    ensures |data| >= 4 && 4 + LittleEndian.Value(data[..4]) <= |data|
    ensures |DecodeRecords(data).value| > 0
    ensures DecodeRecords(data).value[0] == data[4..4 + LittleEndian.Value(data[..4])]
  {
  }

  /** `decode_string`: the payloads, each through `String::from_utf8_lossy`. */
  function DecodeString(data: Bytes): (r: Res<seq<string>>)
    ensures !r.Err?
    ensures r.Ok? <==> DecodeRecords(data).Ok?
    ensures r.Ok? ==> |r.value| == |DecodeRecords(data).value|
    ensures r.Ok? ==> forall i :: 0 <= i < |r.value| ==> r.value[i] == Utf8.DecodeLossy(DecodeRecords(data).value[i])
  {
    var payloads :- DecodeRecords(data);
    Ok(LossyAll(payloads))
  }

  /** Each payload through `String::from_utf8_lossy`, in order. */
  function LossyAll(payloads: seq<Bytes>): (r: seq<string>)
    ensures |r| == |payloads|
    ensures forall i :: 0 <= i < |payloads| ==> r[i] == Utf8.DecodeLossy(payloads[i])
  {
    if payloads == [] then [] else [Utf8.DecodeLossy(payloads[0])] + LossyAll(payloads[1..])
  }

  /** The UTF-8 bytes of each string, in order. */
  function Payloads(values: seq<string>): (r: seq<Bytes>)
    ensures |r| == |values|
  {
    if values == [] then [] else [Utf8.Encode(values[0])] + Payloads(values[1..])
  }

  /**
    One decoding step consumes exactly the 4 + len bytes of the leading
    record and emits its payload before everything decoded after it.
   */
  lemma DecodeLeadingRecord(payload: Bytes, rest: Bytes)
    requires Representable(payload)
    ensures DecodeRecords(Record(payload) + rest) ==
      if DecodeRecords(rest).Ok? then Ok([payload] + DecodeRecords(rest).value)
      else DecodeRecords(rest)
  {
    var data := Record(payload) + rest;
    assert data[..4] == Record(payload)[..4];
    var wide := LittleEndian.Value(data[..4]);
    assert wide == |payload|;
    assert data[4..4 + wide] == payload;
    assert data[4 + wide..] == rest;
  }

  /** Decoding the records of payloads that fit a `u32` length gives the payloads back. */
  lemma {:induction false} DecodeRecordsRoundTrip(payloads: seq<Bytes>)
    requires forall i :: 0 <= i < |payloads| ==> Representable(payloads[i])
    ensures DecodeRecords(Records(payloads)) == Ok(payloads)
  {
    if payloads != [] {
      DecodeRecordsRoundTrip(payloads[1..]);
      DecodeLeadingRecord(payloads[0], Records(payloads[1..]));
      assert [payloads[0]] + payloads[1..] == payloads;
    }
  }

  /** A buffer decodes without panicking exactly when it is a run of well-formed records. */
  lemma DecodeSucceedsIffFramed(data: Bytes)
    ensures DecodeRecords(data).Ok? <==>
      exists payloads: seq<Bytes> ::
        (forall i :: 0 <= i < |payloads| ==> Representable(payloads[i])) && Records(payloads) == data
  {
    if DecodeRecords(data).Ok? {
      var payloads := DecodeRecords(data).value;
      assert Records(payloads) == data;
    } else {
      forall payloads: seq<Bytes> |
        (forall i :: 0 <= i < |payloads| ==> Representable(payloads[i])) && Records(payloads) == data
        ensures false
      {
        DecodeRecordsRoundTrip(payloads);
      }
    }
  }

  lemma {:induction false} EncodeAllIsRecords(values: seq<string>)
    ensures EncodeAll(values) == Records(Payloads(values))
  {
    if values != [] {
      EncodeAllIsRecords(values[1..]);
      RecordsCons(Utf8.Encode(values[0]), Payloads(values[1..]));
    }
  }

  lemma {:induction false} PayloadsRepresentable(values: seq<string>)
    requires forall i :: 0 <= i < |values| ==> Representable(Utf8.Encode(values[i]))
    ensures forall i :: 0 <= i < |values| ==> Representable(Payloads(values)[i])
  {
    if values != [] {
      PayloadsRepresentable(values[1..]);
      forall i | 0 <= i < |values|
        ensures Representable(Payloads(values)[i])
      {
        if i > 0 {
          assert Payloads(values)[i] == Payloads(values[1..])[i - 1];
          assert values[1..][i - 1] == values[i];
        }
      }
    }
  }

  lemma {:induction false} LossyOfPayloads(values: seq<string>)
    ensures LossyAll(Payloads(values)) == values
  {
    if values != [] {
      var ps := Payloads(values);
      assert ps[1..] == Payloads(values[1..]);
      Utf8.DecodeEncode(values[0]);
      LossyOfPayloads(values[1..]);
      assert LossyAll(ps) == [values[0]] + values[1..];
    }
  }

  /**
    The string round trip: decoding the concatenated encodings of strings
    whose UTF-8 forms are shorter than 2^32 bytes gives the strings back.
   */
  lemma DecodeStringRoundTrip(values: seq<string>)
    requires forall i :: 0 <= i < |values| ==> Representable(Utf8.Encode(values[i]))
    ensures DecodeString(EncodeAll(values)) == Ok(values)
  {
    EncodeAllIsRecords(values);
    PayloadsRepresentable(values);
    DecodeRecordsRoundTrip(Payloads(values));
    LossyOfPayloads(values);
  }

  lemma CatBytes()
    ensures EncodeString("cat") == [3, 0, 0, 0, 0x63, 0x61, 0x74]
  {
    assert Utf8.Encode("cat") == [0x63, 0x61, 0x74] by {
      assert "cat"[1..] == "at" && "at"[1..] == "t" && "t"[1..] == "";
    }
    assert LengthPrefix(3) == [3, 0, 0, 0];
  }

  lemma DogsBytes()
    ensures EncodeString("dogs") == [4, 0, 0, 0, 0x64, 0x6F, 0x67, 0x73]
  {
    assert Utf8.Encode("dogs") == [0x64, 0x6F, 0x67, 0x73] by {
      assert "dogs"[1..] == "ogs" && "ogs"[1..] == "gs" && "gs"[1..] == "s" && "s"[1..] == "";
    }
    assert LengthPrefix(4) == [4, 0, 0, 0];
  }

  /** The worked example: `["cat", "dogs"]` encodes to fifteen bytes. */
  lemma CatDogsEncoded()
    ensures EncodeAll(["cat", "dogs"]) ==
      [3, 0, 0, 0, 0x63, 0x61, 0x74, 4, 0, 0, 0, 0x64, 0x6F, 0x67, 0x73]
  {
    CatBytes();
    DogsBytes();
    var values: seq<string> := ["cat", "dogs"];
    assert values[1..] == ["dogs"] && ["dogs"][1..] == [];
    assert EncodeAll(["dogs"]) == EncodeString("dogs") + EncodeAll([]);
    assert EncodeAll(values) == EncodeString("cat") + EncodeAll(["dogs"]);
  }

  /** ... and those fifteen bytes decode back to `["cat", "dogs"]`. */
  lemma CatDogsDecoded()
    ensures DecodeString([3, 0, 0, 0, 0x63, 0x61, 0x74, 4, 0, 0, 0, 0x64, 0x6F, 0x67, 0x73]) ==
      Ok(["cat", "dogs"])
  {
    CatBytes();
    DogsBytes();
    CatDogsEncoded();
    var values: seq<string> := ["cat", "dogs"];
    assert Representable(Utf8.Encode(values[0])) && Representable(Utf8.Encode(values[1]));
    DecodeStringRoundTrip(values);
  }
}
