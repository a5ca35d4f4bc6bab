/** The two operations of the source that work step by step: the element
    loop of `read_array`, which reassigns the rest of the buffer and pushes
    onto a vector, and `as_bytes`, which extends a byte vector. Each is
    proved to compute its functional specification. */
module Codec {
  import opened Bytes
  import opened IntText
  import opened Resp
  import opened Decoder
  import opened Encoder

  /** `items` in front of the values of a decoding result; errors pass through. */
  ghost function Prefixed(items: seq<RespType>, r: Result<(seq<uint8>, seq<RespType>)>): Result<(seq<uint8>, seq<RespType>)>
  {
    match r
    case Ok(decoded) => Ok((decoded.0, items + decoded.1))
    case Err(e) => Err(e)
  }

  lemma PrefixedNothing(r: Result<(seq<uint8>, seq<RespType>)>)
    ensures Prefixed([], r) == r
  {
    if r.Ok? {
      assert [] + r.value.1 == r.value.1;
    }
  }

  lemma PrefixedTwice(a: seq<RespType>, b: seq<RespType>, r: Result<(seq<uint8>, seq<RespType>)>)
    ensures Prefixed(a, Prefixed(b, r)) == Prefixed(a + b, r)
  {
    if r.Ok? {
      assert a + (b + r.value.1) == (a + b) + r.value.1;
    }
  }

  /** One turn of the element loop. */
  lemma ReadItemsStep(bytes: seq<uint8>, n: nat)
    requires n > 0
    ensures FromBytes(bytes).Err? ==> ReadItems(bytes, n) == Err(FromBytes(bytes).error)
    ensures FromBytes(bytes).Ok? ==>
      ReadItems(bytes, n) == Prefixed([FromBytes(bytes).value.1], ReadItems(FromBytes(bytes).value.0, n - 1))
  {
  }

  /** Decoder.ReadArray is the count line followed by the element loop. */
  lemma ReadArrayUnfold(bytes: seq<uint8>)
    ensures ReadSizeLine(bytes).Err? ==> Decoder.ReadArray(bytes) == Err(ReadSizeLine(bytes).error)
    ensures ReadSizeLine(bytes).Ok? ==>
      var sizeRead := ReadSizeLine(bytes).value;
      var size := sizeRead.1;
      var items := ReadItems(sizeRead.0, if size < 0 then 0 else size);
      Decoder.ReadArray(bytes) == if items.Ok? then Ok((items.value.0, Array(items.value.1))) else Err(items.error)
  {
  }

  /** `read_array`: reads the count line, then decodes `count` values in a
      loop, each from the rest the previous one left, returning at the
      first error. Computes Decoder.ReadArray. */
  method ReadArray(bytes: seq<uint8>) returns (r: Result<(seq<uint8>, RespType)>)
    ensures r == Decoder.ReadArray(bytes)
    ensures r.Ok? ==> IsProperSuffix(r.value.0, bytes)
  {
    ReadArrayUnfold(bytes);
    var sizeRead :- ReadSizeLine(bytes);
    var rest, size := sizeRead.0, sizeRead.1;
    var count: nat := if size < 0 then 0 else size;
    var items: seq<RespType> := [];
    PrefixedNothing(ReadItems(rest, count));
    for i := 0 to count
      invariant ReadItems(sizeRead.0, count) == Prefixed(items, ReadItems(rest, count - i))
    {
      ReadItemsStep(rest, count - i);
      var decoded :- FromBytes(rest);
      PrefixedTwice(items, [decoded.1], ReadItems(decoded.0, count - i - 1));
      rest := decoded.0;
      items := items + [decoded.1];
    }
    assert ReadItems(rest, 0) == Ok((rest, []));
    assert items + [] == items;
    assert ReadItems(sizeRead.0, count) == Ok((rest, items));
    r := Ok((rest, Array(items)));
  }

  /** `as_bytes`: builds the frame of `v` by extending a byte vector, and
      for an array appends each item's frame in turn. Computes Encoder.Encode. */
  method AsBytes(v: RespType) returns (bytes: seq<uint8>)
    ensures bytes == Encode(v)
    decreases v
  {
    match v
    case SimpleString(s) =>
      bytes := [SIMPLE_STRING_TAG] + s + CRLF;
    case Error(s) =>
      bytes := [ERROR_TAG] + s + CRLF;
    case Integer(n) =>
      bytes := [INTEGER_TAG] + Decimal(n) + CRLF;
    case BulkString(bulk) =>
      if bulk.Some? {
        bytes := [BULK_STRING_TAG] + Decimal(|bulk.value|) + CRLF;
        bytes := bytes + bulk.value;
        bytes := bytes + CRLF;
      } else {
        bytes := NULL_BULK_STRING;
      }
    case Array(items) =>
      var header := [ARRAY_TAG] + Decimal(|items|) + CRLF;
      bytes := header;
      for i := 0 to |items|
        invariant bytes == header + EncodeAll(items[..i])
      {
        var itemBytes := AsBytes(items[i]);
        EncodeAllSnoc(items[..i], items[i]);
        assert items[..i + 1] == items[..i] + [items[i]];
        bytes := bytes + itemBytes;
      }
      assert items[..|items|] == items;
  }
}
