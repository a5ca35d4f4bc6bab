/** The wire bytes of a value (what `RespType::as_bytes` produces), as a
    function; Codec.AsBytes computes them the way the source does. */
module Encoder {
  import opened Bytes
  import opened IntText
  import opened Resp

  /** `$-1\r\n`, the null bulk string. */
  const NULL_BULK_STRING: seq<uint8> := [BULK_STRING_TAG, MINUS_SIGN, ZERO + 1, CR, LF]

  /** The frame of one value: the tag byte, then
      - for `SimpleString(s)` / `Error(s)`: `s` and `\r\n`;
      - for `Integer(n)`: the decimal text of `n` and `\r\n`;
      - for `BulkString(None)`: `-1\r\n`;
      - for `BulkString(Some(b))`: the decimal length of `b`, `\r\n`, `b`, `\r\n`;
      - for `Array(xs)`: the decimal count of `xs`, `\r\n`, then the frames of
        the items, in order. */
  function Encode(v: RespType): seq<uint8>
  {
    match v
    case SimpleString(s) => [SIMPLE_STRING_TAG] + s + CRLF
    case Error(s) => [ERROR_TAG] + s + CRLF
    case Integer(n) => [INTEGER_TAG] + Decimal(n) + CRLF
    case BulkString(bulk) =>
      if bulk.Some? then [BULK_STRING_TAG] + Decimal(|bulk.value|) + CRLF + bulk.value + CRLF
      else NULL_BULK_STRING
    case Array(items) => [ARRAY_TAG] + Decimal(|items|) + CRLF + EncodeAll(items)
  }

  /** The frames of `items`, one after another. */
  function EncodeAll(items: seq<RespType>): seq<uint8>
  {
    if |items| == 0 then [] else Encode(items[0]) + EncodeAll(items[1..])
  }

  /** The frames of a non-empty sequence: the first frame, then the others. */
  lemma EncodeAllCons(items: seq<RespType>, tail: seq<uint8>)
    requires |items| > 0
    ensures EncodeAll(items) + tail == Encode(items[0]) + (EncodeAll(items[1..]) + tail)
  {
  }

  /** Appending one item appends its frame. */
  lemma {:induction false} EncodeAllSnoc(items: seq<RespType>, x: RespType)
    ensures EncodeAll(items + [x]) == EncodeAll(items) + Encode(x)
  {
    if |items| == 0 {
      assert items + [x] == [x];
    } else {
      assert (items + [x])[1..] == items[1..] + [x];
      EncodeAllSnoc(items[1..], x);
    }
  }

  /** The null bulk string is the size line of size `-1` and nothing else. */
  lemma NullBulkIsSizeLine()
    ensures NULL_BULK_STRING == [BULK_STRING_TAG] + Decimal(-1) + CRLF
  {
  }
}
