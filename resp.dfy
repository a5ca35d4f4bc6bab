/** The RESP2 value model: the typed values (`RespType`), the decoder's
    error taxonomy (`ParseError`) and the decoder's result type. */
module Resp {
  import opened Bytes
  import opened Utf8
  import opened IntText
  import opened Wrappers

  /** Why decoding failed. */
  datatype ParseError =
    | UnexpectedEof        // no line terminator, or fewer bytes than a bulk size announces
    | FromUtf8Error        // a line is not valid UTF-8
    | ParseIntError        // an integer or size line is not an `i64`
    | UnexpectedByte(b: uint8) // the tag byte is none of `+ - : $ *`
    | UnforeseenError      // defensive; never produced (see Decoder.FromBytes)

  /** Rust's `Result<T, ParseError>`, usable with `:-` as Rust uses `?`. */
  datatype Result<+T> = Ok(value: T) | Err(error: ParseError) {
    predicate IsFailure()
    {
      Err?
    }

    function PropagateFailure<U>(): Result<U>
      requires Err?
    {
      Err(error)
    }

    function Extract(): T
      requires Ok?
    {
      value
    }
  }

  /** One RESP2 value. */
  datatype RespType =
    | SimpleString(s: Utf8String)
    | Error(s: Utf8String)
    | Integer(n: i64)
    | BulkString(bulk: Option<seq<uint8>>)
    | Array(items: seq<RespType>)

  /** The tag bytes. */
  const SIMPLE_STRING_TAG: uint8 := 43 // '+'
  const ERROR_TAG: uint8 := 45         // '-'
  const INTEGER_TAG: uint8 := 58       // ':'
  const BULK_STRING_TAG: uint8 := 36   // '$'
  const ARRAY_TAG: uint8 := 42         // '*'

  predicate IsTag(b: uint8)
  {
    b == SIMPLE_STRING_TAG || b == ERROR_TAG || b == INTEGER_TAG
    || b == BULK_STRING_TAG || b == ARRAY_TAG
  }

  /** The values the wire format can carry and give back unchanged: simple
      strings and errors without a `\r\n` inside (the terminator would end
      them early), and bulk strings and arrays whose lengths fit the `i64`
      that the decoder parses sizes into. */
  predicate WellFormed(v: RespType)
  {
    match v
    case SimpleString(s) => !HasCrlf(s)
    case Error(s) => !HasCrlf(s)
    case Integer(_) => true
    case BulkString(bulk) => bulk.None? || |bulk.value| <= I64_MAX
    case Array(items) =>
      |items| <= I64_MAX && forall i | 0 <= i < |items| :: WellFormed(items[i])
  }
}
