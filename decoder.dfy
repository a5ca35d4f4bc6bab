/** The RESP2 decoder (`RespType::from_bytes` and its helpers): a
    recursive-descent parser that dispatches on the tag byte and returns the
    decoded value together with the unconsumed rest of the input. */
module Decoder {
  import opened Bytes
  import opened Utf8
  import opened IntText
  import opened Wrappers
  import opened Resp
  import opened Sequences

  /** The index of the first two-byte window `\r\n` at or after `from`
      (`bytes.windows(2).position(...)` when `from` is 0). */
  function CrlfPosition(bytes: seq<uint8>, from: nat): (r: Option<nat>)
    ensures r.Some? ==>
      from <= r.value && r.value + 1 < |bytes| && IsCrlfAt(bytes, r.value)
      && forall j: nat | from <= j < r.value :: !IsCrlfAt(bytes, j)
    ensures r.None? ==> forall j: nat | from <= j && j + 1 < |bytes| :: !IsCrlfAt(bytes, j)
    decreases |bytes| - from
  {
    if from + 1 >= |bytes| then None
    else if IsCrlfAt(bytes, from) then Some(from)
    else CrlfPosition(bytes, from + 1)
  }

  /** `read_line`: the bytes before the first `\r\n` and the bytes after
      it, as `(remaining, line)`; `UnexpectedEof` when there is no `\r\n`. */
  function ReadLine(bytes: seq<uint8>): (r: Result<(seq<uint8>, seq<uint8>)>)
    ensures r.Ok? <==> HasCrlf(bytes)
    ensures r.Ok? ==>
      r.value.1 + CRLF + r.value.0 == bytes && !HasCrlf(r.value.1)
      && IsProperSuffix(r.value.0, bytes)
    ensures r.Err? ==> r.error == UnexpectedEof
  {
    match CrlfPosition(bytes, 0)
    case Some(p) =>
      var line := bytes[..p];
      assert forall j: nat | j + 1 < p :: IsCrlfAt(line, j) == IsCrlfAt(bytes, j);
      assert line + CRLF + bytes[p + 2..] == bytes;
      Ok((bytes[p + 2..], line))
    case None => Err(UnexpectedEof)
  }

  /** `String::from_utf8`, with its error mapped to `FromUtf8Error`. */
  function FromUtf8(line: seq<uint8>): Result<Utf8String>
  {
    if ValidUtf8(line) then Ok(line) else Err(FromUtf8Error)
  }

  /** `parse::<i64>`, with its error mapped to `ParseIntError`. */
  function ParseInt(text: Utf8String): Result<i64>
  {
    match ParseI64(text)
    case Some(n) => Ok(n)
    case None => Err(ParseIntError)
  }

  /** The size line that starts a bulk string or an array: a line, valid
      UTF-8, holding an `i64`. Returns `(remaining, size)`. */
  function ReadSizeLine(bytes: seq<uint8>): (r: Result<(seq<uint8>, i64)>)
    ensures r.Ok? ==> IsProperSuffix(r.value.0, bytes)
    ensures r.Err? ==> r.error in {UnexpectedEof, FromUtf8Error, ParseIntError}
  {
    var lineRead :- ReadLine(bytes);
    var text :- FromUtf8(lineRead.1);
    var size :- ParseInt(text);
    Ok((lineRead.0, size))
  }

  /** `read_string`: one line, as a `SimpleString`. */
  function ReadString(bytes: seq<uint8>): (r: Result<(seq<uint8>, RespType)>)
    ensures r.Ok? ==>
      r.value.1.SimpleString? && r.value.1.s + CRLF + r.value.0 == bytes
      && !HasCrlf(r.value.1.s) && IsProperSuffix(r.value.0, bytes)
    ensures r.Err? ==> r.error in {UnexpectedEof, FromUtf8Error}
  {
    var lineRead :- ReadLine(bytes);
    var text :- FromUtf8(lineRead.1);
    Ok((lineRead.0, SimpleString(text)))
  }

  /** `read_bulk_string`: a size line, then that many payload bytes taken
      verbatim, then two bytes that are skipped without being checked.
      Size `-1` is the null bulk string. A size below `-1` is reported as
      `UnexpectedEof` (see README, "Left out"). */
  function ReadBulkString(bytes: seq<uint8>): (r: Result<(seq<uint8>, RespType)>)
    ensures r.Ok? ==>
      r.value.1.BulkString? && WellFormed(r.value.1) && IsProperSuffix(r.value.0, bytes)
    ensures r.Err? ==> r.error in {UnexpectedEof, FromUtf8Error, ParseIntError}
  {
    var sizeRead :- ReadSizeLine(bytes);
    var remaining, size := sizeRead.0, sizeRead.1;
    if size == -1 then Ok((remaining, BulkString(None)))
    else if size < -1 then Err(UnexpectedEof)
    else if |remaining| < size + 2 then Err(UnexpectedEof)
    else
      SuffixTransitive(remaining[size + 2..], remaining, bytes);
      Ok((remaining[size + 2..], BulkString(Some(remaining[..size]))))
  }

  /** `read_array`: a count line, then that many values decoded one after
      another, each from the rest the previous one left. A negative count
      gives the empty array. Returns `(remaining, Array(items))`. */
  function ReadArray(bytes: seq<uint8>): (r: Result<(seq<uint8>, RespType)>)
    ensures r.Ok? ==>
      r.value.1.Array? && WellFormed(r.value.1) && IsProperSuffix(r.value.0, bytes)
    ensures r != Err(UnforeseenError)
    decreases |bytes|, 0
  {
    var sizeRead :- ReadSizeLine(bytes);
    var remaining, size := sizeRead.0, sizeRead.1;
    var items :- ReadItems(remaining, if size < 0 then 0 else size);
    SuffixTransitive(items.0, remaining, bytes);
    Ok((items.0, Array(items.1)))
  }

  /** The element loop of `read_array`: decodes `n` values in order, each
      from the rest the previous one left, and stops at the first error. */
  function ReadItems(bytes: seq<uint8>, n: nat): (r: Result<(seq<uint8>, seq<RespType>)>)
    ensures r.Ok? ==>
      |r.value.1| == n && IsSuffix(r.value.0, bytes)
      && (n > 0 ==> |r.value.0| < |bytes|)
      && forall i | 0 <= i < n :: WellFormed(r.value.1[i])
    ensures r != Err(UnforeseenError)
    decreases |bytes|, 2, n
  {
    if n == 0 then Ok((bytes, []))
    else
      var first :- FromBytes(bytes);
      var others :- ReadItems(first.0, n - 1);
      SuffixTransitive(others.0, first.0, bytes);
      Ok((others.0, [first.1] + others.1))
  }

  /** `from_bytes`: decodes one value from the front of `bytes` and returns
      it with the unconsumed rest, so that pipelined values can be decoded
      one after another. Whatever it decodes is well-formed, what it leaves
      is a proper suffix of its input, and it never reports
      `UnforeseenError` (`read_string` always yields a `SimpleString`). */
  function FromBytes(bytes: seq<uint8>): (r: Result<(seq<uint8>, RespType)>)
    ensures r.Ok? ==> IsProperSuffix(r.value.0, bytes) && WellFormed(r.value.1)
    ensures r != Err(UnforeseenError)
    decreases |bytes|, 1
  {
    if |bytes| == 0 then Err(UnexpectedEof)
    else
      var rest := bytes[1..];
      var r :=
        if bytes[0] == SIMPLE_STRING_TAG then ReadString(rest)
        else if bytes[0] == ERROR_TAG then
          (var decoded :- ReadString(rest);
           match decoded.1
           case SimpleString(s) => Ok((decoded.0, Error(s)))
           case _ => Err(UnforeseenError))
        else if bytes[0] == INTEGER_TAG then
          (var decoded :- ReadString(rest);
           match decoded.1
           case SimpleString(s) =>
             (var n :- ParseInt(s);
              Ok((decoded.0, Integer(n))))
           case _ => Err(UnforeseenError))
        else if bytes[0] == BULK_STRING_TAG then ReadBulkString(rest)
        else if bytes[0] == ARRAY_TAG then ReadArray(rest)
        else Err(UnexpectedByte(bytes[0]));
      if r.Ok? then SuffixTransitive(r.value.0, rest, bytes); r else r
  }

  /** How `from_bytes` continues after each tag byte. */
  lemma FromBytesTagged(tag: uint8, body: seq<uint8>)
    ensures tag == SIMPLE_STRING_TAG ==> FromBytes([tag] + body) == ReadString(body)
    ensures tag == ERROR_TAG ==>
      FromBytes([tag] + body) == (if ReadString(body).Ok?
       then Ok((ReadString(body).value.0, Error(ReadString(body).value.1.s)))
       else Err(ReadString(body).error))
    ensures tag == INTEGER_TAG ==>
      FromBytes([tag] + body) == (if ReadString(body).Err? then Err(ReadString(body).error)
       else if ParseI64(ReadString(body).value.1.s).None? then Err(ParseIntError)
       else Ok((ReadString(body).value.0, Integer(ParseI64(ReadString(body).value.1.s).value))))
    ensures tag == BULK_STRING_TAG ==> FromBytes([tag] + body) == ReadBulkString(body)
    ensures tag == ARRAY_TAG ==> FromBytes([tag] + body) == ReadArray(body)
    ensures !IsTag(tag) ==> FromBytes([tag] + body) == Err(UnexpectedByte(tag))
  {
    Split([tag], body);
  }

  /** A bulk string whose size line reads as `n` and leaves `rest`:
      `-1` is the null bulk string; a size below `-1`, or fewer than `n + 2`
      bytes left, is `UnexpectedEof`; otherwise `n` payload bytes and two
      skipped bytes. */
  lemma BulkAfterSizeLine(body: seq<uint8>, n: i64, rest: seq<uint8>)
    requires ReadSizeLine(body) == Ok((rest, n))
    ensures FromBytes([BULK_STRING_TAG] + body) ==
      if n == -1 then Ok((rest, BulkString(None)))
      else if n < -1 || |rest| < n + 2 then Err(UnexpectedEof)
      else Ok((rest[n + 2..], BulkString(Some(rest[..n]))))
  {
    FromBytesTagged(BULK_STRING_TAG, body);
  }

  /** An array whose count line reads as `n` and leaves `rest`: the items
      read from `rest`, none when `n` is negative. */
  lemma ArrayAfterSizeLine(body: seq<uint8>, n: i64, rest: seq<uint8>)
    requires ReadSizeLine(body) == Ok((rest, n))
    ensures FromBytes([ARRAY_TAG] + body) ==
      var items := ReadItems(rest, if n < 0 then 0 else n);
      if items.Ok? then Ok((items.value.0, Array(items.value.1))) else Err(items.error)
  {
    FromBytesTagged(ARRAY_TAG, body);
  }

  /** A tag with no complete line after it is `UnexpectedEof`. */
  lemma NoLineIsEof(tag: uint8, body: seq<uint8>)
    requires IsTag(tag) && !HasCrlf(body)
    ensures FromBytes([tag] + body) == Err(UnexpectedEof)
  {
    FromBytesTagged(tag, body);
  }

  /** The element loop after a value that decodes: the `n - 1` values
      still expected are read from what that value left. */
  lemma ReadItemsAfterValue(bytes: seq<uint8>, n: nat, rest: seq<uint8>, v: RespType)
    requires n > 0 && FromBytes(bytes) == Ok((rest, v))
    ensures ReadItems(rest, n - 1).Err? ==> ReadItems(bytes, n) == Err(ReadItems(rest, n - 1).error)
    ensures ReadItems(rest, n - 1).Ok? ==>
      ReadItems(bytes, n) == Ok((ReadItems(rest, n - 1).value.0, [v] + ReadItems(rest, n - 1).value.1))
  {
  }

  /** One turn of the element loop. */
  lemma ReadItemsUnfold(bytes: seq<uint8>, n: nat)
    requires n > 0
    ensures FromBytes(bytes).Err? ==> ReadItems(bytes, n) == Err(FromBytes(bytes).error)
    ensures FromBytes(bytes).Ok? ==>
      var first := FromBytes(bytes).value;
      var others := ReadItems(first.0, n - 1);
      ReadItems(bytes, n) == if others.Ok? then Ok((others.value.0, [first.1] + others.value.1)) else Err(others.error)
  {
  }
}
