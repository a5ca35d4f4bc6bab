/** What the codec promises: the framing the decoder accepts, its error
    cases, and that decoding inverts encoding with arbitrary trailing bytes. */
module Properties {
  import opened Bytes
  import opened Sequences
  import opened Utf8
  import opened IntText
  import opened Wrappers
  import opened Resp
  import opened Decoder
  import opened Encoder

  /** After a CRLF-free payload, the first `\r\n` is the one that follows it. */
  lemma FirstCrlf(s: seq<uint8>, tail: seq<uint8>)
    requires !HasCrlf(s)
    ensures CrlfPosition(s + CRLF + tail, 0) == Some(|s|)
  {
    var b := s + CRLF + tail;
    assert IsCrlfAt(b, |s|);
    forall j: nat | j < |s|
      ensures !IsCrlfAt(b, j)
    {
      if j + 1 < |s| {
        assert b[j] == s[j] && b[j + 1] == s[j + 1];
        assert !IsCrlfAt(s, j);
      } else {
        assert b[j + 1] == CR;
      }
    }
  }

  /** A line whose payload has no `\r\n` ends exactly at the `\r\n` that
      follows the payload. */
  lemma FramedLine(s: seq<uint8>, tail: seq<uint8>)
    requires !HasCrlf(s)
    ensures ReadLine(s + CRLF + tail) == Ok((tail, s))
  {
    FirstCrlf(s, tail);
    Assoc(s, CRLF, tail);
    Split(s, CRLF + tail);
    Split(s + CRLF, tail);
  }

  /** The decimal text of an integer is a text line: valid UTF-8 without `\r\n`. */
  lemma DecimalIsLine(n: int)
    ensures ValidUtf8(Decimal(n)) && !HasCrlf(Decimal(n))
  {
    DecimalIsPlainAscii(n);
    AsciiIsUtf8(Decimal(n));
    NoCrNoCrlf(Decimal(n));
  }

  /** The size line of an `i64` reads back as that size. */
  lemma SizeLine(n: int, tail: seq<uint8>)
    requires I64_MIN <= n <= I64_MAX
    ensures ReadSizeLine(Decimal(n) + CRLF + tail) == Ok((tail, n))
  {
    DecimalIsLine(n);
    FramedLine(Decimal(n), tail);
    ParseDecimal(n);
  }

  /** A text line reads back as that `SimpleString`. */
  lemma StringLine(s: Utf8String, tail: seq<uint8>)
    requires !HasCrlf(s)
    ensures ReadString(s + CRLF + tail) == Ok((tail, SimpleString(s)))
  {
    FramedLine(s, tail);
  }

  /** The frames of the scalar variants decode back, whatever follows them. */
  lemma SimpleStringFrame(s: Utf8String, tail: seq<uint8>)
    requires !HasCrlf(s)
    ensures FromBytes([SIMPLE_STRING_TAG] + s + CRLF + tail) == Ok((tail, SimpleString(s)))
    ensures FromBytes([ERROR_TAG] + s + CRLF + tail) == Ok((tail, Error(s)))
  {
    Assoc4([SIMPLE_STRING_TAG], s, CRLF, tail);
    Assoc4([ERROR_TAG], s, CRLF, tail);
    FromBytesTagged(SIMPLE_STRING_TAG, s + CRLF + tail);
    FromBytesTagged(ERROR_TAG, s + CRLF + tail);
    StringLine(s, tail);
  }

  lemma IntegerFrame(n: i64, tail: seq<uint8>)
    ensures FromBytes([INTEGER_TAG] + Decimal(n) + CRLF + tail) == Ok((tail, Integer(n)))
  {
    Assoc4([INTEGER_TAG], Decimal(n), CRLF, tail);
    FromBytesTagged(INTEGER_TAG, Decimal(n) + CRLF + tail);
    DecimalIsLine(n);
    StringLine(Decimal(n), tail);
    ParseDecimal(n);
  }

  /** The frame after a bulk-string size line of `n`: `-1` is the null
      bulk string; a size below `-1`, or fewer than `n + 2` bytes left, is
      `UnexpectedEof`; otherwise `n` payload bytes taken verbatim and two
      bytes skipped without being checked. */
  lemma BulkFrameAt(n: int, rest: seq<uint8>)
    requires I64_MIN <= n <= I64_MAX
    ensures FromBytes([BULK_STRING_TAG] + Decimal(n) + CRLF + rest) ==
      if n == -1 then Ok((rest, BulkString(None)))
      else if n < -1 || |rest| < n + 2 then Err(UnexpectedEof)
      else Ok((rest[n + 2..], BulkString(Some(rest[..n]))))
  {
    Assoc4([BULK_STRING_TAG], Decimal(n), CRLF, rest);
    SizeLine(n, rest);
    BulkAfterSizeLine(Decimal(n) + CRLF + rest, n, rest);
  }

  /** The frame after an array count line of `n`: the items read from what
      follows, none when `n` is negative. */
  lemma ArrayFrameAt(n: int, rest: seq<uint8>)
    requires I64_MIN <= n <= I64_MAX
    ensures FromBytes([ARRAY_TAG] + Decimal(n) + CRLF + rest) ==
      var items := ReadItems(rest, if n < 0 then 0 else n);
      if items.Ok? then Ok((items.value.0, Array(items.value.1))) else Err(items.error)
  {
    Assoc4([ARRAY_TAG], Decimal(n), CRLF, rest);
    SizeLine(n, rest);
    ArrayAfterSizeLine(Decimal(n) + CRLF + rest, n, rest);
  }

  lemma NullBulkFrame(tail: seq<uint8>)
    ensures FromBytes(NULL_BULK_STRING + tail) == Ok((tail, BulkString(None)))
  {
    NullBulkIsSizeLine();
    BulkFrameAt(-1, tail);
  }

  /** The bulk-string frame: exactly the announced number of payload bytes,
      taken verbatim (no UTF-8 check), then two bytes skipped without being
      checked to be `\r\n`. */
  lemma BulkPayloadVerbatim(payload: seq<uint8>, skipped: seq<uint8>, tail: seq<uint8>)
    requires |payload| <= I64_MAX && |skipped| == 2
    ensures FromBytes([BULK_STRING_TAG] + Decimal(|payload|) + CRLF + payload + skipped + tail)
      == Ok((tail, BulkString(Some(payload))))
  {
    var header := [BULK_STRING_TAG] + Decimal(|payload|) + CRLF;
    BulkFrameAt(|payload|, payload + skipped + tail);
    Assoc4(header, payload, skipped, tail);
    Assoc(payload, skipped, tail);
    Split(payload, skipped + tail);
    Split(payload + skipped, tail);
  }

  /** An array frame decodes to its items when they decode from what
      follows its count line. */
  lemma ArrayFrame(items: seq<RespType>, rest: seq<uint8>, tail: seq<uint8>)
    requires |items| <= I64_MAX
    requires ReadItems(rest, |items|) == Ok((tail, items))
    ensures FromBytes([ARRAY_TAG] + Decimal(|items|) + CRLF + rest) == Ok((tail, Array(items)))
  {
    ArrayFrameAt(|items|, rest);
  }

  /** Decoding the frame of a well-formed value, followed by any bytes,
      gives the value back and leaves exactly those bytes. */
  lemma {:induction false} RoundTrip(v: RespType, tail: seq<uint8>)
    requires WellFormed(v)
    ensures FromBytes(Encode(v) + tail) == Ok((tail, v))
    decreases v
  {
    match v
    case SimpleString(s) =>
      SimpleStringFrame(s, tail);
    case Error(s) =>
      SimpleStringFrame(s, tail);
    case Integer(n) =>
      IntegerFrame(n, tail);
    case BulkString(bulk) =>
      if bulk.None? {
        NullBulkFrame(tail);
      } else {
        BulkPayloadVerbatim(bulk.value, CRLF, tail);
      }
    case Array(items) =>
      RoundTripAll(items, tail);
      ArrayFrame(items, EncodeAll(items) + tail, tail);
      Assoc([ARRAY_TAG] + Decimal(|items|) + CRLF, EncodeAll(items), tail);
  }

  /** Decoding the frames of well-formed items, one after another and
      followed by any bytes, gives the items back in order. */
  lemma {:induction false} RoundTripAll(items: seq<RespType>, tail: seq<uint8>)
    requires forall i | 0 <= i < |items| :: WellFormed(items[i])
    ensures ReadItems(EncodeAll(items) + tail, |items|) == Ok((tail, items))
    decreases items
  {
    if |items| == 0 {
      EmptyLeft(tail);
    } else {
      var others := EncodeAll(items[1..]) + tail;
      RoundTripAll(items[1..], tail);
      EncodeAllCons(items, tail);
      RoundTrip(items[0], others);
      ReadItemsAfterValue(Encode(items[0]) + others, |items|, others, items[0]);
      Cons(items);
    }
  }

  /** Pipelining: two frames in a row decode one after the other. */
  lemma Pipelining(v1: RespType, v2: RespType, tail: seq<uint8>)
    requires WellFormed(v1) && WellFormed(v2)
    ensures FromBytes(Encode(v1) + Encode(v2) + tail) == Ok((Encode(v2) + tail, v1))
    ensures FromBytes(Encode(v2) + tail) == Ok((tail, v2))
  {
    Assoc(Encode(v1), Encode(v2), tail);
    RoundTrip(v1, Encode(v2) + tail);
    RoundTrip(v2, tail);
  }

  /** Whatever the decoder reads can be re-encoded and read back unchanged
      (the input need not be canonical: `*-1`, `:+01` or unchecked bulk
      terminators are normalised). */
  lemma ReencodeDecoded(bytes: seq<uint8>, tail: seq<uint8>)
    requires FromBytes(bytes).Ok?
    ensures FromBytes(Encode(FromBytes(bytes).value.1) + tail) == Ok((tail, FromBytes(bytes).value.1))
  {
    RoundTrip(FromBytes(bytes).value.1, tail);
  }

  /** A cut inside the first line of a frame leaves no complete line. */
  lemma CutInFirstLine(tag: uint8, s: seq<uint8>, more: seq<uint8>, p: seq<uint8>)
    requires IsTag(tag) && !HasCrlf(s)
    requires 0 < |p| < |s| + 3 && p == ([tag] + s + CRLF + more)[..|p|]
    ensures FromBytes(p) == Err(UnexpectedEof)
  {
    Assoc4([tag], s, CRLF, more);
    PrefixBeyond([tag], s + CRLF + more, p);
    var line := p[1..];
    PrefixWithin(s + CRLF, more, line);
    NoCrlfInStrictPrefix(s, line);
    NoLineIsEof(tag, line);
  }

  /** A bulk string cut after its size line is short of payload. */
  lemma CutInBulkPayload(payload: seq<uint8>, p: seq<uint8>)
    requires |payload| <= I64_MAX
    requires |Decimal(|payload|)| + 3 <= |p| < |Decimal(|payload|)| + |payload| + 5
    requires p == ([BULK_STRING_TAG] + Decimal(|payload|) + CRLF + payload + CRLF)[..|p|]
    ensures FromBytes(p) == Err(UnexpectedEof)
  {
    var header := [BULK_STRING_TAG] + Decimal(|payload|) + CRLF;
    Assoc(header, payload, CRLF);
    PrefixBeyond(header, payload + CRLF, p);
    BulkFrameAt(|payload|, p[|header|..]);
  }

  /** An array whose items fail to decode fails with the same error. */
  lemma ArrayFrameError(n: int, rest: seq<uint8>)
    requires 0 <= n <= I64_MAX
    requires ReadItems(rest, n).Err?
    ensures FromBytes([ARRAY_TAG] + Decimal(n) + CRLF + rest) == Err(ReadItems(rest, n).error)
  {
    ArrayFrameAt(n, rest);
  }

  /** Every strict prefix of a well-formed frame is reported as
      `UnexpectedEof`: the decoder never mistakes a cut-off frame for a
      shorter value or another error. */
  lemma {:induction false} Truncation(v: RespType, p: seq<uint8>)
    requires WellFormed(v)
    requires |p| < |Encode(v)| && p == Encode(v)[..|p|]
    ensures FromBytes(p) == Err(UnexpectedEof)
    decreases v, 1
  {
    if |p| == 0 {
      DispatchErrors(p);
    } else if v.Array? {
      TruncatedArray(v, p);
    } else {
      TruncatedScalar(v, p);
    }
  }

  /** Truncation of a frame without items. */
  lemma TruncatedScalar(v: RespType, p: seq<uint8>)
    requires WellFormed(v) && !v.Array?
    requires 0 < |p| < |Encode(v)| && p == Encode(v)[..|p|]
    ensures FromBytes(p) == Err(UnexpectedEof)
  {
    EmptyRight(Encode(v));
    match v
    case SimpleString(s) =>
      CutInFirstLine(SIMPLE_STRING_TAG, s, [], p);
    case Error(s) =>
      CutInFirstLine(ERROR_TAG, s, [], p);
    case Integer(n) =>
      DecimalIsLine(n);
      CutInFirstLine(INTEGER_TAG, Decimal(n), [], p);
    case BulkString(bulk) =>
      if bulk.None? {
        NullBulkIsSizeLine();
        DecimalIsLine(-1);
        CutInFirstLine(BULK_STRING_TAG, Decimal(-1), [], p);
      } else if |p| < |Decimal(|bulk.value|)| + 3 {
        DecimalIsLine(|bulk.value|);
        Assoc([BULK_STRING_TAG] + Decimal(|bulk.value|) + CRLF, bulk.value, CRLF);
        CutInFirstLine(BULK_STRING_TAG, Decimal(|bulk.value|), bulk.value + CRLF, p);
      } else {
        CutInBulkPayload(bulk.value, p);
      }
  }

  /** Truncation of an array frame: inside its count line, or inside its items. */
  lemma {:induction false} TruncatedArray(v: RespType, p: seq<uint8>)
    requires WellFormed(v) && v.Array?
    requires 0 < |p| < |Encode(v)| && p == Encode(v)[..|p|]
    ensures FromBytes(p) == Err(UnexpectedEof)
    decreases v, 0
  {
    var items := v.items;
    var header := [ARRAY_TAG] + Decimal(|items|) + CRLF;
    if |p| < |header| {
      DecimalIsLine(|items|);
      CutInFirstLine(ARRAY_TAG, Decimal(|items|), EncodeAll(items), p);
    } else {
      PrefixBeyond(header, EncodeAll(items), p);
      TruncationAll(items, p[|header|..]);
      ArrayFrameError(|items|, p[|header|..]);
    }
  }

  /** A strict prefix of the frames of well-formed items fails with
      `UnexpectedEof` when that many items are expected. */
  lemma {:induction false} TruncationAll(items: seq<RespType>, q: seq<uint8>)
    requires forall i | 0 <= i < |items| :: WellFormed(items[i])
    requires |q| < |EncodeAll(items)| && q == EncodeAll(items)[..|q|]
    ensures ReadItems(q, |items|) == Err(UnexpectedEof)
    decreases items
  {
    var first := Encode(items[0]);
    if |q| < |first| {
      PrefixWithin(first, EncodeAll(items[1..]), q);
      Truncation(items[0], q);
      ReadItemsUnfold(q, |items|);
    } else {
      PrefixBeyond(first, EncodeAll(items[1..]), q);
      var others := q[|first|..];
      RoundTrip(items[0], others);
      TruncationAll(items[1..], others);
      ReadItemsAfterValue(q, |items|, others, items[0]);
    }
  }

  /** Errors decided by the tag byte: empty input and a tag with no line
      after it are `UnexpectedEof` (so is a lone `+`); a byte outside
      `+ - : $ *` is `UnexpectedByte` carrying that byte. */
  lemma DispatchErrors(bytes: seq<uint8>)
    ensures |bytes| == 0 ==> FromBytes(bytes) == Err(UnexpectedEof)
    ensures |bytes| > 0 && !IsTag(bytes[0]) ==> FromBytes(bytes) == Err(UnexpectedByte(bytes[0]))
    ensures |bytes| > 0 && IsTag(bytes[0]) && !HasCrlf(bytes[1..]) ==> FromBytes(bytes) == Err(UnexpectedEof)
  {
  }

  /** Errors decided by the first line: not UTF-8 gives `FromUtf8Error`
      for every tag; for `:`, `$` and `*`, a UTF-8 line that is not an `i64`
      gives `ParseIntError`. */
  lemma LineErrors(tag: uint8, line: seq<uint8>, rest: seq<uint8>)
    requires IsTag(tag) && !HasCrlf(line)
    ensures !ValidUtf8(line) ==> FromBytes([tag] + line + CRLF + rest) == Err(FromUtf8Error)
    ensures ValidUtf8(line) && ParseI64(line).None? && tag in {INTEGER_TAG, BULK_STRING_TAG, ARRAY_TAG} ==>
      FromBytes([tag] + line + CRLF + rest) == Err(ParseIntError)
  {
    Assoc4([tag], line, CRLF, rest);
    FromBytesTagged(tag, line + CRLF + rest);
    FramedLine(line, rest);
  }

  /** A negative array count (the null array `*-1`) gives the empty array
      and consumes only the count line. */
  lemma ArrayNegativeCount(n: int, rest: seq<uint8>)
    requires I64_MIN <= n < 0
    ensures FromBytes([ARRAY_TAG] + Decimal(n) + CRLF + rest) == Ok((rest, Array([])))
  {
    ArrayFrameAt(n, rest);
    assert ReadItems(rest, 0) == Ok((rest, []));
  }

  /** Items that decode are skipped over: when the value after them fails
      to decode and more items are expected, the element loop fails with
      that value's error. */
  lemma {:induction false} ItemsThenFailure(items: seq<RespType>, bad: seq<uint8>, n: nat)
    requires forall i | 0 <= i < |items| :: WellFormed(items[i])
    requires |items| < n && FromBytes(bad).Err?
    ensures ReadItems(EncodeAll(items) + bad, n) == Err(FromBytes(bad).error)
    decreases |items|, 1
  {
    if |items| == 0 {
      EmptyLeft(bad);
      ReadItemsUnfold(bad, n);
    } else {
      SkipFirstItem(items[0], items[1..], bad, n, n - 1);
      EncodeAllCons(items, bad);
    }
  }

  /** The first item of a failing element loop decodes and is skipped;
      `m` is the number of items expected after it. */
  lemma {:induction false} SkipFirstItem(first: RespType, others: seq<RespType>, bad: seq<uint8>, n: nat, m: nat)
    requires WellFormed(first) && forall i | 0 <= i < |others| :: WellFormed(others[i])
    requires n == m + 1 && |others| < m && FromBytes(bad).Err?
    ensures ReadItems(Encode(first) + (EncodeAll(others) + bad), n) == Err(FromBytes(bad).error)
    decreases |others| + 1, 0
  {
    ItemsThenFailure(others, bad, m);
    SameCount(EncodeAll(others) + bad, m, n - 1);
    AfterFirstItem(first, EncodeAll(others) + bad, n, FromBytes(bad).error);
  }

  lemma SameCount(rest: seq<uint8>, a: nat, b: nat)
    requires a == b
    ensures ReadItems(rest, a) == ReadItems(rest, b)
  {
  }

  /** The element loop goes on after a value that decodes. */
  lemma AfterFirstItem(first: RespType, rest: seq<uint8>, n: nat, e: ParseError)
    requires WellFormed(first) && 0 < n && ReadItems(rest, n - 1) == Err(e)
    ensures ReadItems(Encode(first) + rest, n) == Err(e)
  {
    RoundTrip(first, rest);
    ReadItemsAfterValue(Encode(first) + rest, n, rest, first);
  }

  /** An array announcing `n` elements whose first `k < n` elements decode
      and whose next one fails returns that failure. */
  lemma ArrayElementError(n: int, items: seq<RespType>, bad: seq<uint8>)
    requires |items| < n <= I64_MAX
    requires forall i | 0 <= i < |items| :: WellFormed(items[i])
    requires FromBytes(bad).Err?
    ensures FromBytes([ARRAY_TAG] + Decimal(n) + CRLF + EncodeAll(items) + bad) == Err(FromBytes(bad).error)
  {
    ItemsThenFailure(items, bad, n);
    ArrayFrameError(n, EncodeAll(items) + bad);
    Assoc([ARRAY_TAG] + Decimal(n) + CRLF, EncodeAll(items), bad);
  }
}
