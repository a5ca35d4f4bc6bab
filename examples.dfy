/** The concrete cases of the source's test module, as lemmas. Bytes are
    written as numbers: `+` 43, `-` 45, `:` 58, `$` 36, `*` 42, `\r` 13,
    `\n` 10, digits 48..57. Each encoding case fixes the frame of a value;
    each decoding case reads that frame followed by any `tail`, so that the
    test's own input is the case `tail == []`. */
module Examples {
  import opened Bytes
  import opened Sequences
  import opened Utf8
  import opened IntText
  import opened Resp
  import opened Decoder
  import opened Encoder
  import opened Properties
  import opened Wrappers

  const OK: Utf8String := [79, 75]                          // "OK"
  const FOO: Utf8String := [102, 111, 111]                  // "foo"
  const BAR: Utf8String := [98, 97, 114]                    // "bar"
  const FOOBAR: Utf8String := [102, 111, 111, 98, 97, 114]  // "foobar"
  /** "ERR unknown command 'foobar'" */
  const ERR_TEXT: seq<uint8> :=
    [69, 82, 82, 32, 117, 110, 107, 110, 111, 119, 110, 32, 99, 111, 109, 109,
     97, 110, 100, 32, 39, 102, 111, 111, 98, 97, 114, 39]

  // The frames the tests are built from.

  const OK_FRAME: seq<uint8> := [43] + OK + CRLF                    // "+OK\r\n"
  const ERR_FRAME: seq<uint8> := [45] + ERR_TEXT + CRLF             // "-ERR unknown command 'foobar'\r\n"
  const INTEGER_FRAME: seq<uint8> := [58, 49, 48, 48, 48] + CRLF    // ":1000\r\n"
  const FOOBAR_FRAME: seq<uint8> := [36, 54] + CRLF + FOOBAR + CRLF // "$6\r\nfoobar\r\n"
  const NULL_BULK_FRAME: seq<uint8> := [36, 45, 49] + CRLF          // "$-1\r\n"
  const FOO_FRAME: seq<uint8> := [43] + FOO + CRLF                  // "+foo\r\n"
  const BAR_FRAME: seq<uint8> := [43] + BAR + CRLF                  // "+bar\r\n"
  const TWO_ITEMS: seq<uint8> := [42, 50] + CRLF                    // "*2\r\n"
  const THREE_ITEMS: seq<uint8> := [42, 51] + CRLF                  // "*3\r\n"
  const NULL_ARRAY: seq<uint8> := [42, 45, 49] + CRLF               // "*-1\r\n"
  /** "*2\r\n+foo\r\n+bar\r\n" */
  const FOO_BAR_ARRAY: seq<uint8> := TWO_ITEMS + FOO_FRAME + BAR_FRAME

  const FOO_BAR: RespType := Array([SimpleString(FOO), SimpleString(BAR)])

  lemma SmallDecimals()
    ensures Decimal(2) == [50] && Decimal(3) == [51] && Decimal(6) == [54] && Decimal(-1) == [45, 49]
    ensures Decimal(1000) == [49, 48, 48, 48]
  {
    assert NatDigits(10) == [49, 48];
    assert NatDigits(100) == [49, 48, 48];
  }

  lemma CountLines()
    ensures [ARRAY_TAG] + Decimal(2) + CRLF == TWO_ITEMS
    ensures [ARRAY_TAG] + Decimal(3) + CRLF == THREE_ITEMS
    ensures [ARRAY_TAG] + Decimal(-1) + CRLF == NULL_ARRAY
  {
    SmallDecimals();
  }

  lemma ErrTextIsText()
    ensures ValidUtf8(ERR_TEXT) && !HasCrlf(ERR_TEXT)
  {
    assert forall i | 0 <= i < |ERR_TEXT| :: 32 <= ERR_TEXT[i] < 0x80;
    AsciiIsUtf8(ERR_TEXT);
    NoCrNoCrlf(ERR_TEXT);
  }

  lemma FooBarAreText()
    ensures !HasCrlf(FOO) && !HasCrlf(BAR) && !HasCrlf(OK)
  {
    NoCrNoCrlf(FOO);
    NoCrNoCrlf(BAR);
    NoCrNoCrlf(OK);
  }

  /** The frames of two items are the two frames, one after the other. */
  lemma EncodeTwo(x: RespType, y: RespType)
    ensures EncodeAll([x, y]) == Encode(x) + Encode(y)
  {
    assert [x, y][1..] == [y];
    assert [y][1..] == [];
    assert EncodeAll([y]) == Encode(y) + EncodeAll([]);
    EmptyRight(Encode(y));
  }

  lemma EncodeThree(x: RespType, y: RespType, z: RespType)
    ensures EncodeAll([x, y, z]) == Encode(x) + Encode(y) + Encode(z)
  {
    assert [x, y, z][1..] == [y, z];
    EncodeTwo(y, z);
    Assoc(Encode(x), Encode(y), Encode(z));
  }

  // The encoding cases.

  lemma EncodedSimpleString()
    ensures Encode(SimpleString(OK)) == OK_FRAME
  {
  }

  lemma EncodedError(s: Utf8String)
    requires s == ERR_TEXT
    ensures Encode(Error(s)) == ERR_FRAME
  {
  }

  lemma EncodedInteger()
    ensures Encode(Integer(1000)) == INTEGER_FRAME
  {
    SmallDecimals();
  }

  lemma EncodedNullBulkString()
    ensures Encode(BulkString(None)) == NULL_BULK_FRAME
  {
  }

  lemma EncodedBulkString()
    ensures Encode(BulkString(Some(FOOBAR))) == FOOBAR_FRAME
  {
    SmallDecimals();
    assert [BULK_STRING_TAG] + Decimal(|FOOBAR|) == [36, 54];
  }

  lemma EncodedArray()
    ensures Encode(FOO_BAR) == FOO_BAR_ARRAY
  {
    CountLines();
    EncodeTwo(SimpleString(FOO), SimpleString(BAR));
    Assoc(TWO_ITEMS, FOO_FRAME, BAR_FRAME);
  }

  lemma EncodedNestedArray()
    ensures Encode(Array([FOO_BAR, FOO_BAR])) == TWO_ITEMS + FOO_BAR_ARRAY + FOO_BAR_ARRAY
  {
    CountLines();
    EncodedArray();
    EncodeTwo(FOO_BAR, FOO_BAR);
    Assoc(TWO_ITEMS, FOO_BAR_ARRAY, FOO_BAR_ARRAY);
  }

  lemma EncodedMixedArray()
    ensures Encode(Array([SimpleString(FOO), Integer(1000), BulkString(Some(FOOBAR))]))
      == THREE_ITEMS + FOO_FRAME + INTEGER_FRAME + FOOBAR_FRAME
  {
    CountLines();
    EncodedInteger();
    EncodedBulkString();
    EncodeThree(SimpleString(FOO), Integer(1000), BulkString(Some(FOOBAR)));
    Assoc4(THREE_ITEMS, FOO_FRAME, INTEGER_FRAME, FOOBAR_FRAME);
  }

  lemma EncodedMixedNullArray()
    ensures Encode(Array([SimpleString(FOO), Integer(1000), BulkString(None)]))
      == THREE_ITEMS + FOO_FRAME + INTEGER_FRAME + NULL_BULK_FRAME
  {
    CountLines();
    EncodedInteger();
    EncodedNullBulkString();
    EncodeThree(SimpleString(FOO), Integer(1000), BulkString(None));
    Assoc4(THREE_ITEMS, FOO_FRAME, INTEGER_FRAME, NULL_BULK_FRAME);
  }

  // The decoding cases.

  /** Empty input, and a lone `+`, are `UnexpectedEof`. */
  lemma EmptyAndOneByte(bytes: seq<uint8>)
    requires bytes == [] || bytes == [43]
    ensures FromBytes(bytes) == Err(UnexpectedEof)
  {
    if bytes == [] {
      DispatchErrors(bytes);
    } else {
      NoLineIsEof(43, []);
      EmptyRight(bytes);
    }
  }

  /** `+OK\r\n` */
  lemma DecodesSimpleString(bytes: seq<uint8>, tail: seq<uint8>)
    requires bytes == OK_FRAME + tail
    ensures FromBytes(bytes) == Ok((tail, SimpleString(OK)))
  {
    FooBarAreText();
    EncodedSimpleString();
    RoundTrip(SimpleString(OK), tail);
  }

  /** `-ERR unknown command 'foobar'\r\n` */
  lemma DecodesError(bytes: seq<uint8>, tail: seq<uint8>)
    requires bytes == ERR_FRAME + tail
    ensures FromBytes(bytes).Ok? && FromBytes(bytes).value.0 == tail
    ensures FromBytes(bytes).value.1.Error? && FromBytes(bytes).value.1.s == ERR_TEXT
  {
    ErrTextIsText();
    var s: Utf8String := ERR_TEXT;
    EncodedError(s);
    RoundTrip(Error(s), tail);
  }

  /** `:1000\r\n` */
  lemma DecodesInteger(bytes: seq<uint8>, tail: seq<uint8>)
    requires bytes == INTEGER_FRAME + tail
    ensures FromBytes(bytes) == Ok((tail, Integer(1000)))
  {
    EncodedInteger();
    RoundTrip(Integer(1000), tail);
  }

  /** `$6\r\nfoobar\r\n` */
  lemma DecodesBulkString(bytes: seq<uint8>, tail: seq<uint8>)
    requires bytes == FOOBAR_FRAME + tail
    ensures FromBytes(bytes) == Ok((tail, BulkString(Some(FOOBAR))))
  {
    EncodedBulkString();
    RoundTrip(BulkString(Some(FOOBAR)), tail);
  }

  /** `$-1\r\n` */
  lemma DecodesNullBulkString(bytes: seq<uint8>, tail: seq<uint8>)
    requires bytes == NULL_BULK_FRAME + tail
    ensures FromBytes(bytes) == Ok((tail, BulkString(None)))
  {
    EncodedNullBulkString();
    RoundTrip(BulkString(None), tail);
  }

  /** `*2\r\n+foo\r\n+bar\r\n` */
  lemma DecodesArray(bytes: seq<uint8>, tail: seq<uint8>)
    requires bytes == FOO_BAR_ARRAY + tail
    ensures FromBytes(bytes) == Ok((tail, FOO_BAR))
  {
    FooBarAreText();
    EncodedArray();
    RoundTrip(FOO_BAR, tail);
  }

  /** `*2\r\n*2\r\n+foo\r\n+bar\r\n*2\r\n+foo\r\n+bar\r\n` */
  lemma DecodesNestedArray(bytes: seq<uint8>, tail: seq<uint8>)
    requires bytes == TWO_ITEMS + FOO_BAR_ARRAY + FOO_BAR_ARRAY + tail
    ensures FromBytes(bytes) == Ok((tail, Array([FOO_BAR, FOO_BAR])))
  {
    FooBarAreText();
    assert WellFormed(FOO_BAR);
    EncodedNestedArray();
    RoundTrip(Array([FOO_BAR, FOO_BAR]), tail);
  }

  /** `*3\r\n+foo\r\n:1000\r\n$6\r\nfoobar\r\n` */
  lemma DecodesMixedArray(bytes: seq<uint8>, tail: seq<uint8>)
    requires bytes == THREE_ITEMS + FOO_FRAME + INTEGER_FRAME + FOOBAR_FRAME + tail
    ensures FromBytes(bytes) == Ok((tail, Array([SimpleString(FOO), Integer(1000), BulkString(Some(FOOBAR))])))
  {
    FooBarAreText();
    EncodedMixedArray();
    RoundTrip(Array([SimpleString(FOO), Integer(1000), BulkString(Some(FOOBAR))]), tail);
  }

  /** `*3\r\n+foo\r\n:1000\r\n$-1\r\n` */
  lemma DecodesMixedNullArray(bytes: seq<uint8>, tail: seq<uint8>)
    requires bytes == THREE_ITEMS + FOO_FRAME + INTEGER_FRAME + NULL_BULK_FRAME + tail
    ensures FromBytes(bytes) == Ok((tail, Array([SimpleString(FOO), Integer(1000), BulkString(None)])))
  {
    FooBarAreText();
    EncodedMixedNullArray();
    RoundTrip(Array([SimpleString(FOO), Integer(1000), BulkString(None)]), tail);
  }

  /** `*-1\r\n`, the null array, decodes as the empty array. */
  lemma DecodesNullArray(bytes: seq<uint8>, tail: seq<uint8>)
    requires bytes == NULL_ARRAY + tail
    ensures FromBytes(bytes) == Ok((tail, Array([])))
  {
    CountLines();
    ArrayNegativeCount(-1, tail);
  }

  /** Two null arrays in a row are two empty arrays. */
  lemma TwoNullArrays(rest: seq<uint8>, tail: seq<uint8>)
    requires rest == NULL_ARRAY + NULL_ARRAY + tail
    ensures ReadItems(rest, 2) == Ok((tail, [Array([]), Array([])]))
  {
    var second := NULL_ARRAY + tail;
    Assoc(NULL_ARRAY, NULL_ARRAY, tail);
    DecodesNullArray(second, tail);
    ReadItemsAfterValue(second, 1, tail, Array([]));
    assert ReadItems(tail, 0) == Ok((tail, []));
    EmptyRight([Array([])]);
    DecodesNullArray(rest, second);
    ReadItemsAfterValue(rest, 2, second, Array([]));
    assert [Array([])] + [Array([])] == [Array([]), Array([])];
  }

  /** `*2\r\n*-1\r\n*-1\r\n`: each null array is an empty array. */
  lemma DecodesNestedNullArrays(bytes: seq<uint8>, tail: seq<uint8>)
    requires bytes == TWO_ITEMS + NULL_ARRAY + NULL_ARRAY + tail
    ensures FromBytes(bytes) == Ok((tail, Array([Array([]), Array([])])))
  {
    var rest := NULL_ARRAY + NULL_ARRAY + tail;
    TwoNullArrays(rest, tail);
    CountLines();
    ArrayFrame([Array([]), Array([])], rest, tail);
    Assoc4(TWO_ITEMS, NULL_ARRAY, NULL_ARRAY, tail);
  }
}
