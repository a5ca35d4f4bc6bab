# RESP2 codec, modelled and verified in Dafny

This project models the codec of the `resp` Rust crate (`src/lib.rs`). The
codec decodes and encodes the RESP2 wire format that Redis uses. A value is
one of five things, each marked by a leading tag byte:

- `+` a simple string;
- `-` an error reply;
- `:` a 64-bit signed integer;
- `$` a length-prefixed bulk string, or the null bulk string `$-1`;
- `*` a count-prefixed array of nested values.

Every line ends with `\r\n`.

`RespType::from_bytes` decodes one value from the front of a byte slice and
returns it with the unconsumed rest. `RespType::as_bytes` produces the frame
of a value.

## Layout

- `wrappers.dfy`, module `Wrappers`: `Option`.
- `bytes.dfy`, module `Bytes`:
  - the byte type and `\r\n`;
  - the two-byte window scan;
  - suffix predicates.
- `utf8.dfy`, module `Utf8`:
  - UTF-8 well-formedness as `String::from_utf8` checks it;
  - `Utf8String`, the model of Rust's `String`.
- `int_text.dfy`, module `IntText`:
  - the `i64` range;
  - `str::parse::<i64>` (`ParseI64`);
  - the `{}` formatting of integers (`Decimal`), with
    `ParseI64(Decimal(n)) == Some(n)`.
- `resp.dfy`, module `Resp`:
  - `ParseError`;
  - `RespType`;
  - a `Result` type usable with `:-` the way Rust uses `?`;
  - the tag bytes;
  - `WellFormed`, the values the wire format carries unchanged.
- `decoder.dfy`, module `Decoder`: `from_bytes`, `read_string`,
  `read_bulk_string`, `read_array` and `read_line`, as mutually recursive
  functions.
- `encoder.dfy`, module `Encoder`: the frame of a value (`Encode`), the
  specification of `as_bytes`.
- `codec.dfy`, module `Codec`: the two operations that work step by step.
  Each is proved to compute its functional specification.
  - `ReadArray`: a loop that reassigns the rest of the buffer and appends to
    the item vector.
  - `AsBytes`: extends a byte vector frame by frame.
- `properties.dfy`, module `Properties`:
  - the round trip with any tail;
  - the frame of each variant;
  - the error paths;
  - truncation;
  - the order of array items;
  - first-error-wins in arrays.
- `examples.dfy`, module `Examples`: the concrete cases of the crate's test
  module, proved as lemmas.

## Model

| member | source | states |
|---|---|---|
| Decoder.CrlfPosition | src/lib.rs:132 | the position found is a `\r\n` window, and no window before it (from the start index) is one; none found means no window exists |
| Decoder.ReadLine | src/lib.rs:131-139 | succeeds exactly when the input holds a `\r\n`; the line, `\r\n` and the remainder concatenate back to the input, the line holds no `\r\n`, the remainder is a proper suffix; otherwise `UnexpectedEof` |
| Decoder.ReadSizeLine | src/lib.rs:91-96 | the size line of a bulk string or array leaves a proper suffix; its errors are only `UnexpectedEof`, `FromUtf8Error`, `ParseIntError` |
| Decoder.ReadString | src/lib.rs:82-88 | yields a `SimpleString` whose text, `\r\n` and the remainder are the input; the text has no `\r\n`; only `UnexpectedEof`/`FromUtf8Error` |
| Decoder.ReadBulkString | src/lib.rs:90-111 | yields a well-formed `BulkString` and a proper suffix; only `UnexpectedEof`, `FromUtf8Error`, `ParseIntError` |
| Decoder.ReadArray | src/lib.rs:113-129 | yields a well-formed `Array` and a proper suffix; never `UnforeseenError` |
| Decoder.ReadItems | src/lib.rs:121-126 | exactly `n` well-formed items, from a suffix of the input, strictly shorter when `n > 0`; never `UnforeseenError` |
| Decoder.FromBytes | src/lib.rs:20-49 | a decoded value is well-formed and the rest is a proper suffix of the input; `UnforeseenError` is never returned |
| Decoder.FromBytesTagged | src/lib.rs:21-47 | how decoding continues after each tag byte: `+` reads a line, `-` turns that line into an `Error`, `:` parses it as `i64` or `ParseIntError`, `$`/`*` read a bulk string/array, any other byte is `UnexpectedByte(b)` |
| Decoder.BulkAfterSizeLine | src/lib.rs:98-110 | after size `n`: `-1` is the null bulk string consuming nothing more; fewer than `n + 2` bytes is `UnexpectedEof`; otherwise the first `n` bytes are the payload and the remainder starts at `n + 2` |
| Decoder.ArrayAfterSizeLine | src/lib.rs:116-128 | after count `n`: the items are those the element loop reads, none for a negative count; an item error is the array's error |
| Decoder.NoLineIsEof | src/lib.rs:136-138 | a tag byte followed by no `\r\n` at all is `UnexpectedEof` |
| Decoder.ReadItemsAfterValue | src/lib.rs:122-125 | after one decoded value, the loop's result is that value in front of the remaining `n - 1` items, or their error |
| Decoder.ReadItemsUnfold | src/lib.rs:122-126 | one loop turn: the first error stops the loop, otherwise the value is pushed before the rest |
| IntText.NatDigits | src/lib.rs:58 | the digits printed for a length are ASCII digits without a leading zero whose base-10 value is the length |
| IntText.ParseDecimal | src/lib.rs:55 | `parse::<i64>` of what `{}` prints for an `i64` gives the same `i64` |
| IntText.DecimalIsPlainAscii | src/lib.rs:58-61 | the printed digits are ASCII and hold no `\r`, so the `c as u8` conversion keeps each byte |
| Encoder.EncodeAllSnoc | src/lib.rs:74-76 | extending the item frames by one item appends that item's frame |
| Encoder.NullBulkIsSizeLine | src/lib.rs:66 | `$-1\r\n` is the size line of size `-1` and nothing else |
| Codec.ReadArray | src/lib.rs:113-129 | the looping `read_array` returns exactly what Decoder.ReadArray specifies, including the first item error; the rest is a proper suffix |
| Codec.ReadItemsStep | src/lib.rs:122-126 | one turn of the element loop in terms of the items already pushed |
| Codec.ReadArrayUnfold | src/lib.rs:113-128 | `read_array` is the count line (its error) followed by the element loop (its error) |
| Codec.AsBytes | src/lib.rs:51-80 | the vector-extending `as_bytes` produces exactly `Encode(v)` for every value, arrays included |
| Properties.FirstCrlf | src/lib.rs:132 | after a `\r\n`-free payload, the first window is the one right after it |
| Properties.FramedLine | src/lib.rs:131-139 | a `\r\n`-free line, `\r\n` and any tail read back as that line and that tail |
| Properties.DecimalIsLine | src/lib.rs:55 | the decimal text of any integer is valid UTF-8 without `\r\n` |
| Properties.SizeLine | src/lib.rs:91-96 | the size line of any `i64` reads back as that size, leaving the tail |
| Properties.StringLine | src/lib.rs:82-88 | a `\r\n`-free text line reads back as that `SimpleString` |
| Properties.SimpleStringFrame | src/lib.rs:22-31 | `+s\r\n` and `-s\r\n` with any tail decode to `SimpleString(s)`/`Error(s)` and leave the tail |
| Properties.IntegerFrame | src/lib.rs:32-43 | `:n\r\n` with any tail decodes to `Integer(n)` for every `i64` |
| Properties.BulkFrameAt | src/lib.rs:90-111 | the bulk string after a size line of `n`: `-1` null, below `-1` or short input `UnexpectedEof`, otherwise `n` payload bytes and two skipped bytes |
| Properties.ArrayFrameAt | src/lib.rs:113-129 | the array after a count line of `n`: the items the loop reads from the rest, none when negative |
| Properties.NullBulkFrame | src/lib.rs:98-100 | `$-1\r\n` with any tail decodes to `BulkString(None)` and consumes only the size line |
| Properties.BulkPayloadVerbatim | src/lib.rs:102-110 | the payload is taken verbatim with no UTF-8 check, and the two bytes after it are skipped whatever they are |
| Properties.ArrayFrame | src/lib.rs:121-128 | an array frame decodes to its items when the items decode from what follows the count line |
| Properties.RoundTrip | src/lib.rs:20-80 | decoding `as_bytes(v)` followed by ANY bytes gives `v` back and leaves exactly those bytes, for every well-formed `v` |
| Properties.RoundTripAll | src/lib.rs:121-126 | the frames of well-formed items, followed by any bytes, are read back by the element loop as the same items in the same order |
| Properties.Pipelining | src/lib.rs:20-49 | two frames in a row decode one after the other, the first leaving the second as the rest |
| Properties.ReencodeDecoded | src/lib.rs:20-80 | whatever the decoder returns re-encodes to a frame that decodes back to it |
| Properties.CutInFirstLine | src/lib.rs:131-138 | a cut inside the first line of a frame is `UnexpectedEof` |
| Properties.CutInBulkPayload | src/lib.rs:102-105 | a bulk string cut anywhere after its size line is `UnexpectedEof` |
| Properties.ArrayFrameError | src/lib.rs:122-124 | an array whose element loop fails fails with the loop's error |
| Properties.Truncation | src/lib.rs:20-49 | every strict prefix of the frame of a well-formed value, nested arrays included, is `UnexpectedEof`, never a shorter value or another error |
| Properties.TruncatedScalar | src/lib.rs:22-44 | the same for frames without items |
| Properties.TruncatedArray | src/lib.rs:113-126 | the same for array frames, cut in the count line or in the items |
| Properties.TruncationAll | src/lib.rs:122-126 | the element loop on a strict prefix of the item frames is `UnexpectedEof` |
| Properties.DispatchErrors | src/lib.rs:21-47 | empty input is `UnexpectedEof`; an unknown tag byte `b` is `UnexpectedByte(b)`; a known tag without any `\r\n` after it is `UnexpectedEof` |
| Properties.LineErrors | src/lib.rs:82-96 | a first line that is not UTF-8 is `FromUtf8Error` for every tag; for `:`, `$`, `*` a UTF-8 line that is not an `i64` is `ParseIntError` |
| Properties.ArrayNegativeCount | src/lib.rs:121-122 | a negative count (the null array `*-1`) gives the empty array and consumes only the count line |
| Properties.ItemsThenFailure | src/lib.rs:122-126 | when well-formed items are followed by bytes that fail and more items are expected, the loop fails with that error |
| Properties.SkipFirstItem | src/lib.rs:122-126 | the same, with the first item split off |
| Properties.AfterFirstItem | src/lib.rs:122-125 | a well-formed first item is skipped and the loop's later error is returned |
| Properties.ArrayElementError | src/lib.rs:113-128 | an array announcing `n` items whose first `k < n` decode and whose next fails returns that first error |
| Examples.EmptyAndOneByte | src/lib.rs:146-158 | empty input and a lone `+` are `UnexpectedEof` |
| Examples.DecodesSimpleString | src/lib.rs:160-165 | `+OK\r\n` decodes to `SimpleString("OK")` |
| Examples.DecodesError | src/lib.rs:167-175 | `-ERR unknown command 'foobar'\r\n` decodes to that `Error` |
| Examples.DecodesInteger | src/lib.rs:177-182 | `:1000\r\n` decodes to `Integer(1000)` |
| Examples.DecodesBulkString | src/lib.rs:184-192 | `$6\r\nfoobar\r\n` decodes to `BulkString(Some("foobar"))` |
| Examples.DecodesNullBulkString | src/lib.rs:194-199 | `$-1\r\n` decodes to `BulkString(None)` |
| Examples.DecodesArray | src/lib.rs:201-212 | `*2\r\n+foo\r\n+bar\r\n` decodes to the array of `foo` and `bar` |
| Examples.DecodesNullArray | src/lib.rs:214-219 | `*-1\r\n` decodes to the empty array |
| Examples.DecodesNestedArray | src/lib.rs:221-238 | two nested `foo`/`bar` arrays decode to the nested value |
| Examples.TwoNullArrays | src/lib.rs:240-248 | two null arrays in a row are read as two empty arrays |
| Examples.DecodesNestedNullArrays | src/lib.rs:240-248 | `*2\r\n*-1\r\n*-1\r\n` decodes to an array of two empty arrays |
| Examples.DecodesMixedArray | src/lib.rs:250-262 | the mixed array decodes to `foo`, `1000` and `foobar` in order |
| Examples.DecodesMixedNullArray | src/lib.rs:264-276 | the mixed array with a null bulk string decodes in order |
| Examples.EncodedSimpleString | src/lib.rs:278-283 | `SimpleString("OK")` encodes to `+OK\r\n` |
| Examples.EncodedError | src/lib.rs:285-290 | the error reply encodes to `-ERR unknown command 'foobar'\r\n` |
| Examples.EncodedInteger | src/lib.rs:292-297 | `Integer(1000)` encodes to `:1000\r\n` |
| Examples.EncodedNullBulkString | src/lib.rs:299-304 | `BulkString(None)` encodes to `$-1\r\n` |
| Examples.EncodedArray | src/lib.rs:306-314 | the array of `foo` and `bar` encodes to `*2\r\n+foo\r\n+bar\r\n` |
| Examples.EncodedBulkString | src/lib.rs:56-64 | `BulkString(Some("foobar"))` encodes to `$6\r\nfoobar\r\n` |
| Examples.EncodedNestedArray | src/lib.rs:69-78 | the nested array encodes to its count line followed by the two inner frames |
| Examples.EncodedMixedArray | src/lib.rs:69-78 | the mixed array encodes to `*3\r\n+foo\r\n:1000\r\n$6\r\nfoobar\r\n` |
| Examples.EncodedMixedNullArray | src/lib.rs:69-78 | the mixed null array encodes to `*3\r\n+foo\r\n:1000\r\n$-1\r\n` |

## Left out

- Decoder.ReadBulkString: a bulk size below `-1` is modelled as
  `UnexpectedEof`. The source casts the size to `usize` and adds 2.
  - For sizes of `-3` and below, the end index is larger than any input, so
    the source returns `UnexpectedEof`, and the model matches it.
  - For `-2`, the addition overflows. With overflow checks on it panics.
    Without them the end index wraps to 0 and the slice `[..size as usize]`
    panics.
  - The model returns an error where the source panics. It does not model
    panics.
- `usize` arithmetic in general: lengths and indices are unbounded `nat`.
  `WellFormed` keeps bulk and array lengths within `i64::MAX`. Beyond that,
  the decoder's `i64` size parse would reject an encoder's length anyway.
- The null array `*-1` decodes as the empty array, because the source's
  loop `for _ in 0..size` runs no turns for a negative count. The encoder
  writes `*0` for that value, so `*-1` does not survive a decode/encode
  cycle byte for byte. `Properties.ReencodeDecoded` states what does hold.
- Nesting depth: the source recurses once per nesting level and has no
  depth limit. The model has no stack, so stack exhaustion is not modelled.
- Unicode: text is modelled as the bytes of a well-formed UTF-8 sequence.
  Characters, normalisation and `format!`'s handling of `String` are not
  modelled, since `format!("+{}\r\n", s)` copies the bytes of `s`.
- `Vec` allocation, `to_vec` copies and slice borrowing are not modelled:
  values and the remainder are sequences.
- No I/O takes place in the source, so none is modelled.
- The source gives the error for a non-UTF-8 line as `FromUtf8Error` and
  names the defensive variant `UnforeseenError`. The model uses these names.
  `Decoder.FromBytes` proves `UnforeseenError` is never returned.
- Simple strings and errors: the decoder stops at the first `\r\n` window
  and accepts a lone `\r` or `\n` inside the text. `WellFormed` therefore
  excludes only the two-byte window, as the code does, not every `\r` or
  `\n`.
- `parse::<i64>` accepts a leading `+` as well as `-`. The size and integer
  lines are modelled with that rule. Leading zeros are accepted.
- The crate's `#[cfg(test)]` module is not modelled as code. Its cases
  appear as the `Examples` lemmas. Each decoding case there is stated for
  the test's input followed by any tail; the test itself is the case of an
  empty tail.
