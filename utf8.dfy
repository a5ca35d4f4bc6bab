/** UTF-8 well-formedness as Rust's `String::from_utf8` checks it
    (the well-formed byte sequences of Table 3-7 of the Unicode Standard,
    chapter 3: no overlong forms, no surrogates, nothing above U+10FFFF). */
module Utf8 {
  import opened Bytes

  /** A continuation byte `10xxxxxx`. */
  predicate IsContinuation(b: uint8)
  {
    0x80 <= b <= 0xBF
  }

  /** The number of bytes of the well-formed character that `s` starts with,
      or 0 when `s` does not start with one. */
  function LeadingCharWidth(s: seq<uint8>): (w: nat)
    requires |s| > 0
    ensures w <= 4 && w <= |s|
  {
    var b0 := s[0];
    if b0 <= 0x7F then 1
    else if 0xC2 <= b0 <= 0xDF then
      if |s| >= 2 && IsContinuation(s[1]) then 2 else 0
    else if 0xE0 <= b0 <= 0xEF then
      var lo := if b0 == 0xE0 then 0xA0 else 0x80;
      var hi := if b0 == 0xED then 0x9F else 0xBF;
      if |s| >= 3 && lo <= s[1] <= hi && IsContinuation(s[2]) then 3 else 0
    else if 0xF0 <= b0 <= 0xF4 then
      var lo := if b0 == 0xF0 then 0x90 else 0x80;
      var hi := if b0 == 0xF4 then 0x8F else 0xBF;
      if |s| >= 4 && lo <= s[1] <= hi && IsContinuation(s[2]) && IsContinuation(s[3]) then 4 else 0
    else 0
  }

  /** `s` is a sequence of well-formed UTF-8 characters. */
  predicate ValidUtf8(s: seq<uint8>)
    decreases |s|
  {
    if |s| == 0 then true
    else
      var w := LeadingCharWidth(s);
      w > 0 && ValidUtf8(s[w..])
  }

  /** Text is a Rust `String`: bytes that are valid UTF-8. */
  type Utf8String = s: seq<uint8> | ValidUtf8(s) witness []

  /** Every ASCII byte sequence is valid UTF-8. */
  lemma {:induction false} AsciiIsUtf8(s: seq<uint8>)
    requires forall i | 0 <= i < |s| :: s[i] < 0x80
    ensures ValidUtf8(s)
  {
    if |s| > 0 {
      assert LeadingCharWidth(s) == 1;
      AsciiIsUtf8(s[1..]);
    }
  }
}
