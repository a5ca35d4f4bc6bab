/** Bytes, the CRLF terminator, and suffixes of byte buffers. */
module Bytes {

  /** One byte of a wire buffer (Rust `u8`). */
  type uint8 = x: int | 0 <= x < 256

  const CR: uint8 := 13
  const LF: uint8 := 10

  /** The two-byte RESP line terminator `\r\n`. */
  const CRLF: seq<uint8> := [CR, LF]

  /** The two-byte window of `s` starting at `i` is `\r\n`. */
  predicate IsCrlfAt(s: seq<uint8>, i: nat)
    requires i + 1 < |s|
  {
    s[i] == CR && s[i + 1] == LF
  }

  /** Some two-byte window of `s` is `\r\n` (a lone `\r` or `\n` does not count). */
  predicate HasCrlf(s: seq<uint8>)
  {
    exists i: nat | i + 1 < |s| :: IsCrlfAt(s, i)
  }

  /** `rest` is what is left of `bytes` after dropping some prefix. */
  predicate IsSuffix(rest: seq<uint8>, bytes: seq<uint8>)
  {
    |rest| <= |bytes| && bytes[|bytes| - |rest|..] == rest
  }

  /** `rest` is what is left of `bytes` after dropping a non-empty prefix. */
  predicate IsProperSuffix(rest: seq<uint8>, bytes: seq<uint8>)
  {
    |rest| < |bytes| && IsSuffix(rest, bytes)
  }

  /** No `\r` byte means no `\r\n` window. */
  lemma NoCrNoCrlf(s: seq<uint8>)
    requires forall i | 0 <= i < |s| :: s[i] != CR
    ensures !HasCrlf(s)
  {
    forall i: nat | i + 1 < |s|
      ensures !IsCrlfAt(s, i)
    {
      assert s[i] != CR;
    }
  }

  /** Appending `\r` to a CRLF-free sequence cannot create a `\r\n` window,
      and neither can cutting it short: every strict prefix of `s + CRLF`
      is CRLF-free. */
  lemma {:induction false} NoCrlfInStrictPrefix(s: seq<uint8>, q: seq<uint8>)
    requires !HasCrlf(s)
    requires |q| < |s| + 2 && q == (s + CRLF)[..|q|]
    ensures !HasCrlf(q)
  {
    forall i: nat | i + 1 < |q|
      ensures !IsCrlfAt(q, i)
    {
      if i + 1 < |s| {
        assert q[i] == s[i] && q[i + 1] == s[i + 1];
        assert !IsCrlfAt(s, i);
      } else {
        assert q[i + 1] == CR;
      }
    }
  }

  /** A suffix of a suffix is a suffix. */
  lemma SuffixTransitive(a: seq<uint8>, b: seq<uint8>, c: seq<uint8>)
    requires IsSuffix(a, b) && IsSuffix(b, c)
    ensures IsSuffix(a, c)
  {
    assert c[|c| - |b|..][|b| - |a|..] == c[|c| - |a|..];
  }
}
