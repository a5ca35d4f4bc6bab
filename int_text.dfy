/** Decimal text of integers: Rust's `str::parse::<i64>` and the `{}`
    formatting of `i64` and `usize` values. */
module IntText {
  import opened Bytes
  import opened Wrappers

  const I64_MIN: int := -0x8000_0000_0000_0000
  const I64_MAX: int :=  0x7FFF_FFFF_FFFF_FFFF

  /** Rust `i64`. */
  type i64 = x: int | I64_MIN <= x <= I64_MAX

  const PLUS_SIGN: uint8 := 43   // '+'
  const MINUS_SIGN: uint8 := 45  // '-'
  const ZERO: uint8 := 48        // '0'

  predicate IsDigit(b: uint8)
  {
    ZERO <= b <= ZERO + 9
  }

  predicate AllDigits(s: seq<uint8>)
  {
    forall i | 0 <= i < |s| :: IsDigit(s[i])
  }

  /** The value of a string of ASCII digits read in base 10
      (leading zeros allowed). */
  function DigitsValue(s: seq<uint8>): nat
    requires AllDigits(s)
  {
    if |s| == 0 then 0
    else DigitsValue(s[..|s| - 1]) * 10 + (s[|s| - 1] - ZERO)
  }

  /** `str::parse::<i64>`: an optional `+` or `-`, then one or more ASCII
      digits whose value, with the sign applied, lies in the `i64` range.
      Anything else (the empty string, a lone sign, a non-digit, an
      overflow) is an error, here `None`. */
  function ParseI64(s: seq<uint8>): Option<i64>
  {
    if |s| == 0 then None
    else
      var signed := s[0] == PLUS_SIGN || s[0] == MINUS_SIGN;
      var digits := if signed then s[1..] else s;
      if |digits| == 0 || !AllDigits(digits) then None
      else
        var magnitude: int := DigitsValue(digits);
        var v: int := if s[0] == MINUS_SIGN then -magnitude else magnitude;
        if I64_MIN <= v <= I64_MAX then Some(v) else None
  }

  /** The shortest base-10 digit string of `n` (what `{}` prints for an
      unsigned value). */
  function NatDigits(n: nat): (r: seq<uint8>)
    ensures |r| > 0 && AllDigits(r) && DigitsValue(r) == n
    ensures |r| > 1 ==> r[0] != ZERO
  {
    if n < 10 then [ZERO + n]
    else
      var r := NatDigits(n / 10) + [ZERO + n % 10];
      assert r[..|r| - 1] == NatDigits(n / 10);
      r
  }

  /** What `{}` prints for an integer: a `-` for negative values, then the
      digits of the magnitude. */
  function Decimal(n: int): seq<uint8>
  {
    if n < 0 then [MINUS_SIGN] + NatDigits(-n) else NatDigits(n)
  }

  /** Parsing what `{}` printed gives the value back, for every `i64`. */
  lemma ParseDecimal(n: int)
    requires I64_MIN <= n <= I64_MAX
    ensures ParseI64(Decimal(n)) == Some(n)
  {
    var s := Decimal(n);
    if n < 0 {
      assert s[1..] == NatDigits(-n);
    } else {
      assert IsDigit(s[0]);
    }
  }

  /** The decimal text of an integer is ASCII and has no `\r`. */
  lemma DecimalIsPlainAscii(n: int)
    ensures forall i | 0 <= i < |Decimal(n)| :: Decimal(n)[i] < 0x80 && Decimal(n)[i] != CR
  {
    var s := Decimal(n);
    var d := NatDigits(if n < 0 then -n else n);
    assert forall i | 0 <= i < |d| :: IsDigit(d[i]);
    if n < 0 {
      assert forall i | 1 <= i < |s| :: s[i] == d[i - 1];
    }
  }
}
