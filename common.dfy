/** Value types shared by every part of the codec: bytes, 16-bit words,
    optional values, results and the codec's error taxonomy. */
module Common {

  /** An unsigned 8-bit value (Rust `u8`). */
  newtype byte = x: int | 0 <= x < 0x100

  /** An unsigned 16-bit value (Rust `u16`). */
  newtype u16 = x: int | 0 <= x < 0x1_0000

  /** An unsigned 32-bit value (Rust `u32`). */
  newtype u32 = x: int | 0 <= x < 0x1_0000_0000

  /** An unsigned 64-bit value (Rust `u64`). */
  newtype u64 = x: int | 0 <= x < 0x1_0000_0000_0000_0000

  /** Signed values (Rust `i16`, `i32`). */
  newtype i16 = x: int | -0x8000 <= x < 0x8000
  newtype i32 = x: int | -0x8000_0000 <= x < 0x8000_0000

  datatype Option<T> = None | Some(value: T)

  datatype Result<T> = Ok(value: T) | Err(error: Error)

  /** The errors a caller can see: the packer's failures, passed through
      unchanged, and the frame transport's own three. */
  datatype Error =
    | Incomplete(bits: nat)            // input ran out while reading a field of this many bits
    | Parse(message: string)
    | InvalidParam(message: string)
    | Assertion(message: string)
    | AssertionNoStr
    | IdVariantNotFound
    | Io
    | UnknownError(message: string)
    | EmptyData                        // decoding an empty buffer
    | IncorrectlyFormatted             // bad framing, or fewer than 3 unescaped bytes
    | ChecksumMismatch(actual: u16, expected: u16)

  const MAX_U32: nat := 0xFFFF_FFFF
  const MIN_I32: int := -0x8000_0000
  const MAX_I32: int := 0x7FFF_FFFF
  const MIN_I16: int := -0x8000
  const MAX_I16: int := 0x7FFF

  /** Integer division rounding toward zero, as Rust's `/` on signed
      integers does (Dafny's own `/` rounds toward minus infinity for a
      negative dividend). */
  function TruncDiv(a: int, d: int): (q: int)
    requires d > 0
    ensures a >= 0 ==> 0 <= q * d <= a < q * d + d
    ensures a < 0 ==> q * d - d < a <= q * d <= 0
  {
    var n := if a >= 0 then a else -a;
    QuotientBounds(n, d);
    if a >= 0 then n / d else -(n / d)
  }

  lemma QuotientBounds(n: nat, d: int)
    requires d > 0
    ensures 0 <= (n / d) * d <= n < (n / d) * d + d
  {
    var q, r := n / d, n % d;
    assert n == q * d + r;
  }

  /** A 16-bit pattern read as a two's-complement `i16` (Rust `as i16`). */
  function AsI16(x: nat): (v: i16)
    requires x < 0x1_0000
    ensures v as int % 0x1_0000 == x
  {
    if x < 0x8000 then x as i16 else (x - 0x1_0000) as i16
  }

  /** A 32-bit pattern read as a two's-complement `i32` (Rust `as i32`). */
  function AsI32(x: nat): (v: i32)
    requires x < 0x1_0000_0000
    ensures v as int % 0x1_0000_0000 == x
  {
    if x < 0x8000_0000 then x as i32 else (x - 0x1_0000_0000) as i32
  }

  /** Decimal rendering of a number, as Rust's `{}` formatting prints it:
      the digits spell the number and carry no leading zero. */
  function DecimalString(n: nat): (s: string)
    ensures |s| > 0
    ensures forall i | 0 <= i < |s| :: '0' <= s[i] <= '9'
    ensures DigitsValue(s) == n
    ensures |s| > 1 ==> s[0] != '0'
  {
    var digit := [(('0' as int) + n % 10) as char];
    if n < 10 then
      assert digit[..0] == [];
      digit
    else
      var front := DecimalString(n / 10);
      var s := front + digit;
      assert s[..|s| - 1] == front;
      assert |front| == 1 ==> front[..0] == [];
      s
  }

  /** The number a string of decimal digits spells, most significant digit
      first. */
  function DigitsValue(s: string): (n: nat)
    requires forall i | 0 <= i < |s| :: '0' <= s[i] <= '9'
  {
    if s == [] then 0
    else DigitsValue(s[..|s| - 1]) * 10 + (s[|s| - 1] as int - '0' as int)
  }
}
