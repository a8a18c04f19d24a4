/** Decimal rendering of unsigned integers, as `format!("{}", n)` prints
    them, with the parser that reads such text back. */
module Decimal {
  import opened Wrappers

  predicate IsDigit(c: char)
  {
    '0' <= c <= '9'
  }

  predicate AllDigits(s: string)
  {
    forall i :: 0 <= i < |s| ==> IsDigit(s[i])
  }

  function DigitChar(d: nat): (c: char)
    requires d < 10
    ensures IsDigit(c)
  {
    ('0' as int + d) as char
  }

  function DigitValue(c: char): (d: nat)
    requires IsDigit(c)
    ensures d < 10
  {
    c as int - '0' as int
  }

  /** The shortest decimal numeral of `n`: at least one digit, and no
      leading zero unless `n` is zero. */
  function NatToString(n: nat): (s: string)
    ensures |s| >= 1 && AllDigits(s)
    ensures |s| > 1 ==> s[0] != '0'
  {
    if n < 10 then [DigitChar(n)] else NatToString(n / 10) + [DigitChar(n % 10)]
  }

  /** The value of a string of decimal digits. */
  function ParseDigits(s: string): nat
    requires AllDigits(s)
  {
    if s == [] then 0 else ParseDigits(s[..|s| - 1]) * 10 + DigitValue(s[|s| - 1])
  }

  /** Rendering is undone by parsing, so distinct numbers render differently. */
  lemma {:induction false} ParseNatToString(n: nat)
    ensures ParseDigits(NatToString(n)) == n
  {
    var s := NatToString(n);
    if n >= 10 {
      ParseNatToString(n / 10);
      assert s[..|s| - 1] == NatToString(n / 10);
    }
  }

  const BytesSuffix := " Bytes"

  /** The human-readable byte count, `format!("{} Bytes", n)`. */
  function BytesText(n: nat): string
  {
    NatToString(n) + BytesSuffix
  }

  /** Reads a `"<n> Bytes"` text back; `None` when the text has another shape. */
  function ParseBytes(s: string): Option<nat>
  {
    if |s| > |BytesSuffix| && s[|s| - |BytesSuffix|..] == BytesSuffix && AllDigits(s[..|s| - |BytesSuffix|])
    then Some(ParseDigits(s[..|s| - |BytesSuffix|]))
    else None
  }

  /** A rendered byte count reads back as the number it renders. */
  lemma ParseBytesText(n: nat)
    ensures ParseBytes(BytesText(n)) == Some(n)
  {
    var s := BytesText(n);
    assert s[..|s| - |BytesSuffix|] == NatToString(n);
    assert s[|s| - |BytesSuffix|..] == BytesSuffix;
    ParseNatToString(n);
  }
}
