/** Upper-case hexadecimal fields as Python's `X` format writes them, and how they are read back. */
module Hex {

  predicate IsHexDigit(c: char) {
    '0' <= c <= '9' || 'A' <= c <= 'F' || 'a' <= c <= 'f'
  }

  function DigitValue(c: char): (v: nat)
    requires IsHexDigit(c)
    ensures v < 16
  {
    if '0' <= c <= '9' then c as int - '0' as int
    else if 'A' <= c <= 'F' then c as int - 'A' as int + 10
    else c as int - 'a' as int + 10
  }

  function DigitChar(v: nat): (c: char)
    requires v < 16
    ensures IsHexDigit(c) && DigitValue(c) == v
  {
    if v < 10 then ('0' as int + v) as char else ('A' as int + v - 10) as char
  }

  predicate AllHex(s: string) { forall i :: 0 <= i < |s| ==> IsHexDigit(s[i]) }

  function Value(s: string): nat
    requires AllHex(s)
  {
    if s == [] then 0 else 16 * Value(s[..|s|-1]) + DigitValue(s[|s|-1])
  }

  function Pow16(n: nat): (p: nat)
    ensures p > 0
  {
    if n == 0 then 1 else 16 * Pow16(n - 1)
  }

  /** `f'{n:0{width}X}'`: at least `width` digits, and never none. */
  function Format(n: nat, width: nat): (s: string)
    decreases n, width
    ensures AllHex(s) && |s| >= 1 && |s| >= width
  {
    if n < 16 && width <= 1 then [DigitChar(n)]
    else Format(n / 16, if width == 0 then 0 else width - 1) + [DigitChar(n % 16)]
  }

  lemma {:induction false} FormatValue(n: nat, width: nat)
    ensures Value(Format(n, width)) == n
    decreases n, width
  {
    var s := Format(n, width);
    if n < 16 && width <= 1 {
      assert s[..|s|-1] == [];
    } else {
      var w := if width == 0 then 0 else width - 1;
      FormatValue(n / 16, w);
      assert s[..|s|-1] == Format(n / 16, w);
    }
  }

  /** A field wide enough for its number has exactly that width. */
  lemma {:induction false} FormatWidth(n: nat, width: nat)
    requires n < Pow16(width) && width > 0
    ensures |Format(n, width)| == width
    decreases width
  {
    if width > 1 {
      FormatWidth(n / 16, width - 1);
    } else {
      assert Pow16(1) == 16 * Pow16(0);
    }
  }

  lemma {:induction false} FormatShort(n: nat, limit: nat)
    requires n < Pow16(limit) && limit > 0
    ensures |Format(n, 0)| <= limit
    decreases limit
  {
    if limit == 1 {
      assert Pow16(1) == 16 * Pow16(0);
    } else if n >= 16 {
      FormatShort(n / 16, limit - 1);
    }
  }
}
