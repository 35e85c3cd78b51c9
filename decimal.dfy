/**
  Decimal text: the digits-only part of Python's `int(s)` and the zero-padded
  fields that `strftime` writes for `%Y`, `%m`, `%d`, `%H` and `%M`.
 */
module Decimal {
  import opened Results

  predicate IsDigit(c: char) { '0' <= c <= '9' }

  predicate AllDigits(s: string) { forall i :: 0 <= i < |s| ==> IsDigit(s[i]) }

  function DigitValue(c: char): nat
    requires IsDigit(c)
  {
    c as int - '0' as int
  }

  function DigitChar(d: nat): (c: char)
    requires d < 10
    ensures IsDigit(c) && DigitValue(c) == d
  {
    ('0' as int + d) as char
  }

  function Pow10(n: nat): (p: nat)
    ensures p >= 1
  {
    if n == 0 then 1 else 10 * Pow10(n - 1)
  }

  /** The number a non-empty run of decimal digits denotes (leading zeros allowed). */
  function ValueOf(s: string): (v: nat)
    requires AllDigits(s)
    ensures v < Pow10(|s|)
  {
    if s == [] then 0 else ValueOf(s[..|s| - 1]) * 10 + DigitValue(s[|s| - 1])
  }

  /** `int(s)` for a string that must consist of decimal digits only; `None` is the `ValueError`. */
  function ParseInt(s: string): Option<nat>
  {
    if s == [] || !IsDigit(s[|s| - 1]) then None
    else if |s| == 1 then Some(DigitValue(s[0]))
    else match ParseInt(s[..|s| - 1])
      case None => None
      case Some(v) => Some(v * 10 + DigitValue(s[|s| - 1]))
  }

  /** `int` accepts exactly the non-empty digit strings, and reads them in base ten. */
  lemma {:induction false} ParseIntMeaning(s: string)
    ensures ParseInt(s).Some? <==> s != [] && AllDigits(s)
    ensures ParseInt(s).Some? ==> ParseInt(s).value == ValueOf(s) < Pow10(|s|)
  {
    if |s| > 1 {
      var init := s[..|s| - 1];
      ParseIntMeaning(init);
      assert forall i :: 0 <= i < |init| ==> init[i] == s[i];
    } else if |s| == 1 {
      assert s[..0] == [];
    }
  }

  /** The last `width` decimal digits of `n`, zero-padded on the left. */
  function Padded(n: nat, width: nat): (s: string)
    ensures |s| == width && AllDigits(s)
  {
    if width == 0 then "" else Padded(n / 10, width - 1) + [DigitChar(n % 10)]
  }

  lemma {:induction false} ValueOfPadded(n: nat, width: nat)
    requires n < Pow10(width)
    ensures ValueOf(Padded(n, width)) == n
  {
    if width > 0 {
      var s := Padded(n, width);
      assert s[..|s| - 1] == Padded(n / 10, width - 1);
      ValueOfPadded(n / 10, width - 1);
    }
  }

  /** Reading back a padded field gives the number that was written. */
  lemma ParsePadded(n: nat, width: nat)
    requires 0 < width && n < Pow10(width)
    ensures ParseInt(Padded(n, width)) == Some(n)
  {
    ValueOfPadded(n, width);
    ParseIntMeaning(Padded(n, width));
  }
}
