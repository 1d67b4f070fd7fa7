/** `formatNumber`: a compact label for a count, such as "999", "2K" or "2M".
    The source rounds with `Math.round(n / 1000)`; for a non-negative integer
    `n` that is `(n + 500) / 1000` in integer division, so the model needs no
    floating point. */
module NumberFormat {

  predicate IsDigit(c: char) {
    '0' <= c <= '9'
  }

  /** A decimal numeral: digits only, at least one, no leading zero. */
  predicate IsNumeral(s: string) {
    |s| > 0 && (forall i :: 0 <= i < |s| ==> IsDigit(s[i])) && (s[0] == '0' ==> |s| == 1)
  }

  function DigitChar(d: nat): (c: char)
    requires d < 10
  {
    ('0' as int + d) as char
  }

  /** The value of a string of decimal digits. */
  function DigitsValue(s: string): nat
    requires forall i :: 0 <= i < |s| ==> IsDigit(s[i])
  {
    if s == [] then 0
    else DigitsValue(s[..|s| - 1]) * 10 + DigitValue(s[|s| - 1])
  }

  function DigitValue(c: char): (d: nat)
    requires IsDigit(c)
  {
    c as int - '0' as int
  }

  /** The template literal `${n}` of a non-negative integer. */
  function NatToString(n: nat): string {
    if n < 10 then [DigitChar(n)] else NatToString(n / 10) + [DigitChar(n % 10)]
  }

  /** `formatNumber(n)` */
  function FormatNumber(n: nat): string {
    if n >= 1_000_000 then NatToString((n + 500_000) / 1_000_000) + "M"
    else if n >= 1_000 then NatToString((n + 500) / 1_000) + "K"
    else NatToString(n)
  }

  // ---------------------------------------------------------------------

  /** `${n}` is the canonical numeral of `n`: reading it back gives `n`. */
  lemma {:induction false} NatToStringSpec(n: nat)
    ensures IsNumeral(NatToString(n))
    ensures DigitsValue(NatToString(n)) == n
  {
    var s := NatToString(n);
    if n >= 10 {
      NatToStringSpec(n / 10);
      assert s[..|s| - 1] == NatToString(n / 10);
    }
  }

  /** Distinct numbers get distinct numerals. */
  lemma NatToStringInjective(a: nat, b: nat)
    requires NatToString(a) == NatToString(b)
    ensures a == b
  {
    NatToStringSpec(a);
    NatToStringSpec(b);
  }

  /** A "K" or "M" label: a numeral followed by the suffix, whose value is
      `n / unit` rounded half up, i.e. `unit * k - unit / 2 <= n < unit * k + unit / 2`. */
  predicate RoundedLabel(r: string, n: nat, unit: nat, suffix: char)
    requires unit > 0
  {
    |r| >= 2 && r[|r| - 1] == suffix && IsNumeral(r[..|r| - 1]) &&
    var k := DigitsValue(r[..|r| - 1]);
    unit * k <= n + unit / 2 < unit * k + unit
  }

  /** The three ranges of `formatNumber`: below a thousand the plain numeral;
      below a million the thousands rounded half up with "K"; otherwise the
      millions rounded half up with "M". */
  lemma FormatNumberSpec(n: nat)
    ensures n < 1_000 ==> IsNumeral(FormatNumber(n)) && DigitsValue(FormatNumber(n)) == n
    ensures 1_000 <= n < 1_000_000 ==> RoundedLabel(FormatNumber(n), n, 1_000, 'K')
    ensures 1_000_000 <= n ==> RoundedLabel(FormatNumber(n), n, 1_000_000, 'M')
  {
    var r := FormatNumber(n);
    if n >= 1_000_000 {
      var k := (n + 500_000) / 1_000_000;
      NatToStringSpec(k);
      assert r[..|r| - 1] == NatToString(k);
    } else if n >= 1_000 {
      var k := (n + 500) / 1_000;
      NatToStringSpec(k);
      assert r[..|r| - 1] == NatToString(k);
    } else {
      NatToStringSpec(n);
    }
  }

  /** The values the source asserts when the page loads. */
  lemma FormatNumberExamples()
    ensures FormatNumber(999) == "999"
    ensures FormatNumber(1_000) == "1K"
    ensures FormatNumber(1_500) == "2K"
    ensures FormatNumber(1_000_000) == "1M"
    ensures FormatNumber(1_500_000) == "2M"
    ensures FormatNumber(0) == "0"
    ensures FormatNumber(42) == "42"
    ensures FormatNumber(2_000_000) == "2M"
  {
  }

  /** Just below a million the thousands round up to 1000, so the label is
      "1000K" rather than "1M". */
  lemma FormatNumberThousandK(n: nat)
    requires 999_500 <= n < 1_000_000
    ensures FormatNumber(n) == "1000K"
  {
    assert (n + 500) / 1_000 == 1_000;
  }
}
