/** The ordinal formatter of the family view's ranking card: a place in the
    product ranking rendered as "1st", "2nd", "3rd", "4th", "11th", ... It is
    written as Python's `"%d%s" % (n, "tsnrhtdd"[i::4])`, where the index `i`
    is 1, 2 or 3 exactly when the English suffix is "st", "nd" or "rd", and 0
    (selecting "th") otherwise. */
module Ordinal {

  /** Python's `bool` used as a number: `True` is 1 and `False` is 0. */
  function BoolToInt(b: bool): int {
    if b then 1 else 0
  }

  function DigitChar(d: nat): (c: char)
    requires d < 10
    ensures '0' <= c <= '9'
  {
    ('0' as int + d) as char
  }

  function DigitValue(c: char): (d: nat)
    requires '0' <= c <= '9'
    ensures d < 10
  {
    c as int - '0' as int
  }

  predicate AllDigits(s: string) {
    forall i :: 0 <= i < |s| ==> '0' <= s[i] <= '9'
  }

  /** Python's `"%d" % n` for a non-negative `n`: its decimal digits, most
      significant first, without leading zeros. */
  function Decimal(n: nat): (r: string)
    ensures |r| >= 1 && AllDigits(r)
    ensures |r| > 1 ==> r[0] != '0'
    ensures n < 10 <==> |r| == 1
  {
    if n < 10 then [DigitChar(n)] else Decimal(n / 10) + [DigitChar(n % 10)]
  }

  /** The number a string of decimal digits denotes. */
  function DecimalValue(s: string): nat
    requires AllDigits(s)
  {
    if s == [] then 0 else 10 * DecimalValue(s[..|s| - 1]) + DigitValue(s[|s| - 1])
  }

  /** Reading back the digits of `n` gives `n`. */
  lemma {:induction false} DecimalRoundTrip(n: nat)
    ensures DecimalValue(Decimal(n)) == n
  {
    var r := Decimal(n);
    if n >= 10 {
      DecimalRoundTrip(n / 10);
      assert r[..|r| - 1] == Decimal(n / 10);
    }
  }

  /** Distinct numbers are written differently. */
  lemma DecimalInjective(m: nat, n: nat)
    requires Decimal(m) == Decimal(n)
    ensures m == n
  {
    DecimalRoundTrip(m);
    DecimalRoundTrip(n);
  }

  /** Python's `s[start::step]` for a non-negative start and a positive step. */
  function StrideSlice(s: string, start: nat, step: nat): string
    requires step > 0
    decreases |s| - start
  {
    if start >= |s| then "" else [s[start]] + StrideSlice(s, start + step, step)
  }

  /** The index the source computes into "tsnrhtdd":
      `(n//10 % 10 != 1) * (n % 10 < 4) * n % 10`, evaluated left to right. */
  function SuffixIndex(n: nat): int {
    (BoolToInt(n / 10 % 10 != 1) * BoolToInt(n % 10 < 4) * n) % 10
  }

  /** The English ordinal suffix: "th" for 11, 12 and 13 (and 111, 212, ...),
      otherwise "st", "nd" or "rd" after a last digit 1, 2 or 3, and "th"
      after any other last digit. */
  function EnglishSuffix(n: nat): string {
    if 11 <= n % 100 <= 13 then "th"
    else if n % 10 == 1 then "st"
    else if n % 10 == 2 then "nd"
    else if n % 10 == 3 then "rd"
    else "th"
  }

  /** The tens digit of `n` is the tens digit of its last two digits. */
  lemma TensDigit(n: nat)
    ensures n / 10 % 10 == n % 100 / 10
    ensures n % 10 == n % 100 % 10
  {
    var q, r := n / 100, n % 100;
    assert n == 100 * q + r;
    assert n / 10 == 10 * q + r / 10;
    assert r / 10 < 10;
  }

  /** The four slices the index can select. */
  lemma SuffixSlices()
    ensures StrideSlice("tsnrhtdd", 0, 4) == "th"
    ensures StrideSlice("tsnrhtdd", 1, 4) == "st"
    ensures StrideSlice("tsnrhtdd", 2, 4) == "nd"
    ensures StrideSlice("tsnrhtdd", 3, 4) == "rd"
  {
    var s := "tsnrhtdd";
    forall i | 0 <= i < 4 ensures StrideSlice(s, i, 4) == [s[i], s[i + 4]] {
      assert StrideSlice(s, i + 8, 4) == "";
      assert StrideSlice(s, i + 4, 4) == [s[i + 4]];
    }
  }

  /** The source's index selects the English suffix. */
  lemma SuffixIndexIsEnglish(n: nat)
    ensures 0 <= SuffixIndex(n) < 4
    ensures StrideSlice("tsnrhtdd", SuffixIndex(n), 4) == EnglishSuffix(n)
  {
    TensDigit(n);
    SuffixSlices();
    var a, b := BoolToInt(n / 10 % 10 != 1), BoolToInt(n % 10 < 4);
    if a == 1 && b == 1 {
      assert SuffixIndex(n) == n % 10;
    } else {
      assert a * b == 0;
      assert SuffixIndex(n) == 0;
    }
  }

  /** `"%d%s" % (n, "tsnrhtdd"[...::4])`: the decimal digits of `n` followed by
      its English ordinal suffix. */
  function Format(n: nat): (r: string)
    ensures r == Decimal(n) + EnglishSuffix(n)
  {
    SuffixIndexIsEnglish(n);
    Decimal(n) + StrideSlice("tsnrhtdd", SuffixIndex(n), 4)
  }

  /** The formatted place ends in a two-letter suffix after the digits of `n`,
      so different places are never written alike. */
  lemma FormatInjective(m: nat, n: nat)
    requires Format(m) == Format(n)
    ensures m == n
  {
    var dm, dn := Decimal(m), Decimal(n);
    assert |EnglishSuffix(m)| == 2 && |EnglishSuffix(n)| == 2;
    assert Format(m)[..|dm|] == dm && Format(n)[..|dn|] == dn;
    assert forall i :: |dm| <= i < |Format(m)| ==> !('0' <= Format(m)[i] <= '9');
    assert forall i :: |dn| <= i < |Format(n)| ==> !('0' <= Format(n)[i] <= '9');
    assert |dm| == |dn|;
    DecimalInjective(m, n);
  }

  /** A place below 10 is one digit and its suffix. */
  lemma FormatOneDigit(n: nat)
    requires n < 10
    ensures Format(n) == [DigitChar(n)] + EnglishSuffix(n)
  {
  }

  /** A place from 100 to 999 is three digits and its suffix. */
  lemma FormatThreeDigits(n: nat)
    requires 100 <= n < 1000
    ensures Format(n) == [DigitChar(n / 100), DigitChar(n / 10 % 10), DigitChar(n % 10)] + EnglishSuffix(n)
  {
    assert Decimal(n / 10 / 10) == [DigitChar(n / 100)];
    assert Decimal(n / 10) == [DigitChar(n / 100), DigitChar(n / 10 % 10)];
  }

  /** The first places are written "1st", "2nd", "3rd", "4th", but 11, 12 and
      13 take "th" although they end in 1, 2 and 3; past the teens the last
      digit chooses again, and only the last two digits matter. */
  lemma SuffixExamples()
    ensures EnglishSuffix(1) == "st" && EnglishSuffix(2) == "nd" && EnglishSuffix(3) == "rd" && EnglishSuffix(4) == "th"
    ensures EnglishSuffix(11) == "th" && EnglishSuffix(12) == "th" && EnglishSuffix(13) == "th"
    ensures EnglishSuffix(21) == "st" && EnglishSuffix(22) == "nd" && EnglishSuffix(33) == "rd"
    ensures EnglishSuffix(101) == "st" && EnglishSuffix(111) == "th" && EnglishSuffix(112) == "th"
  {
  }

  /** The best-selling family's card reads "1st". */
  lemma FormatFirst()
    ensures Format(1) == "1st"
  {
    FormatOneDigit(1);
  }

  /** A three-digit teen place: "112th". */
  lemma FormatHundredTwelfth()
    ensures Format(112) == "112th"
  {
    FormatThreeDigits(112);
  }
}
