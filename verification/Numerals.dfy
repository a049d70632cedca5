/**
 Numbers in theme files: a numeral made of digits and dots, followed by a unit suffix.
 Values are exact; exponents and hexadecimal forms are not part of this model.
 */
module Numerals {
  predicate IsDigit(c: char) {
    '0' <= c <= '9'
  }

  predicate IsNumeralChar(c: char) {
    IsDigit(c) || c == '.'
  }

  predicate IsNumeral(s: string) {
    s != [] && IsDigit(s[0]) && forall i :: 0 <= i < |s| ==> IsNumeralChar(s[i])
  }

  /** A suffix starts with something that cannot belong to the numeral before it. */
  predicate IsSuffix(s: string) {
    s == [] || !IsNumeralChar(s[0])
  }

  /** A suffix that would be read as part of its number: an exponent, or the rest of a hexadecimal numeral. */
  predicate ExtendsNumeral(suffix: string) {
    && |suffix| >= 2
    && ((suffix[0] in "eE" && (IsDigit(suffix[1]) || (|suffix| >= 3 && suffix[1] in "+-" && IsDigit(suffix[2]))))
        || (suffix[0] in "xX" && (IsHexDigit(suffix[1]) || suffix[1] == '.')))
  }

  predicate IsHexDigit(c: char) {
    IsDigit(c) || 'a' <= c <= 'f' || 'A' <= c <= 'F'
  }

  /** Exponents with or without a sign extend a number, as 0x10 does; units such as px, pt, em and % do not. */
  lemma {:induction false} ExtendingForms(k: nat)
    ensures ExtendsNumeral("e" + PrintNat(k)) && ExtendsNumeral("E" + PrintNat(k))
    ensures ExtendsNumeral("e-" + PrintNat(k)) && ExtendsNumeral("e+" + PrintNat(k))
    ensures ExtendsNumeral("x" + PrintNat(k))
    ensures forall unit :: unit in ["", "px", "pt", "em", "ex", "%"] ==> IsSuffix(unit) && !ExtendsNumeral(unit)
  {
    var digits := PrintNat(k);
    assert ("e" + digits)[1] == ("E" + digits)[1] == ("x" + digits)[1] == digits[0];
    assert ("e-" + digits)[2] == ("e+" + digits)[2] == digits[0];
  }

  /** A hexadecimal digit or a dot behind an x extends a number, and nothing else does. */
  lemma {:induction false} HexadecimalForms(x: char, c: char)
    requires x in "xX"
    ensures ExtendsNumeral([x, c]) <==> c in "0123456789abcdefABCDEF."
  {
    assert x != 'e' && x != 'E';
  }

  /** What starts with a digit or a dot belongs to the number, and everything else can be a suffix. */
  lemma {:induction false} SuffixByFirst(s: string)
    requires s != ""
    ensures IsSuffix(s) <==> s[0] !in "0123456789."
  {}

  function DigitValue(c: char): nat
    requires IsDigit(c)
  {
    c as nat - '0' as nat
  }

  function DigitChar(d: nat): (c: char)
    requires d < 10
    ensures IsDigit(c) && DigitValue(c) == d
  {
    (d + '0' as nat) as char
  }

  // ---- Reading ------------------------------------------------------------------------

  /** The whole number written by the digits in front of the first dot among n characters. */
  function WholePart(s: string, n: nat): nat
    requires n <= |s|
  {
    if n == 0 then 0
    else if IsDigit(s[n - 1]) then WholePart(s, n - 1) * 10 + DigitValue(s[n - 1])
    else 0
  }

  /** The fraction written by the digits from position i on. */
  function Fraction(s: string, i: nat): real
    requires i <= |s|
    decreases |s| - i
  {
    if i == |s| || !IsDigit(s[i]) then 0.0 else (DigitValue(s[i]) as real + Fraction(s, i + 1)) / 10.0
  }

  function DigitsEnd(s: string, i: nat): (end: nat)
    requires i <= |s|
    ensures i <= end <= |s|
    ensures forall k :: i <= k < end ==> IsDigit(s[k])
    ensures end < |s| ==> !IsDigit(s[end])
    decreases |s| - i
  {
    if i == |s| || !IsDigit(s[i]) then i else DigitsEnd(s, i + 1)
  }

  /** The value of a numeral; like strtod it stops at a second dot. */
  function NumeralValue(s: string): real {
    var end := DigitsEnd(s, 0);
    WholePart(s, end) as real + (if end < |s| && s[end] == '.' then Fraction(s, end + 1) else 0.0)
  }

  function NumeralEnd(s: string, i: nat): (end: nat)
    requires i <= |s|
    ensures i <= end <= |s|
    ensures forall k :: i <= k < end ==> IsNumeralChar(s[k])
    ensures end < |s| ==> !IsNumeralChar(s[end])
    decreases |s| - i
  {
    if i == |s| || !IsNumeralChar(s[i]) then i else NumeralEnd(s, i + 1)
  }

  function ReadValue(s: string): real {
    NumeralValue(s[..NumeralEnd(s, 0)])
  }

  function ReadSuffix(s: string): (suffix: string)
    ensures IsSuffix(suffix)
  {
    s[NumeralEnd(s, 0)..]
  }

  lemma {:induction false} NumeralEndIs(s: string, i: nat, n: nat)
    requires i <= n <= |s| && forall k :: i <= k < n ==> IsNumeralChar(s[k])
    requires n < |s| ==> !IsNumeralChar(s[n])
    ensures NumeralEnd(s, i) == n
    decreases n - i
  {
    if i < n {
      NumeralEndIs(s, i + 1, n);
    }
  }

  /** Reading splits a text exactly between its numeral and its suffix. */
  lemma {:induction false} ReadAppended(numeral: string, suffix: string)
    requires IsNumeral(numeral) && IsSuffix(suffix)
    ensures ReadValue(numeral + suffix) == NumeralValue(numeral) && ReadSuffix(numeral + suffix) == suffix
  {
    NumeralEndIs(numeral + suffix, 0, |numeral|);
    assert (numeral + suffix)[..|numeral|] == numeral;
  }

  // ---- Printing -----------------------------------------------------------------------

  function PrintNat(n: nat): (s: string)
    ensures s != [] && forall i :: 0 <= i < |s| ==> IsDigit(s[i])
  {
    if n < 10 then [DigitChar(n)] else PrintNat(n / 10) + [DigitChar(n % 10)]
  }

  lemma {:induction false} WholePartPrefix(s: string, t: string, n: nat)
    requires n <= |s| && n <= |t| && s[..n] == t[..n]
    ensures WholePart(s, n) == WholePart(t, n)
  {
    if n > 0 {
      assert s[n - 1] == s[..n][n - 1] == t[n - 1];
      assert s[..n - 1] == s[..n][..n - 1] == t[..n - 1];
      WholePartPrefix(s, t, n - 1);
    }
  }

  lemma {:induction false} WholePartOfPrinted(n: nat)
    ensures WholePart(PrintNat(n), |PrintNat(n)|) == n
  {
    var s := PrintNat(n);
    if n < 10 {
      assert WholePart(s, 0) == 0;
    } else {
      var front := PrintNat(n / 10);
      WholePartOfPrinted(n / 10);
      WholePartPrefix(s, front, |front|);
      assert s[|front|] == DigitChar(n % 10);
    }
  }

  lemma {:induction false} DigitsEndIs(s: string, i: nat)
    requires i <= |s| && forall k :: i <= k < |s| ==> IsDigit(s[k])
    ensures DigitsEnd(s, i) == |s|
    decreases |s| - i
  {
    if i < |s| {
      DigitsEndIs(s, i + 1);
    }
  }

  /** Printing and reading a whole number with a suffix is lossless. */
  lemma {:induction false} ReadPrinted(n: nat, suffix: string)
    requires IsSuffix(suffix)
    ensures ReadValue(PrintNat(n) + suffix) == n as real && ReadSuffix(PrintNat(n) + suffix) == suffix
  {
    ReadAppended(PrintNat(n), suffix);
    DigitsEndIs(PrintNat(n), 0);
    WholePartOfPrinted(n);
  }

  // ---- Decimals ------------------------------------------------------------------------

  function Power10(k: nat): nat {
    if k == 0 then 1 else 10 * Power10(k - 1)
  }

  predicate AllDigits(s: string) {
    forall i :: 0 <= i < |s| ==> IsDigit(s[i])
  }

  /** Moving the dot to the right by k places multiplies the value by the k-th power of ten. */
  lemma {:induction false} DotMoved(a: string, b: string)
    requires a != "" && AllDigits(a) && AllDigits(b)
    ensures NumeralValue(a + "." + b) * Power10(|b|) as real == NumeralValue(a + b)
  {
    hide *;
    DottedValue(a, b);
    WholeValue(a + b);
    DigitsFollow(a + b, |a|);
    Replaced(NumeralValue(a + "." + b), WholePart(a + b, |a|) as real + Fraction(a + b, |a|),
             Power10(|a + b| - |a|) as real);
  }

  lemma {:induction false} Replaced(x: real, y: real, k: real)
    requires x == y
    ensures x * k == y * k
  {}

  /** A decimal with a unit is read as its value and the unit. */
  lemma {:induction false} DecimalRead(a: string, b: string, unit: string)
    requires a != "" && AllDigits(a) && AllDigits(b) && IsSuffix(unit)
    ensures ReadValue(a + "." + b + unit) * Power10(|b|) as real == NumeralValue(a + b)
    ensures ReadSuffix(a + "." + b + unit) == unit
  {
    DotMoved(a, b);
    ReadAppended(a + "." + b, unit);
  }

  lemma {:induction false} WholeValue(s: string)
    requires AllDigits(s)
    ensures NumeralValue(s) == WholePart(s, |s|) as real
  {
    DigitsEndIs(s, 0);
  }

  lemma {:induction false} DottedValue(a: string, b: string)
    requires a != "" && AllDigits(a) && AllDigits(b)
    ensures AllDigits(a + b)
    ensures NumeralValue(a + "." + b) == WholePart(a + b, |a|) as real + Fraction(a + b, |a|)
  {
    var dotted, whole := a + "." + b, a + b;
    EndIs(dotted, 0, |a|);
    WholePartPrefix(dotted, whole, |a|);
    assert dotted[|a| + 1..] == b == whole[|a|..];
    FractionTail(dotted, b, |a| + 1);
    FractionTail(whole, b, |a|);
    hide WholePart, Fraction, DigitsEnd;
  }

  /** The digits before and behind a place together make the whole number, once scaled. */
  lemma {:induction false} DigitsFollow(s: string, i: nat)
    requires i <= |s| && AllDigits(s)
    ensures (WholePart(s, i) as real + Fraction(s, i)) * Power10(|s| - i) as real == WholePart(s, |s|) as real
    decreases |s| - i
  {
    hide WholePart, Fraction, Power10;
    DigitTaken(s, i);
    if i < |s| {
      DigitsFollow(s, i + 1);
      Regroup(WholePart(s, i) as real + Fraction(s, i), Power10(|s| - i - 1));
    }
  }

  lemma {:induction false} DigitTaken(s: string, i: nat)
    requires i <= |s| && AllDigits(s)
    ensures i == |s| ==> Fraction(s, i) == 0.0 && Power10(|s| - i) == 1
    ensures i < |s| ==> Power10(|s| - i) == 10 * Power10(|s| - i - 1)
    ensures i < |s| ==>
      (WholePart(s, i) as real + Fraction(s, i)) * 10.0 == WholePart(s, i + 1) as real + Fraction(s, i + 1)
  {}

  lemma {:induction false} Regroup(a: real, k: nat)
    ensures a * (10 * k) as real == a * 10.0 * k as real
  {
    assert (10 * k) as real == 10.0 * k as real;
  }

  lemma {:induction false} EndIs(s: string, i: nat, n: nat)
    requires i <= n < |s| && (forall k :: i <= k < n ==> IsDigit(s[k])) && !IsDigit(s[n])
    ensures DigitsEnd(s, i) == n
    decreases n - i
  {
    if i < n {
      EndIs(s, i + 1, n);
    }
  }

  lemma {:induction false} FractionTail(s: string, t: string, i: nat)
    requires i <= |s| && s[i..] == t
    ensures Fraction(s, i) == Fraction(t, 0)
  {
    FractionShift(s, t, i, 0);
  }

  lemma {:induction false} FractionShift(s: string, t: string, i: nat, j: nat)
    requires i <= |s| && s[i..] == t && j <= |t|
    ensures Fraction(s, i + j) == Fraction(t, j)
    decreases |t| - j
  {
    if j < |t| {
      assert s[i + j] == s[i..][j];
      FractionShift(s, t, i, j + 1);
    }
  }

}
