/**
  `QString::toInt()` in base 10 with no `ok` flag, as the key sender calls it:
  surrounding whitespace is ignored, one optional sign, then one or more
  ASCII digits; anything else, or a value outside the 32-bit `int` range,
  reads as 0.
 */
module QtInt {
  import opened QStrings
  import opened Options

  const Int32Min: int := -0x8000_0000
  const Int32Max: int := 0x7FFF_FFFF

  predicate IsDigit(c: char) {
    '0' <= c <= '9'
  }

  predicate AllDigits(s: string) {
    forall i :: 0 <= i < |s| ==> IsDigit(s[i])
  }

  function DigitValue(c: char): nat
    requires IsDigit(c)
  {
    c as int - '0' as int
  }

  /** The value of a run of decimal digits, most significant first. */
  function DigitsValue(ds: string): nat
    requires AllDigits(ds)
  {
    if |ds| == 0 then 0
    else DigitsValue(ds[..|ds| - 1]) * 10 + DigitValue(ds[|ds| - 1])
  }

  /** The value of a run of one or more digits, or None. */
  function ParseDigits(ds: string): Option<nat> {
    if |ds| > 0 && AllDigits(ds) then Some(DigitsValue(ds)) else None
  }

  /** The value of an optionally signed run of digits, or None. */
  function ParseSigned(t: string): Option<int> {
    if |t| > 0 && t[0] == '-' then
      match ParseDigits(t[1..])
      case Some(v) => Some(-(v as int))
      case None => None
    else if |t| > 0 && t[0] == '+' then
      match ParseDigits(t[1..])
      case Some(v) => Some(v)
      case None => None
    else
      match ParseDigits(t)
      case Some(v) => Some(v)
      case None => None
  }

  /** The integer a decimal numeral with optional surrounding whitespace
      denotes, or None if the text is not one. */
  function ParseDecimal(s: string): Option<int> {
    ParseSigned(Trim(s))
  }

  /** `QString::toInt`: the numeral's value when it is one and fits in an
      `int`, 0 otherwise. */
  function ToInt(s: string): (n: int)
    ensures Int32Min <= n <= Int32Max
    ensures n != 0 ==> ParseDecimal(s) == Some(n)
  {
    match ParseDecimal(s)
    case Some(v) => if Int32Min <= v <= Int32Max then v else 0
    case None => 0
  }

  /** A numeral that fits in an `int` reads as its value. */
  lemma ToIntOfDecimal(s: string, n: int)
    requires ParseDecimal(s) == Some(n) && Int32Min <= n <= Int32Max
    ensures ToInt(s) == n
  {
  }

  function DigitChar(d: nat): (c: char)
    requires d < 10
    ensures IsDigit(c) && DigitValue(c) == d
  {
    ('0' as int + d) as char
  }

  /** The shortest decimal numeral of a natural number. */
  function Decimal(n: nat): (s: string)
    ensures |s| > 0 && AllDigits(s)
  {
    if n < 10 then [DigitChar(n)] else Decimal(n / 10) + [DigitChar(n % 10)]
  }

  /** A numeral of an integer, with a minus sign when it is negative. */
  function Numeral(n: int): (s: string)
    ensures |s| > 0 && ' ' !in s
  {
    if n < 0 then "-" + Decimal(-n) else Decimal(n)
  }

  /** Reading back a written numeral gives the number. */
  lemma {:induction false} DecimalRoundTrip(n: nat)
    ensures DigitsValue(Decimal(n)) == n
  {
    if n >= 10 {
      DecimalRoundTrip(n / 10);
      var s := Decimal(n);
      assert s[..|s| - 1] == Decimal(n / 10);
    }
  }

  /** A run of digits has no whitespace to trim. */
  lemma TrimDigits(s: string)
    requires |s| > 0 && AllDigits(s)
    ensures Trim(s) == s
  {
    assert IsDigit(s[0]) && IsDigit(s[|s| - 1]);
    TrimNoOp(s);
  }

  /** A written natural number parses back to itself. */
  lemma ParseDigitsDecimal(m: nat)
    ensures ParseDigits(Decimal(m)) == Some(m)
  {
    DecimalRoundTrip(m);
  }

  /** A numeral has no whitespace at either end. */
  lemma TrimNumeral(n: int)
    ensures Trim(Numeral(n)) == Numeral(n)
  {
    var s := Numeral(n);
    var ds := if n < 0 then Decimal(-n) else Decimal(n);
    assert IsDigit(ds[|ds| - 1]);
    assert s[|s| - 1] == ds[|ds| - 1];
    assert s[0] == '-' || IsDigit(s[0]);
    TrimNoOp(s);
  }

  /** A numeral parses back to its number. */
  lemma ParseSignedNumeral(n: int)
    ensures ParseSigned(Numeral(n)) == Some(n)
  {
    var s := Numeral(n);
    if n < 0 {
      ParseDigitsDecimal(-n);
      assert s[1..] == Decimal(-n);
    } else {
      ParseDigitsDecimal(n);
      assert IsDigit(s[0]);
    }
  }

  /** `toInt` reads every `int` back from its numeral. */
  lemma ToIntNumeral(n: int)
    requires Int32Min <= n <= Int32Max
    ensures ToInt(Numeral(n)) == n
  {
    TrimNumeral(n);
    ParseSignedNumeral(n);
    ToIntOfDecimal(Numeral(n), n);
  }
}
