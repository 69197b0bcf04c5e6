/**
 * Decimal numerals as the scanner's Python code reads and writes them:
 * `int(token)` on a regular-expression match and `str(n)` on an int.
 * Only ASCII digits are involved, because the pattern's class is `[0-9]`.
 */
module Numerals {

  import opened Wrappers

  /** CPython's default cap (`sys.get_int_max_str_digits()`, Python 3.11 and
      later, and the security releases 3.10.7, 3.9.14 and 3.8.14) on the number
      of digits int() reads from a string and str() writes for an int. Beyond
      it both raise ValueError. Leading zeros count towards it. */
  const MaxStrDigits := 4300

  function Abs(n: int): nat {
    if n < 0 then -n else n
  }

  predicate IsDigit(c: char) {
    '0' <= c <= '9'
  }

  predicate IsSign(c: char) {
    c == '+' || c == '-'
  }

  predicate AllDigits(s: string) {
    forall i :: 0 <= i < |s| ==> IsDigit(s[i])
  }

  function DigitValue(c: char): (d: nat)
    requires IsDigit(c)
    ensures d < 10
  {
    (c as int - '0' as int) as nat
  }

  function DigitChar(d: nat): (c: char)
    requires d < 10
    ensures IsDigit(c) && DigitValue(c) == d
  {
    ('0' as int + d) as char
  }

  /** The value of a run of digits, most significant first. */
  function DigitsValue(ds: string): nat
    requires AllDigits(ds)
  {
    if |ds| == 0 then 0 else DigitsValue(ds[..|ds| - 1]) * 10 + DigitValue(ds[|ds| - 1])
  }

  lemma DigitsValueAppend(ds: string, c: char)
    requires AllDigits(ds) && IsDigit(c)
    ensures AllDigits(ds + [c])
    ensures DigitsValue(ds + [c]) == DigitsValue(ds) * 10 + DigitValue(c)
  {
    assert (ds + [c])[..|ds|] == ds;
  }

  /** Python's int() drops leading zeros: "0" + ds reads as ds. */
  lemma {:induction false} LeadingZeroDropped(ds: string)
    requires AllDigits(ds)
    ensures AllDigits("0" + ds)
    ensures DigitsValue("0" + ds) == DigitsValue(ds)
  {
    var z := "0" + ds;
    if |ds| > 0 {
      var init := ds[..|ds| - 1];
      assert z[..|z| - 1] == "0" + init;
      LeadingZeroDropped(init);
    }
  }

  /** A text Python's int() accepts after the scanner's pattern matched it:
      an optional sign followed by at least one digit. */
  predicate IsIntLiteral(s: string) {
    || (|s| > 0 && AllDigits(s))
    || (|s| > 1 && IsSign(s[0]) && AllDigits(s[1..]))
  }

  /** The digits of a literal, without its sign. */
  function Magnitude(s: string): (ds: string)
    requires IsIntLiteral(s)
    ensures AllDigits(ds) && |ds| > 0
    ensures |ds| == |s| || |ds| == |s| - 1
  {
    if IsSign(s[0]) then s[1..] else s
  }

  /** The value of a signed decimal literal, as int() computes it when the
      literal is within the digit limit. */
  function ParseInt(s: string): (n: int)
    requires IsIntLiteral(s)
    ensures Abs(n) == DigitsValue(Magnitude(s))
    ensures n < 0 <==> s[0] == '-' && DigitsValue(Magnitude(s)) > 0
  {
    if s[0] == '-' then -(DigitsValue(s[1..]) as int)
    else if s[0] == '+' then DigitsValue(s[1..])
    else DigitsValue(s)
  }

  /** The digits of a natural number, without leading zeros. */
  function NatDigits(n: nat): (s: string)
    ensures |s| > 0 && AllDigits(s)
    ensures s[0] == '0' ==> n == 0
  {
    if n < 10 then [DigitChar(n)] else NatDigits(n / 10) + [DigitChar(n % 10)]
  }

  lemma {:induction false} NatDigitsValue(n: nat)
    ensures DigitsValue(NatDigits(n)) == n
  {
    if n >= 10 {
      NatDigitsValue(n / 10);
      DigitsValueAppend(NatDigits(n / 10), DigitChar(n % 10));
    }
  }

  /** Python's str() on an int: a minus sign for negative numbers, then the digits. */
  function DecimalString(n: int): (s: string)
    ensures IsIntLiteral(s) && s[0] != '+'
    ensures (s[0] == '-') == (n < 0)
    ensures |s| > 0
  {
    if n < 0 then "-" + NatDigits(-n) else NatDigits(n)
  }

  /** int(str(n)) == n. */
  lemma ParseDecimalString(n: int)
    ensures ParseInt(DecimalString(n)) == n
  {
    var s := DecimalString(n);
    if n < 0 {
      assert s[1..] == NatDigits(-n);
      NatDigitsValue(-n);
    } else {
      NatDigitsValue(n);
    }
  }

  /** A number read from k digits prints in at most k digits. */
  lemma {:induction false} NatDigitsOfDigitsValue(ds: string)
    requires AllDigits(ds) && |ds| > 0
    ensures |NatDigits(DigitsValue(ds))| <= |ds|
  {
    if |ds| > 1 {
      var init := ds[..|ds| - 1];
      var v := DigitsValue(ds);
      NatDigitsOfDigitsValue(init);
      if v >= 10 {
        assert v / 10 == DigitsValue(init);
      }
    }
  }

  /** Python's int() on a literal the pattern matched: None stands for the
      ValueError raised beyond MaxStrDigits digits. Whatever it returns can be
      given to str() again. */
  function IntFromLiteral(s: string): (r: Option<int>)
    requires IsIntLiteral(s)
    ensures r.None? <==> |Magnitude(s)| > MaxStrDigits
    ensures r.Some? ==> |NatDigits(Abs(r.value))| <= MaxStrDigits
  {
    if |Magnitude(s)| > MaxStrDigits then None
    else
      NatDigitsOfDigitsValue(Magnitude(s));
      Some(ParseInt(s))
  }

  /** int(str(n)) gives n back exactly when str(n) is within the digit limit. */
  lemma IntFromDecimalString(n: int)
    ensures Magnitude(DecimalString(n)) == NatDigits(Abs(n))
    ensures IntFromLiteral(DecimalString(n)) ==
      if |NatDigits(Abs(n))| > MaxStrDigits then None else Some(n)
  {
    ParseDecimalString(n);
  }

}
