/**
 * `get_barcode`: the integer read out of the first decoded symbol's text.
 *
 * The Python code runs `re.findall(r"[+-]?[0-9][0-9]*|0$", text)[0]` and
 * parses the match with `int()`; a missing match raises IndexError, which
 * the bare `except` turns into `None`. The text is taken as given (in the
 * program it is `str(data)` of the decoder's bytes, i.e. the `b'...'` form).
 *
 * Two definitions of "the first match" live here: the pattern as Python's
 * backtracking engine tries it, position by position (SearchFrom), and the
 * hand-written scanner the model uses (ScanFirstNumber). ScannerAgreesWithPattern
 * proves they are the same.
 */
module Extraction {

  import opened Wrappers
  import opened Numerals

  // ----- The pattern, as the regular-expression engine tries it -----

  /** End of the maximal run of digits starting at j (the greedy `[0-9]*`). */
  function DigitRunEnd(s: string, j: nat): (k: nat)
    requires j <= |s|
    ensures j <= k <= |s|
    ensures forall m :: j <= m < k ==> IsDigit(s[m])
    ensures k == |s| || !IsDigit(s[k])
    decreases |s| - j
  {
    if j < |s| && IsDigit(s[j]) then DigitRunEnd(s, j + 1) else j
  }

  /** `[0-9][0-9]*` tried at j. */
  function DigitsAt(s: string, j: nat): Option<nat>
    requires j <= |s|
  {
    if j < |s| && IsDigit(s[j]) then Some(DigitRunEnd(s, j + 1)) else None
  }

  /** `[+-]?[0-9][0-9]*` tried at i: the greedy `?` takes a sign first and
      backtracks to no sign when no digit follows it. */
  function SignedDigitsAt(s: string, i: nat): Option<nat>
    requires i <= |s|
  {
    var withSign := if i < |s| && IsSign(s[i]) then DigitsAt(s, i + 1) else None;
    if withSign.Some? then withSign else DigitsAt(s, i)
  }

  /** `$` without MULTILINE: the end of the text, or just before a final newline. */
  predicate AtEnd(s: string, k: nat) {
    k == |s| || (k + 1 == |s| && s[k] == '\n')
  }

  /** `0$` tried at i. */
  function ZeroAtEndAt(s: string, i: nat): Option<nat>
    requires i <= |s|
  {
    if i < |s| && s[i] == '0' && AtEnd(s, i + 1) then Some(i + 1) else None
  }

  /** The whole pattern tried at i, first alternative first; the end of the match. */
  function MatchAt(s: string, i: nat): (r: Option<nat>)
    requires i <= |s|
    ensures r.Some? ==> i < r.value <= |s|
  {
    var first := SignedDigitsAt(s, i);
    if first.Some? then first else ZeroAtEndAt(s, i)
  }

  /** Whatever the pattern matches is a literal int() accepts, so only a
      missing match can make the Python expression fail. */
  lemma MatchIsIntLiteral(s: string, i: nat)
    requires i <= |s| && MatchAt(s, i).Some?
    ensures IsIntLiteral(s[i..MatchAt(s, i).value])
  {
    var lit := s[i..MatchAt(s, i).value];
    assert forall m :: 0 <= m < |lit| ==> lit[m] == s[i + m];
    if IsSign(s[i]) && DigitsAt(s, i + 1).Some? {
      assert lit[1..] == s[i + 1..MatchAt(s, i).value];
    }
  }

  /** The leftmost match at or after i, as (start, end): the first element of
      `re.findall` when searched from the start of the text. */
  function SearchFrom(s: string, i: nat): (r: Option<(nat, nat)>)
    requires i <= |s|
    ensures r.Some? ==> i <= r.value.0 < r.value.1 <= |s|
    decreases |s| - i
  {
    match MatchAt(s, i)
    case Some(k) => Some((i, k))
    case None => if i < |s| then SearchFrom(s, i + 1) else None
  }

  /** The `0$` alternative never decides a match: wherever it could match,
      the first alternative matches already. */
  lemma ZeroAlternativeNeverWins(s: string, i: nat)
    requires i <= |s|
    ensures MatchAt(s, i) == SignedDigitsAt(s, i)
  {
    if ZeroAtEndAt(s, i).Some? {
      assert DigitsAt(s, i).Some?;
    }
  }

  // ----- The hand-written scanner -----

  /** The index of the first digit at or after i. */
  function FirstDigitFrom(s: string, i: nat): (r: Option<nat>)
    requires i <= |s|
    ensures r.None? ==> forall m :: i <= m < |s| ==> !IsDigit(s[m])
    ensures r.Some? ==> i <= r.value < |s| && IsDigit(s[r.value])
    ensures r.Some? ==> forall m :: i <= m < r.value ==> !IsDigit(s[m])
    decreases |s| - i
  {
    if i == |s| then None
    else if IsDigit(s[i]) then Some(i)
    else FirstDigitFrom(s, i + 1)
  }

  /** The first maximal run of digits, extended by the sign directly before it. */
  function ScanFirstNumber(s: string): (r: Option<(nat, nat)>)
    ensures r.None? <==> forall m :: 0 <= m < |s| ==> !IsDigit(s[m])
    ensures r.Some? ==> r.value.0 < r.value.1 <= |s| && IsIntLiteral(s[r.value.0..r.value.1])
  {
    match FirstDigitFrom(s, 0)
    case None => None
    case Some(j) =>
      var a, b := if j > 0 && IsSign(s[j - 1]) then j - 1 else j, DigitRunEnd(s, j + 1);
      assert forall m :: 0 <= m < b - a ==> s[a..b][m] == s[a + m];
      assert a < j ==> s[a..b][1..] == s[j..b];
      Some((a, b))
  }

  /** From any position, the engine's leftmost match is the next digit run,
      with its sign when that sign is at or after the position. */
  lemma {:induction false} SearchFromIsScan(s: string, i: nat)
    requires i <= |s|
    ensures SearchFrom(s, i) ==
      match FirstDigitFrom(s, i)
      case None => None
      case Some(j) => Some((if j > i && IsSign(s[j - 1]) then j - 1 else j, DigitRunEnd(s, j + 1)))
    decreases |s| - i
  {
    if i < |s| && !IsDigit(s[i]) {
      if !(IsSign(s[i]) && i + 1 < |s| && IsDigit(s[i + 1])) {
        assert MatchAt(s, i).None?;
        SearchFromIsScan(s, i + 1);
      }
    }
  }

  lemma ScannerAgreesWithPattern(s: string)
    ensures ScanFirstNumber(s) == SearchFrom(s, 0)
  {
    SearchFromIsScan(s, 0);
  }

  // ----- get_barcode -----

  /** The value of the first match in one symbol's text, or None when there is
      no match (the IndexError) or the match is over int()'s digit limit (the
      ValueError); the bare `except` swallows both. A value returned can
      always be printed by str() again. */
  function ExtractValue(text: string): (r: Option<int>)
    ensures (forall m :: 0 <= m < |text| ==> !IsDigit(text[m])) ==> r.None?
    ensures r.Some? ==> |NatDigits(Abs(r.value))| <= MaxStrDigits
  {
    match ScanFirstNumber(text)
    case None => None
    case Some((a, b)) => IntFromLiteral(text[a..b])
  }

  /** `get_barcode` on the decoder's output: only the first symbol is read. */
  function GetBarcode(decoded: seq<string>): (r: Option<int>)
    ensures decoded == [] ==> r == None
  {
    if decoded == [] then None else ExtractValue(decoded[0])
  }

  /** Symbols after the first never influence the result. */
  lemma LaterSymbolsIgnored(first: string, rest: seq<string>)
    ensures GetBarcode([first] + rest) == GetBarcode([first])
  {
  }

  /** text[j..k] is the first maximal run of digits in text. */
  ghost predicate IsFirstRun(text: string, j: nat, k: nat) {
    && j < k <= |text|
    && (forall m :: 0 <= m < j ==> !IsDigit(text[m]))
    && (forall m :: j <= m < k ==> IsDigit(text[m]))
    && (k == |text| || !IsDigit(text[k]))
  }

  lemma {:induction false} DigitRunEndUnique(s: string, i: nat, k: nat)
    requires i <= k <= |s|
    requires forall m :: i <= m < k ==> IsDigit(s[m])
    requires k == |s| || !IsDigit(s[k])
    ensures DigitRunEnd(s, i) == k
    decreases k - i
  {
    if i < k {
      DigitRunEndUnique(s, i + 1, k);
    }
  }

  /** The extracted value is the first maximal digit run read as a decimal
      number, negated when a '-' stands directly before it; a run longer than
      int()'s digit limit gives no value. */
  lemma FirstRunValue(text: string, j: nat, k: nat)
    requires IsFirstRun(text, j, k)
    ensures AllDigits(text[j..k])
    ensures ExtractValue(text) ==
      if k - j > MaxStrDigits then None
      else Some(if j > 0 && text[j - 1] == '-' then -(DigitsValue(text[j..k]) as int) else DigitsValue(text[j..k]))
  {
    var run := text[j..k];
    assert forall m :: 0 <= m < |run| ==> run[m] == text[j + m];
    DigitRunEndUnique(text, j + 1, k);
    assert IsDigit(text[j]);
    assert FirstDigitFrom(text, 0) == Some(j);
    var a := if j > 0 && IsSign(text[j - 1]) then j - 1 else j;
    assert ScanFirstNumber(text) == Some((a, k));
    var lit := text[a..k];
    if a < j {
      assert lit[1..] == run;
    } else {
      assert lit == run;
    }
    assert Magnitude(lit) == run;
    assert ExtractValue(text) == IntFromLiteral(lit);
    if k - j <= MaxStrDigits {
      assert IntFromLiteral(lit) == Some(ParseInt(lit));
      assert lit[0] == text[a];
    }
  }

  lemma ExampleDigits()
    ensures AllDigits("012345678905")
    ensures DigitsValue("012345678905") == 12345678905
  {
    var d0: string := "";
    var d1 := d0 + ['1'];
    DigitsValueAppend(d0, '1');
    var d2 := d1 + ['2'];
    DigitsValueAppend(d1, '2');
    var d3 := d2 + ['3'];
    DigitsValueAppend(d2, '3');
    var d4 := d3 + ['4'];
    DigitsValueAppend(d3, '4');
    var d5 := d4 + ['5'];
    DigitsValueAppend(d4, '5');
    var d6 := d5 + ['6'];
    DigitsValueAppend(d5, '6');
    var d7 := d6 + ['7'];
    DigitsValueAppend(d6, '7');
    var d8 := d7 + ['8'];
    DigitsValueAppend(d7, '8');
    var d9 := d8 + ['9'];
    DigitsValueAppend(d8, '9');
    var d10 := d9 + ['0'];
    DigitsValueAppend(d9, '0');
    var d11 := d10 + ['5'];
    DigitsValueAppend(d10, '5');
    assert d11 == "12345678905";
    LeadingZeroDropped(d11);
    assert "0" + d11 == "012345678905";
  }

  /** Leading zeros are dropped: the 12-digit code 012345678905, as the
      decoder's bytes print, gives a number of 11 digits. */
  lemma ExampleLeadingZero()
    ensures ExtractValue("b'012345678905'") == Some(12345678905)
  {
    var text := "b'012345678905'";
    assert text[2..14] == "012345678905";
    assert IsFirstRun(text, 2, 14);
    FirstRunValue(text, 2, 14);
    ExampleDigits();
  }

  /** A first run of more than 4300 digits, which a numeric QR code can carry,
      gives no value: int() raises ValueError and the `except` returns None. */
  lemma OverLimitRunGivesNoValue()
    ensures ExtractValue("b'" + seq(MaxStrDigits + 1, _ => '7') + "'") == None
  {
    var text := "b'" + seq(MaxStrDigits + 1, _ => '7') + "'";
    assert forall m :: 2 <= m < MaxStrDigits + 3 ==> text[m] == '7';
    assert text[MaxStrDigits + 3] == '\'';
    FirstRunValue(text, 2, MaxStrDigits + 3);
  }

  /** Reading back the decimal string of an int gives that int, unless the
      string is over int()'s digit limit. */
  lemma ExtractDecimalString(n: int)
    ensures ExtractValue(DecimalString(n)) ==
      if |NatDigits(Abs(n))| > MaxStrDigits then None else Some(n)
  {
    var s := DecimalString(n);
    var j := if n < 0 then 1 else 0;
    assert IsDigit(s[j]);
    DigitRunEndUnique(s, j + 1, |s|);
    assert FirstDigitFrom(s, 0) == Some(j);
    assert ScanFirstNumber(s) == Some((0, |s|));
    assert s[0..|s|] == s;
    IntFromDecimalString(n);
  }

}
