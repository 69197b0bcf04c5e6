/**
 * The submit guard and the destination URL. The values are interpolated
 * verbatim, without percent-encoding; the base URL and the two field keys
 * are configuration parameters.
 */
module Submission {

  import opened Wrappers
  import opened Numerals
  import Extraction
  import Session

  /** The URL the f-string builds: it starts with the base URL, ends with the
      field-2 value, and adds exactly six characters to its five parts, so
      nothing is escaped. */
  function Url(baseUrl: string, prefillId: string, barcode: string, prefillId2: string, field2: string): (r: string)
    ensures |r| == |baseUrl| + |prefillId| + |barcode| + |prefillId2| + |field2| + 6
    ensures r[..|baseUrl|] == baseUrl
    ensures r[|r| - |field2|..] == field2
  {
    baseUrl + "/" + prefillId + "?=" + barcode + "&" + prefillId2 + "?=" + field2
  }

  /** The URL is produced only on submit and only when both stored values are non-empty. */
  function ConstructedUrl(submitted: bool, baseUrl: string, prefillId: string, barcode: string,
                          prefillId2: string, field2: string): (r: Option<string>)
    ensures r.Some? <==> submitted && barcode != "" && field2 != ""
    ensures r.Some? ==> r.value == Url(baseUrl, prefillId, barcode, prefillId2, field2)
  {
    if submitted && barcode != "" && field2 != "" then
      Some(Url(baseUrl, prefillId, barcode, prefillId2, field2))
    else
      None
  }

  /** The index of the first occurrence of c in s. */
  function IndexOf(s: string, c: char): (r: Option<nat>)
    ensures r.None? ==> c !in s
    ensures r.Some? ==> r.value < |s| && s[r.value] == c
    ensures r.Some? ==> forall j :: 0 <= j < r.value ==> s[j] != c
  {
    if s == [] then None
    else if s[0] == c then Some(0)
    else match IndexOf(s[1..], c)
      case None => None
      case Some(i) => Some(i + 1)
  }

  /** Splits what follows the first key into the two values: the first ends
      at the first '&', and the second key must follow that '&'. */
  function SplitValues(rest: string, key: string): (r: Option<(string, string)>)
    ensures r.Some? ==> '&' !in r.value.0 && rest == r.value.0 + "&" + key + r.value.1
  {
    match IndexOf(rest, '&')
    case None => None
    case Some(a) =>
      var tail := rest[a + 1..];
      if |tail| < |key| || tail[..|key|] != key then None
      else
        var barcode, field2 := rest[..a], tail[|key|..];
        assert forall j :: 0 <= j < a ==> barcode[j] == rest[j];
        assert rest == barcode + "&" + tail;
        assert tail == key + field2;
        Some((barcode, field2))
  }

  /** Reads the two values back out of a URL built with the given base and
      keys. Whatever it reads builds the same URL again. */
  function ReadBack(url: string, baseUrl: string, prefillId: string, prefillId2: string): (r: Option<(string, string)>)
    ensures r.Some? ==> '&' !in r.value.0
    ensures r.Some? ==> Url(baseUrl, prefillId, r.value.0, prefillId2, r.value.1) == url
  {
    var head := baseUrl + "/" + prefillId + "?=";
    if |url| < |head| || url[..|head|] != head then None
    else
      assert url == head + url[|head|..];
      SplitValues(url[|head|..], prefillId2 + "?=")
  }

  /** The first occurrence of c in x + [c] + y is right after x when x has none. */
  lemma IndexOfFirst(x: string, c: char, y: string)
    requires c !in x
    ensures IndexOf(x + [c] + y, c) == Some(|x|)
  {
    var s := x + [c] + y;
    var i := IndexOf(s, c);
    assert s[..|x|] == x;
    assert s[|x|] == c;
  }

  lemma SplitValuesOf(barcode: string, key: string, field2: string)
    requires '&' !in barcode
    ensures SplitValues(barcode + "&" + key + field2, key) == Some((barcode, field2))
  {
    var tail := key + field2;
    var rest := barcode + "&" + tail;
    assert rest == barcode + "&" + key + field2;
    IndexOfFirst(barcode, '&', tail);
    assert rest[..|barcode|] == barcode;
    assert rest[|barcode| + 1..] == tail;
    assert tail[..|key|] == key && tail[|key|..] == field2;
  }

  /** Without a '&' in the first value, the URL determines both values. */
  lemma ReadBackUrl(baseUrl: string, prefillId: string, barcode: string, prefillId2: string, field2: string)
    requires '&' !in barcode
    ensures ReadBack(Url(baseUrl, prefillId, barcode, prefillId2, field2), baseUrl, prefillId, prefillId2)
      == Some((barcode, field2))
  {
    var head := baseUrl + "/" + prefillId + "?=";
    var key := prefillId2 + "?=";
    var url := Url(baseUrl, prefillId, barcode, prefillId2, field2);
    var rest := barcode + "&" + key + field2;
    assert url == head + rest;
    assert url[..|head|] == head && url[|head|..] == rest;
    SplitValuesOf(barcode, key, field2);
  }

  /** With a '&' in the first value, two different pairs of values give the same URL. */
  lemma UnescapedUrlIsAmbiguous(baseUrl: string, prefillId: string, prefillId2: string)
    ensures var sep := "&" + prefillId2 + "?=";
      && "1" != "1" + sep + "2"
      && Url(baseUrl, prefillId, "1", prefillId2, "2" + sep + "3")
         == Url(baseUrl, prefillId, "1" + sep + "2", prefillId2, "3")
  {
    var sep := "&" + prefillId2 + "?=";
    assert |"1" + sep + "2"| > 1;
  }

  /** A decimal string never holds '&', so a URL built from an accepted value reads back. */
  lemma AcceptedValueReadsBack(baseUrl: string, prefillId: string, prefillId2: string, n: int, field2: string)
    ensures ReadBack(Url(baseUrl, prefillId, DecimalString(n), prefillId2, field2), baseUrl, prefillId, prefillId2)
      == Some((DecimalString(n), field2))
  {
    ReadBackUrl(baseUrl, prefillId, DecimalString(n), prefillId2, field2);
  }

  /** With no detection accepted yet the stored barcode value is empty, so
      nothing can be submitted. */
  lemma NothingScannedNoUrl(submitted: bool, baseUrl: string, prefillId: string, prefillId2: string,
                            entries: map<string, string>, field2: string)
    requires Session.BarcodeKey !in entries
    ensures var m := Session.Initialised(entries, field2);
      ConstructedUrl(submitted, baseUrl, prefillId, m[Session.BarcodeKey], prefillId2, m[Session.Field2Key]) == None
  {
  }

  lemma ExampleDecimalString()
    ensures DecimalString(12345678905) == "12345678905"
  {
    assert NatDigits(1) == "1";
    assert NatDigits(12) == NatDigits(1) + ['2'];
    assert NatDigits(123) == NatDigits(12) + ['3'];
    assert NatDigits(1234) == NatDigits(123) + ['4'];
    assert NatDigits(12345) == NatDigits(1234) + ['5'];
    assert NatDigits(123456) == NatDigits(12345) + ['6'];
    assert NatDigits(1234567) == NatDigits(123456) + ['7'];
    assert NatDigits(12345678) == NatDigits(1234567) + ['8'];
    assert NatDigits(123456789) == NatDigits(12345678) + ['9'];
    assert NatDigits(1234567890) == NatDigits(123456789) + ['0'];
    assert NatDigits(12345678905) == NatDigits(1234567890) + ['5'];
  }

  /** The worked example: the scanned text "b'012345678905'" with field 2 set to
      "abc" gives the URL with the leading zero dropped. */
  lemma ScanThenSubmitExample()
    ensures var m := Session.Initialised(map[], "abc");
      var m' := Session.Accepted(m, Extraction.GetBarcode(["b'012345678905'"]));
      ConstructedUrl(true, "https://example.com", "prefillid1", m'[Session.BarcodeKey], "field2", m'[Session.Field2Key])
        == Some("https://example.com/prefillid1?=12345678905&field2?=abc")
  {
    var m := Session.Initialised(map[], "abc");
    assert m[Session.BarcodeKey] == "" && m[Session.Field2Key] == "abc";
    Extraction.ExampleLeadingZero();
    var v := Extraction.GetBarcode(["b'012345678905'"]);
    assert v == Some(12345678905);
    var m' := Session.Accepted(m, v);
    ExampleDecimalString();
    assert m'[Session.BarcodeKey] == "12345678905";
    assert m'[Session.Field2Key] == "abc";
    ExampleUrl();
  }

  lemma ExampleUrl()
    ensures Url("https://example.com", "prefillid1", "12345678905", "field2", "abc")
      == "https://example.com/prefillid1?=12345678905&field2?=abc"
  {
  }

}
