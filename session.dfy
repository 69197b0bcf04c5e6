/**
 * The per-session store (`st.session_state`) as the scanner uses it: a
 * dictionary from key to string holding `barcode_value` and `field2_value`,
 * initialised on every script run and updated by each accepted detection.
 */
module Session {

  import opened Wrappers
  import opened Numerals
  import Extraction

  const BarcodeKey := "barcode_value"
  const Field2Key := "field2_value"

  /** Python truthiness of `get_barcode`'s result: None and 0 are false, so a
      value is truthy exactly when its decimal text is not "0". */
  predicate Truthy(v: Option<int>): (b: bool)
    ensures b <==> v.Some? && DecimalString(v.value) != "0"
  {
    v.Some? && v.value != 0
  }

  /** The store after the initialisation block: each key that is absent gets
      its initial value, and nothing already present is touched. */
  function Initialised(entries: map<string, string>, field2: string): (r: map<string, string>)
    ensures r.Keys == entries.Keys + {BarcodeKey, Field2Key}
    ensures forall k :: k in entries ==> r[k] == entries[k]
    ensures BarcodeKey !in entries ==> r[BarcodeKey] == ""
    ensures Field2Key !in entries ==> r[Field2Key] == field2
  {
    var withBarcode := if BarcodeKey in entries then entries else entries[BarcodeKey := ""];
    if Field2Key in withBarcode then withBarcode else withBarcode[Field2Key := field2]
  }

  /** Re-running the script never resets the store, whatever the query value is then. */
  lemma InitialisedIsStable(entries: map<string, string>, field2: string, later: string)
    ensures Initialised(Initialised(entries, field2), later) == Initialised(entries, field2)
  {
  }

  /** The store after one detection. The source also tests
      `barcode != barcode_value`, but that compares an int with a str and is
      always true, so only truthiness decides. */
  function Accepted(entries: map<string, string>, barcode: Option<int>): (r: map<string, string>)
    requires Truthy(barcode) ==> BarcodeKey in entries
    ensures r.Keys == entries.Keys
    ensures forall k :: k in r && k != BarcodeKey ==> r[k] == entries[k]
    ensures Truthy(barcode) ==> r[BarcodeKey] == DecimalString(barcode.value)
    ensures !Truthy(barcode) ==> r == entries
  {
    if Truthy(barcode) then entries[BarcodeKey := DecimalString(barcode.value)] else entries
  }

  /** The same detection applied twice leaves the store as applying it once. */
  lemma AcceptedIdempotent(entries: map<string, string>, barcode: Option<int>)
    requires Truthy(barcode) ==> BarcodeKey in entries
    ensures Accepted(Accepted(entries, barcode), barcode) == Accepted(entries, barcode)
  {
  }

  /** The stored text reads back, through the same extraction, as the accepted
      value, unless the value is too long for int() to read again. */
  lemma AcceptedReadsBack(entries: map<string, string>, barcode: Option<int>)
    requires BarcodeKey in entries && Truthy(barcode)
    ensures Extraction.ExtractValue(Accepted(entries, barcode)[BarcodeKey]) ==
      if |NatDigits(Abs(barcode.value))| > MaxStrDigits then None else barcode
    ensures Accepted(entries, barcode)[BarcodeKey] != ""
  {
    Extraction.ExtractDecimalString(barcode.value);
  }

  /** A detection that `get_barcode` produced always reads back: the text
      stored for it extracts to the same value. */
  lemma DetectionReadsBack(entries: map<string, string>, text: string)
    requires BarcodeKey in entries && Truthy(Extraction.ExtractValue(text))
    ensures Extraction.ExtractValue(Accepted(entries, Extraction.ExtractValue(text))[BarcodeKey])
      == Extraction.ExtractValue(text)
  {
    AcceptedReadsBack(entries, Extraction.ExtractValue(text));
  }

  /** The store after a stream of detections, in arrival order. */
  function AcceptAll(entries: map<string, string>, barcodes: seq<Option<int>>): (r: map<string, string>)
    requires BarcodeKey in entries
    ensures r.Keys == entries.Keys
  {
    if barcodes == [] then entries else AcceptAll(Accepted(entries, barcodes[0]), barcodes[1..])
  }

  /** The last truthy detection of a stream, if any. */
  function LastTruthy(barcodes: seq<Option<int>>): (r: Option<int>)
    ensures r.Some? ==> r.value != 0
  {
    if barcodes == [] then None
    else if Truthy(barcodes[|barcodes| - 1]) then barcodes[|barcodes| - 1]
    else LastTruthy(barcodes[..|barcodes| - 1])
  }

  lemma {:induction false} LastTruthyFromFront(barcodes: seq<Option<int>>)
    requires barcodes != []
    ensures LastTruthy(barcodes) ==
      if LastTruthy(barcodes[1..]).Some? then LastTruthy(barcodes[1..])
      else if Truthy(barcodes[0]) then barcodes[0]
      else None
  {
    if |barcodes| > 1 {
      var init := barcodes[..|barcodes| - 1];
      assert init[1..] == barcodes[1..][..|barcodes[1..]| - 1];
      LastTruthyFromFront(init);
    }
  }

  /** Last match wins: after a stream of detections the stored value is the
      decimal text of the last truthy one, and nothing changes if there was none. */
  lemma {:induction false} LastMatchWins(entries: map<string, string>, barcodes: seq<Option<int>>)
    requires BarcodeKey in entries
    ensures AcceptAll(entries, barcodes) ==
      match LastTruthy(barcodes)
      case None => entries
      case Some(n) => entries[BarcodeKey := DecimalString(n)]
  {
    if barcodes != [] {
      LastMatchWins(Accepted(entries, barcodes[0]), barcodes[1..]);
      LastTruthyFromFront(barcodes);
    }
  }

  /** `st.session_state`, updated in place by the script and the frame callback. */
  class SessionState {
    var entries: map<string, string>

    constructor (entries: map<string, string>)
      ensures this.entries == entries
    {
      this.entries := entries;
    }

    /** The initialisation block at the top of every script run. */
    method Initialise(field2: string)
      modifies this
      ensures entries == Initialised(old(entries), field2)
    {
      if BarcodeKey !in entries {
        entries := entries[BarcodeKey := ""];
      }
      if Field2Key !in entries {
        entries := entries[Field2Key := field2];
      }
    }

    /** The accept rule applied to one frame's extraction result. */
    method Accept(barcode: Option<int>)
      requires Truthy(barcode) ==> BarcodeKey in entries
      modifies this
      ensures entries == Accepted(old(entries), barcode)
    {
      if Truthy(barcode) {
        entries := entries[BarcodeKey := DecimalString(barcode.value)];
      }
    }
  }

}
