# Barcode scanner to pre-filled form URL: a Dafny model

The program is a Streamlit page. It shows the camera stream, sweeps a red scan
line across each frame and decodes barcodes in the frame. It reads an integer
out of the first decoded symbol and keeps it in the session store. On submit it
opens a form URL that carries that number and a second field taken from the
page's query string.

Camera access, drawing and symbol decoding belong to external libraries. This
project models the logic the page adds around them:

- `numerals.dfy` (module `Numerals`): decimal digits. Python's `int()` on a
  signed literal (`IntFromLiteral`, with `ParseInt` for the value) and `str()`
  on an int (`DecimalString`), with the round trip between them. `int()`
  follows CPython's default limit on integer string conversion: a literal of
  more than 4300 digits raises `ValueError` (Python 3.11 and later, and the
  security releases 3.10.7, 3.9.14 and 3.8.14).
- `extraction.dfy` (module `Extraction`): `get_barcode`. The pattern
  `[+-]?[0-9][0-9]*|0$` is modelled as Python's engine tries it: a greedy
  optional sign that backtracks, `$` that also matches before a final
  newline, and the leftmost position first (`SearchFrom`). A hand-written
  scanner (`ScanFirstNumber`) is proved equal to it, and `GetBarcode` uses the
  scanner. A missing match (`IndexError`) and a match over the digit limit
  (`ValueError`) both give `None`, which is what the bare `except` does.
- `session.dfy` (module `Session`): `st.session_state` is a class
  `SessionState` over a `map<string, string>`. `Initialise` fills only the
  keys that are absent. `Accept` is the rule that stores `str(barcode)` for a
  truthy detection.
- `scanline.dfy` (module `ScanLine`): class `VideoTransformer` holds the
  `line_position` and `direction` fields. Its `Transform` method handles one
  frame: it moves the line, reads the frame's decoded payload texts and
  passes the result to the session store.
- `submission.dfy` (module `Submission`): the submit guard and the URL
  f-string. `ReadBack` is its partner: it recovers both values from a URL.
  Two worked examples are included: the 12-digit code `012345678905`, whose
  leading zero is lost, and a scan followed by a submit.

Accept policy: the code is **last match wins**. The guard
`barcode != st.session_state.barcode_value` compares an int with a str, so it
is always true. Every truthy detection therefore overwrites the stored value.
A first-match-wins policy would keep the first value for the whole session;
the model follows the code instead (`Session.LastMatchWins`).

`get_barcode`'s docstring (main.py:50) promises the barcode number in EAN-13
format. The code does not keep that promise: `int()` drops leading zeros
(`Extraction.ExampleLeadingZero`), and nothing checks the length or the check
digit. The model follows the code.

The form's first text field is editable, but the URL is built from the stored
`barcode_value` and not from the field. The model does the same.

## Model

| member | source | states |
|---|---|---|
| `Extraction.DigitRunEnd` | main.py:57 | the greedy `[0-9]*` stops at the end of the maximal digit run: every character it passes is a digit, and the next one (if any) is not |
| `Extraction.MatchAt` | main.py:57 | a match of the pattern at a position is non-empty and lies inside the text |
| `Extraction.MatchIsIntLiteral` | main.py:57-59 | every match is an optional sign followed by digits, so `int()` can fail on it only through the digit limit |
| `Extraction.ZeroAlternativeNeverWins` | main.py:57 | the `0$` alternative never decides a match; the result of the pattern is that of its first alternative |
| `Extraction.SearchFrom` | main.py:57 | the leftmost match at or after a position starts at or after it and ends inside the text |
| `Extraction.FirstDigitFrom` | main.py:57 | the scanner finds the first digit at or after a position, or reports that there is none |
| `Extraction.ScanFirstNumber` | main.py:57 | the scanner finds nothing exactly when the text has no digit; otherwise its span is inside the text and is an optional sign followed by digits |
| `Extraction.SearchFromIsScan` | main.py:57 | from any position, the engine's leftmost match is the next maximal digit run, starting one character earlier when a sign stands directly before it |
| `Extraction.ScannerAgreesWithPattern` | main.py:57 | the hand-written scanner returns exactly the span of the first element of `re.findall` |
| `Extraction.ExtractValue` | main.py:56-59 | a text without a digit gives no value rather than an error, and any value returned has at most 4300 digits, so `str()` can print it |
| `Extraction.GetBarcode` | main.py:55-61 | no decoded symbol gives no value |
| `Extraction.LaterSymbolsIgnored` | main.py:55-57 | symbols after the first (`decoded[1:]`) never change the result |
| `Extraction.FirstRunValue` | main.py:56-59 | the value is the first maximal digit run read in base 10, negated exactly when '-' directly precedes it; later digits are ignored; a run of more than 4300 digits gives no value |
| `Extraction.OverLimitRunGivesNoValue` | main.py:56-59 | a text whose first run has 4301 digits gives no value |
| `Extraction.ExampleLeadingZero` | main.py:57 | the text `b'012345678905'` gives 12345678905: the leading zero is dropped |
| `Extraction.ExtractDecimalString` | main.py:85 | extracting from `str(n)` gives back `n` when `str(n)` has at most 4300 digits, and no value otherwise |
| `Numerals.LeadingZeroDropped` | main.py:57 | `int()` ignores a leading zero: "0" + ds has the value of ds |
| `Numerals.ParseInt` | main.py:57 | the magnitude of the result is the value of the literal's digits, and it is negative exactly after a leading '-' with non-zero digits |
| `Numerals.NatDigitsOfDigitsValue` | main.py:57 | a number read from k digits prints in at most k digits |
| `Numerals.IntFromLiteral` | main.py:57-59 | `int()` fails (no value) exactly when the literal has more than 4300 digits; a value it returns prints in at most 4300 digits |
| `Numerals.NatDigits` | main.py:85 | the digits of a natural number are non-empty, all decimal digits, and have no leading zero unless the number is 0 |
| `Numerals.NatDigitsValue` | main.py:85 | reading the digits of n gives n |
| `Numerals.DecimalString` | main.py:85 | `str(n)` is a literal `int()` accepts, never starts with '+', and starts with '-' exactly when n is negative |
| `Numerals.ParseDecimalString` | main.py:85 | the value `int()` computes from `str(n)` is `n`, for every int (the digit limit is `IntFromDecimalString`) |
| `Numerals.IntFromDecimalString` | main.py:85 | `int(str(n))` gives `n` exactly when `str(n)` has at most 4300 digits, and fails otherwise |
| `Session.Initialised` | main.py:30-34 | afterwards both keys are present; every key already present keeps its value; only an absent `barcode_value` becomes "" and only an absent `field2_value` becomes the query value |
| `Session.InitialisedIsStable` | main.py:30-34 | a later script run never resets the store, whatever query value it sees |
| `Session.Truthy` | main.py:84 | a detection is truthy exactly when there is one and its decimal text is not "0" (None and 0 are false) |
| `Session.Accepted` | main.py:84-85 | a `None` or `0` detection changes nothing; a non-zero `n` sets `barcode_value` to `str(n)`; no other key changes and no key is added |
| `Session.AcceptedIdempotent` | main.py:84-85 | applying the same detection twice gives the same store as applying it once |
| `Session.AcceptedReadsBack` | main.py:84-85 | after a truthy detection the stored text is non-empty and extracts back to the detected value when it has at most 4300 digits |
| `Session.DetectionReadsBack` | main.py:82-85 | the text stored for a value that extraction produced always extracts back to that value |
| `Session.AcceptAll` | main.py:84-85 | a stream of detections never adds or removes keys |
| `Session.LastMatchWins` | main.py:84-85 | after a stream of detections the stored value is `str` of the last truthy one; without a truthy one the store is unchanged |
| `Session.SessionState.Initialise` | main.py:30-34 | the store afterwards is `Initialised` of the store before |
| `Session.SessionState.Accept` | main.py:84-85 | the store afterwards is `Accepted` of the store before and the detection |
| `ScanLine.Step` | main.py:74-76 | each frame moves the line by exactly 5 in its current direction, the direction stays 1 or -1, and it flips exactly when the new position is above the width or below 0 |
| `ScanLine.StepKeepsSwept` | main.py:74-76 | with a fixed width, one frame preserves: direction 1 or -1, position in [-5, width+5], a multiple of 5, at most the width while moving right and at least 0 while moving left |
| `ScanLine.RunStaysSwept` | main.py:65-76 | from the constructor's (0, 1) and a fixed width, every later state keeps the direction at 1 or -1 and the position within [-5, width+5] on a multiple of 5 |
| `ScanLine.VideoTransformer.constructor` | main.py:65-67 | the line starts at 0 moving right |
| `ScanLine.VideoTransformer.Transform` | main.py:69-85 | one frame advances the line by one oscillator step, keeps the sweep invariant for that width, and applies the accept rule to the extraction from the frame's decoded symbols |
| `Submission.Url` | main.py:110 | the URL starts with the base URL, ends with the field-2 value, and is exactly six characters longer than its five parts: nothing is escaped |
| `Submission.ConstructedUrl` | main.py:109-110 | a URL exists iff submit was pressed and both stored values are non-empty; it is then `base/id1?=barcode&id2?=field2` with the values unescaped |
| `Submission.IndexOf` | main.py:110 | helper of the inverse `ReadBack` (not a model of the f-string): the index found is the first occurrence of the character; no index means the character is absent |
| `Submission.ReadBack` | main.py:110 | inverse of the f-string: whatever it reads has no '&' in the first value and builds the same URL again |
| `Submission.ReadBackUrl` | main.py:110 | when the barcode value holds no '&', reading the URL back gives exactly the two values put in |
| `Submission.UnescapedUrlIsAmbiguous` | main.py:110 | because nothing is escaped, two different pairs of values can give the same URL |
| `Submission.AcceptedValueReadsBack` | main.py:85-110 | a URL built from a stored `str(n)` always reads back to its two values |
| `Submission.NothingScannedNoUrl` | main.py:30-31 | before any detection the stored barcode value is "", so no URL is produced |
| `Submission.ScanThenSubmitExample` | main.py:109-110 | scanning `b'012345678905'` with field 2 = "abc" and submitting gives `https://example.com/prefillid1?=12345678905&field2?=abc` |

## Left out

- Symbol decoding (`pyzbar.decode`), `Image.fromarray`, `cv2.cvtColor`, `cv2.line`, `cv2.rectangle` and the bounding-box loop: external image libraries. The decoder's output is a sequence of payload texts, and a frame is its width.
- The payload text is taken as given. In the program it is `str(data)` of the decoded bytes (the `b'...'` form), whose escapes such as `\x01` add digits; that bytes-to-text conversion is not modelled.
- The Streamlit page: title, `st.write`, `st.error`, the form widgets, `st.experimental_rerun` and `webrtc_streamer`. These are presentation and rerun plumbing.
- `webbrowser.open`: I/O. The model stops at the URL.
- `DYLD_LIBRARY_PATH` and the `ctypes` probe for the zbar library: environment and native-library plumbing.
- `st.secrets` lookups and their defaults: the base URL and the two keys are parameters.
- The query-string read for field 2: its result depends on the type Streamlit's `query_params` returns, so the field-2 value is an input.
- Concurrency: the transformer runs on a worker thread while the script reads the session store. The model applies detections one after another.
- Numerals.DecimalString: `str()` also raises `ValueError` for an int of more than 4300 digits. This is not modelled, because every value that reaches `str()` at main.py:85 comes from `get_barcode` and has at most 4300 digits (`Extraction.ExtractValue`). A limit changed through `PYTHONINTMAXSTRDIGITS`, or a Python without the limit, is not modelled either.
- Session.Accepted: the source raises `AttributeError` when a truthy detection arrives and `barcode_value` is absent. The model requires the key in that case instead of modelling the exception. The script's initialisation always sets it first.
- ScanLine.RunStaysSwept: the bound is proved for a fixed frame width. A width that changes between frames is allowed by `Transform`, but only direction 1 or -1 is proved then.
