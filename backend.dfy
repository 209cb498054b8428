/** backend.py: what the `/api/ocr` handler `ocr_scan` and the `/api/validate` handler
    `validate` answer, with Flask, PIL, OpenCV and EasyOCR replaced by inputs. The reply's
    human-readable `message` is left out; its choice follows `valid`. */
module Backend {
  import opened Wrappers
  import opened Text
  import opened Credentials
  import Tokens
  import Decimal
  import Recognition

  // ---------------------------------------------------------------------------
  // `ocr_scan`
  // ---------------------------------------------------------------------------

  /** `request.files`, as far as `ocr_scan` looks at it. */
  datatype Upload = NoImagePart | ImagePart(filename: string)

  /** What decoding, `enhance_image` and `reader.readtext` produce: the recognised strings,
      no text at all because the reader failed to load at start-up, or an exception. */
  datatype OcrRun = Lines(lines: seq<string>) | NoReader | Crashed

  datatype UploadError = NoImage | EmptyFilename

  /** The reply of `ocr_scan`. */
  datatype OcrResponse =
    | BadUpload(error: UploadError)  // status 400, `{'error': ...}`
    | Scanned(success: bool, card: Option<string>, pin: Option<string>, valid: bool) // status 200
    | ScanFailed                     // status 500, `{'error': str(e), 'success': False}`

  /** `raw_text`: the recognised strings joined by single spaces, or "" without a reader. */
  function RawText(run: OcrRun): string
    requires !run.Crashed?
  {
    if run.Lines? then Tokens.JoinWithSpaces(run.lines) else ""
  }

  /** `ocr_scan`. The upload is checked before anything is decoded; the first two numbers
      found are reported as card and PIN whether or not they are listed. */
  function OcrScan(upload: Upload, run: OcrRun): (r: OcrResponse)
    ensures upload.NoImagePart? ==> r == BadUpload(NoImage)
    ensures upload.ImagePart? && upload.filename == [] ==> r == BadUpload(EmptyFilename)
    ensures upload.ImagePart? && upload.filename != [] ==> (r.ScanFailed? <==> run.Crashed?)
    ensures r.Scanned? ==> r.success == r.valid && (r.card.Some? <==> r.pin.Some?)
    ensures r.Scanned? ==> (r.valid <==> r.card.Some? && Credential(r.card.value, r.pin.value) in Cards)
  {
    if upload.NoImagePart? then BadUpload(NoImage)
    else if upload.filename == [] then BadUpload(EmptyFilename)
    else if run.Crashed? then ScanFailed
    else Report(Tokens.ExtractNumbersPy(RawText(run)))
  }

  /** The status-200 reply built from the extracted numbers. */
  function Report(numbers: seq<string>): (r: OcrResponse)
    ensures r.Scanned? && r.success == r.valid
    ensures |numbers| < 2 ==> r == Scanned(false, None, None, false)
    ensures |numbers| >= 2 ==> r.card == Some(numbers[0]) && r.pin == Some(numbers[1])
    ensures r.valid <==> |numbers| >= 2 && Credential(numbers[0], numbers[1]) in Cards
  {
    if |numbers| >= 2 then
      var valid := Any(Cards, numbers[0], numbers[1]);
      FindAgreesWithAny(Cards, numbers[0], numbers[1]);
      Scanned(valid, Some(numbers[0]), Some(numbers[1]), valid)
    else
      Scanned(false, None, None, false)
  }

  /** With fewer than two numbers nothing is reported; otherwise the first two numbers of
      the recognised text are reported as card and PIN, each longer than three digits. */
  lemma OcrScanReportsFirstTwoNumbers(filename: string, run: OcrRun)
    requires filename != [] && !run.Crashed?
    ensures var numbers := Tokens.ExtractNumbersPy(RawText(run));
      var r := OcrScan(ImagePart(filename), run);
      (|numbers| < 2 ==> r == Scanned(false, None, None, false)) &&
      (|numbers| >= 2 ==> r.Scanned? && r.card == Some(numbers[0]) && r.pin == Some(numbers[1])
                          && |numbers[0]| > 3 && |numbers[1]| > 3)
  {
    var numbers := Tokens.ExtractNumbersPy(RawText(run));
    if |numbers| >= 2 {
      assert numbers[0] in numbers && numbers[1] in numbers;
    }
  }

  /** A JSON value as the browser reads it. */
  function Field(v: Option<string>): Recognition.JsonField {
    if v.Some? then Recognition.Str(v.value) else Recognition.Null
  }

  /** The reply of `ocr_scan` as the browser's `fetch` sees it: an error status is not ok. */
  function AsReply(r: OcrResponse): Recognition.RemoteReply {
    match r
    case BadUpload(_) => Recognition.NotOk
    case Scanned(_, card, pin, _) => Recognition.Body(Field(card), Field(pin))
    case ScanFailed => Recognition.NotOk
  }

  /** The browser confirms a scan exactly when the backend reports it valid, and no reply
      of the backend, not even an error, makes it fall back to local OCR. */
  lemma ClientConfirmsExactlyValidScans(upload: Upload, run: OcrRun)
    ensures var r := OcrScan(upload, run);
      var step := Recognition.RemoteOutcome(AsReply(r));
      (step.Confirmed? <==> r.Scanned? && r.valid) &&
      (step.Confirmed? ==> Some(step.card) == r.card) &&
      !step.FallBackToLocal?
  {
    if upload.ImagePart? && upload.filename != [] && !run.Crashed? {
      ClientReadsReport(Tokens.ExtractNumbersPy(RawText(run)));
    }
  }

  /** How the browser reads a status-200 reply. */
  lemma ClientReadsReport(numbers: seq<string>)
    ensures var r := Report(numbers);
      var step := Recognition.RemoteOutcome(AsReply(r));
      (step.Confirmed? <==> r.valid) && (step.Confirmed? ==> Some(step.card) == r.card)
      && !step.FallBackToLocal?
  {
    if Report(numbers).valid {
      CardsHaveNoEmptyField(numbers[0], numbers[1]);
    }
  }

  /** On ASCII text the backend and the browser's local OCR reach the same verdict on the
      same recognised text, and report the same card. */
  lemma BackendAgreesWithLocalOnAscii(filename: string, text: string)
    requires filename != []
    requires forall k :: 0 <= k < |text| ==> text[k] < '\U{80}'
    ensures var r := OcrScan(ImagePart(filename), Lines([text]));
      var local := Recognition.LocalOutcome(Recognition.Text(text));
      r.Scanned? && (r.valid <==> local.Some?) && (r.valid ==> r.card == local)
  {
    assert RawText(Lines([text])) == text;
    assert Tokens.ExtractNumbersPy(text) == Tokens.ExtractNumbers(text) by {
      Tokens.ExtractorsAgreeOnAscii(text);
    }
    ReportAgreesWithConfirm(Tokens.ExtractNumbers(text));
  }

  /** On the same numbers the backend's reply and the browser's local match agree. */
  lemma ReportAgreesWithConfirm(numbers: seq<string>)
    ensures Report(numbers).valid <==> Recognition.Confirm(numbers).Some?
    ensures Report(numbers).valid ==> Report(numbers).card == Recognition.Confirm(numbers)
  {
  }

  // ---------------------------------------------------------------------------
  // `validate`
  // ---------------------------------------------------------------------------

  /** A value of the request's JSON object, as Python holds it. */
  datatype PyValue =
    | Absent            // the key is missing: `data.get(key, '')` gives ''
    | PyNone            // `null`
    | PyStr(s: string)
    | PyInt(n: int)
    | PyBool(b: bool)
    | PyOther(repr: string) // a float, list or object, with the text `str()` gives it

  /** `str(data.get(key, ''))`. */
  function AsText(v: PyValue): string {
    match v
    case Absent => ""
    case PyNone => "None"
    case PyStr(s) => s
    case PyInt(n) => Decimal.IntString(n)
    case PyBool(b) => if b then "True" else "False"
    case PyOther(repr) => repr
  }

  /** The request body: a JSON object, or anything `request.get_json()` cannot turn into
      one (no JSON, malformed JSON, an array, a string, a number). */
  datatype JsonBody = NotAnObject | Object(card: PyValue, pin: PyValue)

  datatype ValidateResponse =
    | Checked(valid: bool) // status 200, `{'valid': ..., 'message': ...}`
    | ValidateFailed       // status 500: the exception raised by a body that is not an object

  /** `validate`: both fields are converted to text and stripped of Python whitespace
      before the exact lookup. */
  function Validate(body: JsonBody): (r: ValidateResponse)
    ensures r.ValidateFailed? <==> body.NotAnObject?
    ensures r.Checked? ==>
      (r.valid <==> Credential(Trim(Py, AsText(body.card)), Trim(Py, AsText(body.pin))) in Cards)
  {
    match body
    case NotAnObject => ValidateFailed
    case Object(card, pin) =>
      var c := Trim(Py, AsText(card));
      var p := Trim(Py, AsText(pin));
      FindAgreesWithAny(Cards, c, p);
      Checked(Any(Cards, c, p))
  }

  /** For strings whose characters JavaScript and Python agree on as whitespace,
      `validate` accepts exactly what the manual login form accepts. */
  lemma ValidateAgreesWithManualLogin(card: string, pin: string)
    requires forall k :: 0 <= k < |card| ==> (IsJsSpace(card[k]) <==> IsPySpace(card[k]))
    requires forall k :: 0 <= k < |pin| ==> (IsJsSpace(pin[k]) <==> IsPySpace(pin[k]))
    ensures Validate(Object(PyStr(card), PyStr(pin))) == Checked(ManualLogin(Cards, card, pin).Accepted?)
  {
    TrimAgrees(card);
    TrimAgrees(pin);
    CardsHaveNoEmptyFields();
    SameVerdict(Cards, card, pin, Validate(Object(PyStr(card), PyStr(pin))));
  }

  lemma SameVerdict(cards: seq<Credential>, card: string, pin: string, v: ValidateResponse)
    requires NoEmptyField(cards) && Trim(Js, card) == Trim(Py, card) && Trim(Js, pin) == Trim(Py, pin)
    requires v.Checked? && (v.valid <==> Credential(Trim(Py, card), Trim(Py, pin)) in cards)
    ensures v == Checked(ManualLogin(cards, card, pin).Accepted?)
  {
    LoginAcceptsListedPairs(cards, card, pin);
  }

  /** A card number followed by the control character U+001C is accepted by `validate`,
      which strips it as whitespace ... */
  lemma ValidateStripsFileSeparator()
    ensures Validate(Object(PyStr("2269727192\U{1C}"), PyStr("455427"))) == Checked(true)
  {
    var card, pin := "2269727192", "455427";
    var text := card + "\U{1C}";
    assert text == "2269727192\U{1C}";
    assert Trim(Py, text) == card by {
      TrimOfPadded(Py, [], card, "\U{1C}");
      assert [] + card + "\U{1C}" == text;
    }
    assert Trim(Py, pin) == pin by {
      TrimOfUnpadded(Py, pin);
    }
    assert Credential(card, pin) in Cards;
  }

  /** ... and refused by the manual login form, which keeps it. */
  lemma LoginKeepsFileSeparator()
    ensures ManualLogin(Cards, "2269727192\U{1C}", "455427") == Rejected
  {
    var card, pin := "2269727192\U{1C}", "455427";
    TrimOfUnpadded(Js, card);
    TrimOfUnpadded(Js, pin);
    assert Credential(card, pin) !in Cards;
  }

  /** A JSON number whose decimal text is a listed card, with a PIN whose text is listed
      with it, is accepted by `validate`; the browser's strict comparison never accepts
      a number. */
  lemma ValidateAcceptsNumbers(card: nat, pin: nat)
    requires Credential(Decimal.DecimalString(card), Decimal.DecimalString(pin)) in Cards
    ensures Validate(Object(PyInt(card), PyInt(pin))) == Checked(true)
    ensures Recognition.RemoteOutcome(Recognition.Body(Recognition.OtherValue(true), Recognition.OtherValue(true))) == Recognition.TryAgain
  {
    NumberIsUnpadded(card);
    NumberIsUnpadded(pin);
  }

  /** The decimal text of a number is its own strip. */
  lemma NumberIsUnpadded(n: nat)
    ensures Trim(Py, AsText(PyInt(n))) == Decimal.DecimalString(n)
  {
    var s := Decimal.DecimalString(n);
    assert AsText(PyInt(n)) == s;
    assert s != [] && !IsPySpace(s[0]) && !IsPySpace(s[|s| - 1]) by {
      Decimal.DecimalStringRoundTrip(n);
      assert Decimal.IsDigit(s[0]) && Decimal.IsDigit(s[|s| - 1]);
    }
    TrimOfUnpadded(Py, s);
  }
}
