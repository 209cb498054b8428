# Kiosk authenticator: a Dafny model of the login and scan logic

This project models the decision logic of a kiosk authenticator in Dafny and proves properties about it. A user signs in at the kiosk with a card number and a PIN. They can type the pair into a form, or hold the printed card in front of the camera. The browser sends each camera frame to an OCR service, `/api/ocr` in `backend.py`. If that request fails, the browser falls back to an on-device engine, after binarising the frame itself. Both sides pull the long numbers out of the recognised text and look the first two up in a fixed list of four credentials. A match shows a success screen with an eight-hour countdown. The backend also offers `/api/validate`, which checks a typed pair.

Every browser, camera, network and OCR-library call is replaced by an input value:

- the camera is granted or refused, and a frame is ready or not;
- the OCR service's reply is a thrown error, an error status or a JSON body;
- the on-device engine is missing, throws, or returns text;
- the backend's upload parts and the OCR reader's output lines are inputs too.

Modules, one per file:

- `Pixels` (pixels.dfy): `processImage`, as an in-place loop over an `array` of bytes. It is proved against the function `Binarised`. The luminance weights 0.299, 0.587 and 0.114 are scaled by 1000, so the arithmetic is exact integer arithmetic.
- `Text` (text.dfy): JavaScript `trim()` and Python `strip()`. They differ only in their whitespace sets.
- `Tokens` (tokens.dfy): the two number extractors.
  - `Runs` gives the maximal runs of a character class, in text order.
  - Python's `re.findall(r'\d+')` is the run of decimal digits.
  - The JavaScript version blanks non-digits, trims and splits on `\s+`. It is proved equal to the long runs of ASCII digits.
- `Credentials` (credentials.dfy): the credential list and the first-match `find` of the browser. It also holds the backend's `any`, and the manual login decision.
- `Decimal` (decimal.dfy): `String(n)` and `str(n)` for integers, and the value of a digit string.
- `Countdown` (countdown.dfy): the HH:MM:SS text of the success screen and the one-second tick. The text is proved to read back as the remaining seconds.
- `Recognition` (recognition.dfy): what one recognition attempt decides, from the service's reply or the engine's text.
- `Session` (session.dfy): the class `Kiosk`. Its fields are the globals `scanning`, `stream` and `currentCard`, plus counts of the callbacks waiting in the browser's event loop. Each method is one callback running to completion. The class invariant says:
  - only a granted stream is scanned, and every stream is stopped at most once;
  - only listed cards are ever recorded or shown;
  - a running scan always has a pending callback to continue it.
- `Backend` (backend.dfy): the decisions of `ocr_scan` and `validate`. It also holds the lemmas that relate them to the browser's decisions.

The model follows the code also where a reader might expect otherwise. One might expect a cancelled scan to discard its in-flight result, at most one scan loop to run, and every failed attempt to fall back to local OCR; the code does none of these.

- `stopCamera` does not discard a recognition already in flight. If the service then confirms a pair, the card is still recorded and the success screen still shows. `Session.CancelledScanStillSignsIn` exhibits this.
- If the user stops and restarts the camera while a request is in flight, two scan loops run side by side once that request comes back. `Session.RestartDuringRecognitionRunsTwoLoops` exhibits this.
- The browser falls back to local OCR only when something inside the `try` block of the `toBlob` callback throws: `fetch` or `response.json()` rejecting, `data.card` read on a JSON `null` body, or `FormData.append` given the null blob of an empty canvas. An error status, a missing field or an unlisted pair only retries.
- `validate` strips the Python whitespace set, so a trailing U+001C is accepted there but rejected by the login form. It also accepts JSON numbers, which the browser's strict comparison never matches.

## Model

| member | source | states |
|---|---|---|
| Pixels.ScaledStretch | app.js:162-164 | the contrast-stretched luminance lies between 0 and 255 and exceeds 128 exactly when the luminance does |
| Pixels.BinariseIsMidpointTest | app.js:162-167 | a pixel's grey value is 255 when its luminance exceeds 128 and 0 otherwise; the >200 and <50 branches never change the outcome |
| Pixels.Binarised | app.js:158-170 | the processed buffer has the input's length and every alpha byte (index 4i+3) unchanged |
| Pixels.BinarisedPixel | app.js:165-168 | the three colour bytes of every whole pixel are equal, each 0 or 255, and 255 exactly when the pixel's luminance exceeds 128 |
| Pixels.PixelBytes | app.js:168 | bytes i, i+1 and i+2 of a whole pixel all receive that pixel's grey value |
| Pixels.BinarisedIsBlackOrWhite | app.js:160-168 | every colour byte of the output is 0 or 255, including those of a last pixel that the end of the buffer cuts short |
| Pixels.BinariseKeepsBlackAndWhite | app.js:162-167 | a black or a white pixel keeps its value |
| Pixels.BinarisedIsIdempotent | app.js:158-170 | processing a processed buffer again changes nothing |
| Pixels.WritePixelAdvances | app.js:160-168 | one loop step extends the finished prefix by one pixel and leaves the rest of the buffer untouched |
| Pixels.ProcessImage | app.js:158-170 | after the loop, the array holds exactly the binarised old contents |
| Text.LeadingSpace | app.js:31 | counts the leading whitespace: all of it is whitespace and the next character is not |
| Text.TrailingSpace | app.js:31 | counts the trailing whitespace: all of it is whitespace and the character before it is not |
| Text.Trim | app.js:31-32 | the result is a contiguous part of the input whose cut-off margins are whitespace, and it neither begins nor ends with whitespace |
| Text.TrimOfUnpadded | app.js:31-32 | a string with no whitespace at either end is its own trim |
| Text.TrimOfPadded | app.js:31-32 | whitespace put around a string is removed again by trimming |
| Text.TrimAgrees | backend.py:140-141 | `strip()` and `trim()` give the same result on text whose characters the two runtimes classify alike |
| Tokens.RunsAreRuns | backend.py:68 | every run found is nonempty and made only of characters of the class |
| Tokens.RunsOfRun | backend.py:68 | a nonempty string made only of the class is one single run |
| Tokens.RunsOfNone | backend.py:68 | a text without a character of the class has no runs |
| Tokens.RunsSplitAt | backend.py:68 | the runs of a, a separator and b are the runs of a followed by the runs of b: runs keep text order and never cross a separator |
| Tokens.RunsOccurIn | backend.py:68 | every run occurs in the text at some position |
| Tokens.LongTokens | backend.py:71 | keeps exactly the tokens longer than three characters, and no more tokens than it was given |
| Tokens.LongTokensAppend | backend.py:71 | the length filter keeps order: it distributes over concatenation |
| Tokens.SplitIsRuns | app.js:174 | splitting on `\s+` and dropping short parts yields the long runs of non-whitespace |
| Tokens.TrimKeepsRuns | app.js:173 | trimming does not change the runs of non-whitespace |
| Tokens.ExtractNumbersIsLongDigitRuns | app.js:172-176 | `extractNumbers` returns the maximal runs of ASCII digits longer than three, in text order |
| Tokens.ExtractNumbersTokens | app.js:173-174 | every token `extractNumbers` returns is at least four ASCII digits |
| Tokens.ExtractNumbersEmptyIff | app.js:173-175 | `extractNumbers` returns nothing exactly when the text has no four consecutive ASCII digits |
| Tokens.LongRunsEmptyIff | backend.py:68-71 | the long runs of a class are empty exactly when no four consecutive characters belong to it |
| Tokens.ExtractNumbersOfPair | app.js:172-176 | two digit strings of at least four digits joined by any non-digit come back as exactly that pair |
| Tokens.RunsOfJoined | backend.py:98 | joining runs with single spaces and finding the runs again gives back the same list |
| Tokens.ExtractNumbersIdempotent | app.js:172-176 | extracting again from the tokens joined by spaces gives the same tokens |
| Tokens.ExtractNumbersPyIdempotent | backend.py:65-73 | `extract_numbers` applied to its own output, joined by spaces, gives the same list |
| Tokens.ExtractNumbersPyTokens | backend.py:68-71 | `extract_numbers` keeps exactly the maximal decimal-digit runs longer than three |
| Tokens.ExtractorsAgreeOnAscii | backend.py:65-73 | on ASCII text, `extract_numbers` and `extractNumbers` return the same list |
| Tokens.ExtractorsDisagreeOnArabicIndic | backend.py:68 | four Arabic-Indic digits form a number for `\d` in Python but not for the browser's `[^0-9]` |
| Credentials.Find | app.js:39 | `find` returns an entry exactly when the (card, PIN) pair is listed, and then it returns that pair |
| Credentials.Any | backend.py:143 | `any` holds exactly when some entry has both that card and that PIN |
| Credentials.FindAgreesWithAny | backend.py:113 | the browser's `find` and the backend's `any` accept the same pairs |
| Credentials.CardsHaveNoEmptyField | app.js:2-7 | no listed card number and no listed PIN is empty |
| Credentials.CardsHaveNoEmptyFields | backend.py:34-39 | every entry of the list has a nonempty card and a nonempty PIN |
| Credentials.ManualLogin | app.js:29-52 | the form asks for both fields exactly when a trimmed field is empty; it accepts exactly when both are nonempty and the trimmed pair is listed, and then records the trimmed card |
| Credentials.AcceptedCardIsKnown | app.js:39-41 | a card the form accepts is a listed card |
| Credentials.LoginAcceptsListedPairs | app.js:31-45 | the form accepts exactly the inputs whose trimmed pair is listed |
| Credentials.ManualLoginIgnoresSurroundingSpace | app.js:31-32 | a listed pair is accepted with any whitespace typed before or after each field, each field padded independently |
| Decimal.DecimalStringRoundTrip | app.js:196-198 | `String(n)` is a digit string that denotes n, at most two characters when n is below 100 |
| Decimal.LeadingZero | app.js:196-198 | the zero `padStart` adds does not change the value |
| Countdown.PadTwoKeepsValue | app.js:196-198 | a padded field is at least two digits, exactly two below 100, and denotes the same number |
| Countdown.HoursMinutesSeconds | app.js:196-198 | minutes and seconds are below 60, and hours, minutes and seconds add back up to the time |
| Countdown.ClockRoundTrip | app.js:194-199 | the shown HH:MM:SS text reads back as the number of seconds left, for every duration |
| Countdown.ClockWidth | app.js:196-199 | below 100 hours the timer always shows eight characters |
| Countdown.SessionStartsAtEightHours | app.js:8 | a fresh session shows 08:00:00 |
| Countdown.Timer.constructor | app.js:194 | the countdown starts at eight hours |
| Countdown.Timer.Tick | app.js:195-200 | each tick shows the current time, which reads back as that time, then counts down one second and never below zero |
| Recognition.RemoteOutcome | app.js:88-120 | local fallback happens exactly when the `try` block throws (a rejected `fetch` or `json()`, a `null` body, a null blob); a confirmation happens exactly when both fields are nonempty strings forming a listed pair, and it confirms that card |
| Recognition.Confirm | app.js:142-145 | local OCR confirms exactly when there are two numbers and the first two form a listed pair, and it confirms the first |
| Recognition.LocalOutcome | app.js:134-152 | `localOCR` confirms exactly when the engine returned text whose first two extracted numbers form a listed pair |
| Recognition.RemoteCardIsKnown | app.js:100-103 | a card the service confirms is a listed card |
| Recognition.LocalCardIsKnown | app.js:141-145 | a card local OCR confirms is a listed card |
| Recognition.LocalConfirmsOnlyDigitCards | app.js:141-145 | a locally confirmed card is at least four ASCII digits, so `admin` can never be scanned locally |
| Recognition.LocalConfirmsPrintedCard | app.js:141-145 | a listed digit card printed as card, separator and PIN is confirmed locally |
| Session.Kiosk.constructor | app.js:10-12 | the page starts with no stream, not scanning, no card and nothing pending |
| Session.Kiosk.StopCamera | app.js:178-183 | scanning stops and the open stream, if any, is stopped once and dropped; a second call stops nothing more |
| Session.Kiosk.ScanFrame | app.js:71-87 | nothing is scheduled once scanning is off; an unready frame schedules a retry, and a ready one a recognition request |
| Session.Kiosk.StartCamera | app.js:54-69 | a grant opens a new stream and starts exactly one scan loop; a refusal runs `stopCamera` |
| Session.Kiosk.FireTick | app.js:72-78 | a scheduled `scanFrame` replaces itself by at most one callback, and by none once scanning has stopped |
| Session.Kiosk.Conclude | app.js:102-124 | a match records the card, stops scanning and schedules the settle timeout; otherwise the loop retries only while scanning |
| Session.Kiosk.RemoteReplyArrives | app.js:87-124 | a listed pair is a match, an exception in the `try` block waits on local OCR exactly once, and anything else ends the attempt; the number of live loops never grows |
| Session.Kiosk.LocalResultArrives | app.js:128-156 | the card local OCR confirms is recorded and scanning stops; with no match the loop retries only while scanning |
| Session.Kiosk.LocalRunEnds | app.js:119-124 | the waiting `localOCR` run is consumed; a confirmed card is recorded and scanning stops, otherwise the loop retries only while scanning |
| Session.Kiosk.SettleFires | app.js:109-112 | the stream is released and the recorded card is shown |
| Session.Kiosk.ShowSuccessFires | app.js:45 | the recorded card is shown and the scan state is untouched |
| Session.Kiosk.HandleLogin | app.js:29-52 | the outcome is the form's decision; only an accepted login records the card and schedules the success screen, and the scan state is never touched |
| Session.Kiosk.Welcome | app.js:41-45 | records a listed card and schedules the success screen |
| Session.CancelledScanStillSignsIn | app.js:98-112 | a request in flight when the camera is stopped still records its card, and the success screen still shows |
| Session.RestartDuringRecognitionRunsTwoLoops | app.js:122-124 | stopping and restarting during a request leaves two scan loops running |
| Backend.OcrScan | backend.py:75-133 | a missing image part or an empty filename is refused before any OCR, and only an exception gives status 500; a reply has `success == valid`, card and PIN are both present or both absent, and `valid` holds exactly when the reported pair is listed |
| Backend.Report | backend.py:105-129 | with fewer than two numbers, nothing is reported and the reply is invalid; otherwise the first two numbers are reported as card and PIN, listed or not, and `valid` holds exactly when they are listed |
| Backend.OcrScanReportsFirstTwoNumbers | backend.py:105-129 | for a decodable upload, the first two extracted numbers, each longer than three digits, are reported |
| Backend.ClientConfirmsExactlyValidScans | app.js:98-116 | the browser confirms a scan exactly when the backend reports it valid, confirms the reported card, and no backend reply makes it fall back to local OCR |
| Backend.ClientReadsReport | app.js:98-116 | the browser confirms a status-200 reply exactly when it is valid |
| Backend.ReportAgreesWithConfirm | backend.py:108-113 | on the same numbers, the backend's verdict and the browser's local match agree, with the same card |
| Backend.BackendAgreesWithLocalOnAscii | backend.py:105-121 | on the same ASCII text, the backend and local OCR reach the same verdict on the same card |
| Backend.Validate | backend.py:135-150 | a body that is not an object gives status 500; otherwise `valid` holds exactly when the stripped text of card and PIN form a listed pair |
| Backend.ValidateAgreesWithManualLogin | backend.py:140-143 | where the two whitespace sets agree, `validate` accepts exactly what the login form accepts |
| Backend.ValidateStripsFileSeparator | backend.py:140-143 | a listed card followed by U+001C is accepted by `validate` |
| Backend.LoginKeepsFileSeparator | app.js:31-45 | the same input is rejected by the login form |
| Backend.NumberIsUnpadded | backend.py:140 | the decimal text of a JSON number has no whitespace to strip |
| Backend.ValidateAcceptsNumbers | backend.py:140-143 | JSON numbers whose texts form a listed pair are accepted by `validate`, while the browser never matches a non-string field |

## Left out

- DOM and UI are left out: screen toggling, messages, the text of the reply messages, `setMode`, `goBack`, `logout`, `openWhatsApp` and `showSales`. They only render the state.
- `playSound`, `vibrate` and the injected Tesseract script tag are left out. They have no logic to state.
- Camera, canvas, `fetch`, Flask, PIL and logging are left out. Their outcomes are the inputs described above.
- `enhance_image` and the two OCR engines are left out. They are foreign libraries, so the recognised text is a parameter.
- The `/api/health` route is left out. It reports only static status.
- Timer delays are modelled as pending-callback counts. The model keeps the order in which callbacks fire, not their durations.
- The `await getUserMedia` inside `startCamera` is treated as atomic. A `stopCamera` that runs while permission is being asked is not modelled.
- A throw from `getImageData` or `putImageData` in `localOCR` is not modelled. Such a throw would end the `toBlob` callback and with it the scan loop.
- `timeout: 3000` in the `fetch` options is left out. Browsers ignore it.
- Pixels.ProcessImage: luminance is exact rational arithmetic, whereas the source uses floating point. The two can differ only for a pixel whose luminance lies at 128 within rounding error.
- Tokens.ExtractNumbersPy: Python's `\d` is modelled as ASCII, Arabic-Indic (U+0660-0669) and Extended Arabic-Indic (U+06F0-06F9) digits. The other Unicode decimal-digit blocks are not modelled.
- Countdown.Timer.Tick: it models one `setInterval` callback. `showSuccess` running twice starts a second, independent countdown that writes the same display, and that is not modelled.
- Session.Kiosk.StartCamera: a restart while a stream is still open replaces `stream` without stopping the old stream's tracks, as the source does. The model keeps that stream unstopped and makes no claim about releasing it.
- Backend.Validate: a JSON body that is an object with other keys is modelled by its `card` and `pin` fields only. `str()` of floats, lists and objects is carried as an opaque text.
