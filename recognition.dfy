/** What the browser does with one recognition attempt (app.js `scanFrame` callback and
    `localOCR`): the OCR service's reply or the on-device engine's text, both given as
    inputs, decide whether a credential was confirmed. */
module Recognition {
  import opened Wrappers
  import opened Credentials
  import Tokens
  import Decimal

  /** A field of the JSON body returned by the OCR service, as JavaScript sees it. */
  datatype JsonField =
    | Missing                 // `undefined`: the key is absent
    | Null                    // `null`
    | Str(s: string)          // a string
    | OtherValue(truthy: bool) // a number, boolean, array or object; never `===` a string

  /** JavaScript truthiness of a field. */
  predicate Truthy(f: JsonField) {
    match f
    case Missing => false
    case Null => false
    case Str(s) => s != []
    case OtherValue(t) => t
  }

  /** How the `fetch` to the OCR service ends. */
  datatype RemoteReply =
    | Threw                                  // anything in the `try` block threw: `fetch` or
                                             // `response.json()` rejected, `data.card` read on
                                             // a JSON `null` body, or `FormData.append` given
                                             // the null blob of an empty canvas
    | NotOk                                  // a status outside 200-299
    | Body(card: JsonField, pin: JsonField)  // a 2xx status and the parsed body

  /** What the callback does next. */
  datatype RemoteStep =
    | Confirmed(card: string) // a listed pair: record the card and stop scanning
    | TryAgain                // schedule the next frame if still scanning
    | FallBackToLocal         // run `localOCR` on the same frame

  /** The `try` block of the `toBlob` callback in `scanFrame`. Only an exception inside it
      falls back to local OCR; an error status, a missing field or an unlisted pair just
      retries. */
  function RemoteOutcome(reply: RemoteReply): (step: RemoteStep)
    ensures step.FallBackToLocal? <==> reply.Threw?
    ensures step.Confirmed? <==>
      reply.Body? && reply.card.Str? && reply.pin.Str? && reply.card.s != [] && reply.pin.s != []
      && Credential(reply.card.s, reply.pin.s) in Cards
    ensures step.Confirmed? ==> step.card == reply.card.s
  {
    match reply
    case Threw => FallBackToLocal
    case NotOk => TryAgain
    case Body(card, pin) =>
      if Truthy(card) && Truthy(pin) && card.Str? && pin.Str? && Find(Cards, card.s, pin.s).Some?
      then Confirmed(card.s)
      else TryAgain
  }

  /** How the on-device engine ends. */
  datatype LocalReply =
    | EngineMissing      // `typeof Tesseract === 'undefined'`: the script has not loaded
    | EngineThrew        // `Tesseract.recognize` rejected
    | Text(text: string) // the recognised text

  /** The match `localOCR` makes on the extracted numbers: the first two are taken as
      card and PIN. */
  function Confirm(numbers: seq<string>): (card: Option<string>)
    ensures card.Some? <==> |numbers| >= 2 && Credential(numbers[0], numbers[1]) in Cards
    ensures card.Some? ==> card.value == numbers[0]
  {
    if |numbers| >= 2 && Find(Cards, numbers[0], numbers[1]).Some? then Some(numbers[0]) else None
  }

  /** `localOCR` after its image preparation: the card it confirms, if any. */
  function LocalOutcome(reply: LocalReply): (card: Option<string>)
    ensures card.Some? <==>
      reply.Text? && |Tokens.ExtractNumbers(reply.text)| >= 2
      && Credential(Tokens.ExtractNumbers(reply.text)[0], Tokens.ExtractNumbers(reply.text)[1]) in Cards
    ensures card.Some? ==> card.value == Tokens.ExtractNumbers(reply.text)[0]
  {
    match reply
    case EngineMissing => None
    case EngineThrew => None
    case Text(text) => Confirm(Tokens.ExtractNumbers(text))
  }

  /** A card confirmed by the OCR service is a listed card. */
  lemma RemoteCardIsKnown(reply: RemoteReply)
    ensures RemoteOutcome(reply).Confirmed? ==> IsKnownCard(Cards, RemoteOutcome(reply).card)
  {
    if RemoteOutcome(reply).Confirmed? {
      assert Credential(reply.card.s, reply.pin.s) in Cards;
    }
  }

  /** A card confirmed by local OCR is a listed card. */
  lemma LocalCardIsKnown(reply: LocalReply)
    ensures LocalOutcome(reply).Some? ==> IsKnownCard(Cards, LocalOutcome(reply).value)
  {
    if LocalOutcome(reply).Some? {
      var numbers := Tokens.ExtractNumbers(reply.text);
      assert Credential(numbers[0], numbers[1]) in Cards;
    }
  }

  /** A card confirmed by local OCR is a string of at least four ASCII digits; in
      particular the `admin` entry can never be reached by scanning locally. */
  lemma LocalConfirmsOnlyDigitCards(reply: LocalReply)
    ensures LocalOutcome(reply).Some? ==>
      |LocalOutcome(reply).value| >= 4 && Tokens.AllIn(Tokens.AsciiDigit, LocalOutcome(reply).value)
    ensures LocalOutcome(reply) != Some("admin")
  {
    if LocalOutcome(reply).Some? {
      var numbers := Tokens.ExtractNumbers(reply.text);
      var card := numbers[0];
      assert LocalOutcome(reply).value == card;
      assert card in numbers;
      Tokens.ExtractNumbersTokens(reply.text);
      assert Decimal.IsDigit(card[0]);
      assert card != "admin" by {
        assert "admin"[0] == 'a';
      }
    }
  }

  /** A card printed as its number, one non-digit separator and its PIN is confirmed
      locally, whenever both are listed digit strings of at least four characters. */
  lemma LocalConfirmsPrintedCard(card: string, sep: char, pin: string)
    requires Credential(card, pin) in Cards
    requires |card| >= 4 && |pin| >= 4
    requires Tokens.AllIn(Tokens.AsciiDigit, card) && Tokens.AllIn(Tokens.AsciiDigit, pin)
    requires !Decimal.IsDigit(sep)
    ensures LocalOutcome(Text(card + [sep] + pin)) == Some(card)
  {
    Tokens.ExtractNumbersOfPair(card, sep, pin);
    assert Find(Cards, card, pin).Some?;
  }
}
