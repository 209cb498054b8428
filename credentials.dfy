/** The credential list and the exact (card, PIN) matching done by the browser
    (`CARDS.find`) and by the backend (`any(...)` over `VALID_CARDS`), plus the decision
    taken by the manual login form. */
module Credentials {
  import opened Wrappers
  import opened Text

  datatype Credential = Credential(card: string, pin: string)

  /** `CARDS` in app.js and `VALID_CARDS` in backend.py: the same four entries in the
      same order. */
  const Cards: seq<Credential> := [
    Credential("2269727192", "455427"),
    Credential("admin", "12345"),
    Credential("1234567890", "123456"),
    Credential("9876543210", "654321")
  ]

  /** `cards.find(c => c.card === card && c.pin === pin)`: the first entry with that card
      and that PIN, if any. */
  function Find(cards: seq<Credential>, card: string, pin: string): (r: Option<Credential>)
    ensures r.Some? <==> Credential(card, pin) in cards
    ensures r.Some? ==> r.value == Credential(card, pin)
  {
    if cards == [] then None
    else if cards[0].card == card && cards[0].pin == pin then Some(cards[0])
    else Find(cards[1..], card, pin)
  }

  /** `any(c['card'] == card and c['pin'] == pin for c in cards)`. */
  function Any(cards: seq<Credential>, card: string, pin: string): (b: bool)
    ensures b <==> exists i :: 0 <= i < |cards| && cards[i].card == card && cards[i].pin == pin
  {
    if cards == [] then false
    else (cards[0].card == card && cards[0].pin == pin) || Any(cards[1..], card, pin)
  }

  /** The browser's `find` and the backend's `any` accept the same pairs. */
  lemma FindAgreesWithAny(cards: seq<Credential>, card: string, pin: string)
    ensures Find(cards, card, pin).Some? == Any(cards, card, pin)
  {
    if Any(cards, card, pin) {
      var i :| 0 <= i < |cards| && cards[i].card == card && cards[i].pin == pin;
      assert cards[i] == Credential(card, pin);
    }
  }

  /** Is `card` the card number of some entry? */
  ghost predicate IsKnownCard(cards: seq<Credential>, card: string) {
    exists pin :: Credential(card, pin) in cards
  }

  /** No entry of the credential list has an empty card or an empty PIN. */
  lemma CardsHaveNoEmptyField(card: string, pin: string)
    requires Credential(card, pin) in Cards
    ensures card != [] && pin != []
  {
  }

  /** Every entry of the credential list has a nonempty card and a nonempty PIN. */
  predicate NoEmptyField(cards: seq<Credential>) {
    forall i :: 0 <= i < |cards| ==> cards[i].card != [] && cards[i].pin != []
  }

  lemma CardsHaveNoEmptyFields()
    ensures NoEmptyField(Cards)
  {
    forall i | 0 <= i < |Cards| ensures Cards[i].card != [] && Cards[i].pin != [] {
      CardsHaveNoEmptyField(Cards[i].card, Cards[i].pin);
    }
  }

  /** What the manual login form does with the two input fields. */
  datatype LoginOutcome =
    | MissingField          // a trimmed field is empty: "please fill in all fields"
    | Rejected              // no entry matches: "wrong data", the PIN field is cleared
    | Accepted(card: string) // a match: `currentCard` becomes the trimmed card

  /** app.js `handleLogin`, without its DOM and sound side effects. */
  function ManualLogin(cards: seq<Credential>, cardInput: string, pinInput: string): (r: LoginOutcome)
    ensures r.MissingField? <==> Trim(Js, cardInput) == [] || Trim(Js, pinInput) == []
    ensures r.Accepted? <==> Trim(Js, cardInput) != [] && Trim(Js, pinInput) != []
                             && Credential(Trim(Js, cardInput), Trim(Js, pinInput)) in cards
    ensures r.Accepted? ==> r.card == Trim(Js, cardInput)
  {
    var card := Trim(Js, cardInput);
    var pin := Trim(Js, pinInput);
    if card == [] || pin == [] then MissingField
    else match Find(cards, card, pin)
      case Some(found) => Accepted(card)
      case None => Rejected
  }

  /** A card the form accepts is a listed card. */
  lemma AcceptedCardIsKnown(cards: seq<Credential>, cardInput: string, pinInput: string)
    ensures ManualLogin(cards, cardInput, pinInput).Accepted? ==>
      IsKnownCard(cards, ManualLogin(cards, cardInput, pinInput).card)
  {
    if ManualLogin(cards, cardInput, pinInput).Accepted? {
      assert Credential(Trim(Js, cardInput), Trim(Js, pinInput)) in cards;
    }
  }

  /** Over a list without empty fields, the form accepts exactly the inputs whose trimmed
      pair is listed. */
  lemma LoginAcceptsListedPairs(cards: seq<Credential>, cardInput: string, pinInput: string)
    requires NoEmptyField(cards)
    ensures ManualLogin(cards, cardInput, pinInput).Accepted? <==>
      Credential(Trim(Js, cardInput), Trim(Js, pinInput)) in cards
  {
    var c, p := Trim(Js, cardInput), Trim(Js, pinInput);
    if Credential(c, p) in cards {
      var i :| 0 <= i < |cards| && cards[i] == Credential(c, p);
    }
  }

  /** Whitespace typed before or after the card number or the PIN does not matter; each
      field may be padded differently. */
  lemma ManualLoginIgnoresSurroundingSpace(cards: seq<Credential>, card: string, pin: string,
                                           cardBefore: string, cardAfter: string,
                                           pinBefore: string, pinAfter: string)
    requires Credential(card, pin) in cards && card != [] && pin != []
    requires !IsJsSpace(card[0]) && !IsJsSpace(card[|card| - 1])
    requires !IsJsSpace(pin[0]) && !IsJsSpace(pin[|pin| - 1])
    requires AllSpace(Js, cardBefore) && AllSpace(Js, cardAfter)
    requires AllSpace(Js, pinBefore) && AllSpace(Js, pinAfter)
    ensures ManualLogin(cards, cardBefore + card + cardAfter, pinBefore + pin + pinAfter) == Accepted(card)
  {
    TrimOfPadded(Js, cardBefore, card, cardAfter);
    TrimOfPadded(Js, pinBefore, pin, pinAfter);
  }
}
