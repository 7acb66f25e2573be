/** The card details endpoint: a user posts a card; the card is refused with
    409 when the user already holds one under the lookup key (the posted
    number with its spaces removed), validated otherwise, and stored when
    valid. Any exception raised on the way is answered with a generic 500.
    `PostAsWritten` is the view as written and `Post` the view with the key
    normalised like the stored number. */
module CardStore {
  import opened Common
  import opened Text
  import opened CardValidation

  /** A stored card, with the user who owns it. */
  datatype Card = Card(owner: nat, number: string, holder: string, expiry: Date)

  /** The `card_number` of the request body: missing, a string, or any other
      JSON value (null, a number, a list, ...), on which `.replace` raises. */
  datatype RawNumber = Absent | Str(s: string) | NonText

  datatype Request = Request(user: nat, number: RawNumber, holder: FieldInput, expiry: DateInput)

  datatype Response =
    | Created(card: Card)
    | BadRequest(errors: map<string, seq<string>>)
    | Conflict(message: string)
    | ServerError(message: string)

  const ConflictMessage := "Карта с таким номером уже существует"
  const ServerErrorMessage := "Ошибка при создании карты"

  /** `request.data.get('card_number', '')` for a string or a missing value. */
  function RawText(n: RawNumber): string
    requires !n.NonText?
  {
    if n.Absent? then "" else n.s
  }

  /** What the serializer sees of the card number. */
  function NumberInput(n: RawNumber): FieldInput
    requires !n.NonText?
  {
    if n.Absent? then Missing else Given(n.s)
  }

  /** The cards of `user` whose number is `number` (the queryset the view filters). */
  function CardsWith(cards: seq<Card>, user: nat, number: string): (r: seq<Card>)
    ensures forall c :: c in r <==> c in cards && c.owner == user && c.number == number
  {
    Where(cards, (c: Card) => c.owner == user && c.number == number)
  }

  /** `user` has a card with number `number`. */
  predicate Holds(cards: seq<Card>, user: nat, number: string) {
    exists i :: 0 <= i < |cards| && cards[i].owner == user && cards[i].number == number
  }

  /** No user holds two cards with the same number. */
  predicate UniquePerUser(cards: seq<Card>) {
    forall i, j :: 0 <= i < j < |cards| && cards[i].owner == cards[j].owner ==> cards[i].number != cards[j].number
  }

  /** The view once the number has been read and its lookup `key` computed:
      409 when the user holds a card under that key, else the serializer's
      verdict, storing the new card with the requester as its owner. */
  function Handle(cards: seq<Card>, req: Request, today: Date, key: string): (out: (Response, seq<Card>))
    requires !req.number.NonText?
  {
    if Holds(cards, req.user, key) then (Conflict(ConflictMessage), cards)
    else
      match ValidateCard(CardInput(NumberInput(req.number), req.holder, req.expiry), today)
      case Err(e) => (BadRequest(e), cards)
      case Ok(d) =>
        var card := Card(req.user, d.number, d.holder, d.expiry);
        (Created(card), cards + [card])
  }

  /** The lookup key as the view computes it: the raw value with its spaces
      removed, but not trimmed. */
  function KeyAsWritten(n: RawNumber): string
    requires !n.NonText?
  {
    RemoveChar(RawText(n), ' ')
  }

  /** The lookup key normalised as the serializer normalises the number it
      stores: trimmed, then its spaces removed. */
  function Key(n: RawNumber): string
    requires !n.NonText?
  {
    RemoveChar(Strip(RawText(n)), ' ')
  }

  /** `CardDetailsView.post` as written, as a function of the stored cards:
      the response and the cards afterwards. */
  function PostAsWritten(cards: seq<Card>, req: Request, today: Date): (out: (Response, seq<Card>))
  {
    if req.number.NonText? then (ServerError(ServerErrorMessage), cards)
    else Handle(cards, req, today, KeyAsWritten(req.number))
  }

  /** `CardDetailsView.post` with the lookup key normalised like the stored number. */
  function Post(cards: seq<Card>, req: Request, today: Date): (out: (Response, seq<Card>))
  {
    if req.number.NonText? then (ServerError(ServerErrorMessage), cards)
    else Handle(cards, req, today, Key(req.number))
  }

  /** The card table, which the view reads and inserts into. */
  class CardTable {
    var cards: seq<Card>

    constructor ()
      ensures cards == []
    {
      cards := [];
    }

    /** Handles one POST of card details on behalf of `req.user`, looking
        the number up under the key the view computes. */
    method HandlePost(req: Request, today: Date) returns (resp: Response)
      modifies this
      ensures (resp, cards) == PostAsWritten(old(cards), req, today)
    {
      if req.number.NonText? {
        resp := ServerError(ServerErrorMessage);
        return;
      }
      var cardNumber := KeyAsWritten(req.number);
      var existing := CardsWith(cards, req.user, cardNumber);
      if existing != [] {
        assert existing[0] in cards;
        resp := Conflict(ConflictMessage);
        return;
      }
      assert !Holds(cards, req.user, cardNumber);
      var validated := ValidateCard(CardInput(NumberInput(req.number), req.holder, req.expiry), today);
      if validated.Ok? {
        var card := Card(req.user, validated.value.number, validated.value.holder, validated.value.expiry);
        cards := cards + [card];
        resp := Created(card);
      } else {
        resp := BadRequest(validated.error);
      }
    }
  }

  // The next four lemmas hold for any lookup key, so both for the view as
  // written (`KeyAsWritten`) and for the corrected one (`Key`).

  /** A request whose key the user already holds gets 409, and only such a
      request; the cards are then unchanged. */
  lemma ConflictIffHeld(cards: seq<Card>, req: Request, today: Date, key: string)
    requires !req.number.NonText?
    ensures Handle(cards, req, today, key).0.Conflict? <==> Holds(cards, req.user, key)
    ensures Handle(cards, req, today, key).0.Conflict? ==> Handle(cards, req, today, key).1 == cards
  {
  }

  /** The response depends only on the requester's own cards: the same
      number held by other users is no conflict. */
  lemma {:induction false} OnlyOwnCardsMatter(cards: seq<Card>, others: seq<Card>, req: Request, today: Date, key: string)
    requires !req.number.NonText?
    requires forall i :: 0 <= i < |others| ==> others[i].owner != req.user
    ensures Handle(cards + others, req, today, key).0 == Handle(cards, req, today, key).0
  {
    if Holds(cards + others, req.user, key) {
      var i :| 0 <= i < |cards + others| && (cards + others)[i].owner == req.user && (cards + others)[i].number == key;
      assert i < |cards| && cards[i] == (cards + others)[i];
    }
    if Holds(cards, req.user, key) {
      var i :| 0 <= i < |cards| && cards[i].owner == req.user && cards[i].number == key;
      assert (cards + others)[i] == cards[i];
    }
  }

  /** Invalid details get 400 and a non-string number gets 500; in both
      cases the cards are unchanged, in the view as written and corrected. */
  lemma FailuresChangeNothing(cards: seq<Card>, req: Request, today: Date)
    ensures PostAsWritten(cards, req, today).0.BadRequest? || PostAsWritten(cards, req, today).0.ServerError? ==>
              PostAsWritten(cards, req, today).1 == cards
    ensures PostAsWritten(cards, req, today).0.ServerError? <==> req.number.NonText?
    ensures Post(cards, req, today).0.BadRequest? || Post(cards, req, today).0.ServerError? ==>
              Post(cards, req, today).1 == cards
    ensures Post(cards, req, today).0.ServerError? <==> req.number.NonText?
  {
  }

  /** On success exactly one card is added: owned by the requester, its
      number the trimmed input without spaces, 16 digits passing Luhn. */
  lemma CreatedAddsOne(cards: seq<Card>, req: Request, today: Date, key: string)
    requires !req.number.NonText? && Handle(cards, req, today, key).0.Created?
    ensures var (resp, after) := Handle(cards, req, today, key);
            after == cards + [resp.card] && resp.card.owner == req.user
            && req.number.Str? && resp.card.number == RemoveChar(Strip(req.number.s), ' ')
            && |resp.card.number| == 16 && AllDigits(resp.card.number) && LuhnValid(resp.card.number)
  {
    var input := CardInput(NumberInput(req.number), req.holder, req.expiry);
    ValidNumberShape(input, today);
  }

  /** Every request keeps the table free of duplicate numbers per user. */
  lemma {:induction false} PostKeepsUnique(cards: seq<Card>, req: Request, today: Date)
    requires UniquePerUser(cards)
    ensures UniquePerUser(Post(cards, req, today).1)
  {
    var (resp, after) := Post(cards, req, today);
    if resp.Created? {
      CreatedAddsOne(cards, req, today, Key(req.number));
      var c := resp.card;
      var key := Key(req.number);
      assert c.number == key;
      assert !Holds(cards, req.user, key);
      forall i, j | 0 <= i < j < |after| && after[i].owner == after[j].owner
        ensures after[i].number != after[j].number
      {
        if j == |cards| {
          assert after[i] == cards[i] && after[j] == c;
        } else {
          assert after[i] == cards[i] && after[j] == cards[j];
        }
      }
    }
  }

  /** When the only whitespace in the number is the plain space, the view as
      written does exactly what the normalised lookup does. */
  lemma AsWrittenAgrees(cards: seq<Card>, req: Request, today: Date)
    requires req.number.Str?
    requires forall i :: 0 <= i < |req.number.s| && IsSpace(req.number.s[i]) ==> req.number.s[i] == ' '
    ensures PostAsWritten(cards, req, today) == Post(cards, req, today)
  {
    RemoveSpacesAfterStrip(req.number.s);
  }

  /** A valid number followed by whitespace other than a space: the lookup
      key keeps the whitespace, the serializer trims it away. */
  lemma {:induction false} TrailingWhitespaceKeys(number: string, c: char)
    requires ValidateCardNumber(number) == Ok(number)
    requires IsSpace(c) && c != ' '
    ensures KeyAsWritten(Str(number + [c])) == number + [c]
    ensures NumberField(Given(number + [c])) == Ok(number)
  {
    var raw := number + [c];
    RemoveCharAbsent(number, ' ');
    assert ' ' !in raw;
    RemoveCharAbsent(raw, ' ');
    StripTrailingSpace(number, c);
    StripNoop(number);
    assert Strip(raw) == number;
    assert 0 as char !in number;
    assert CleanCharField(Given(raw), NumberMaxLength) == Ok(number);
  }

  /** The view as written stores a held number again when it is posted
      with trailing whitespace other than a plain space. */
  lemma {:induction false} TrailingWhitespaceStored(cards: seq<Card>, req: Request, today: Date, number: string, c: char)
    requires ValidateCardNumber(number) == Ok(number)
    requires forall i :: 0 <= i < |cards| ==> AllDigits(cards[i].number)
    requires IsSpace(c) && c != ' ' && req.number == Str(number + [c])
    requires HolderField(req.holder).Ok? && req.expiry.OnDate? && Before(today, req.expiry.d)
    ensures var card := Card(req.user, number, HolderField(req.holder).value, req.expiry.d);
            PostAsWritten(cards, req, today) == (Created(card), cards + [card])
  {
    var raw := number + [c];
    TrailingWhitespaceKeys(number, c);
    NonDigitNotHeld(cards, req.user, raw, |number|);
    TrailingWhitespaceValid(req, today, number, c);
    assert NumberInput(req.number) == Given(raw);
  }

  /** The serializer accepts the number with its trailing whitespace and
      stores it trimmed. */
  lemma TrailingWhitespaceValid(req: Request, today: Date, number: string, c: char)
    requires ValidateCardNumber(number) == Ok(number)
    requires IsSpace(c) && c != ' '
    requires HolderField(req.holder).Ok? && req.expiry.OnDate? && Before(today, req.expiry.d)
    ensures ValidateCard(CardInput(Given(number + [c]), req.holder, req.expiry), today)
            == Ok(CardData(number, HolderField(req.holder).value, req.expiry.d))
  {
    TrailingWhitespaceKeys(number, c);
  }

  /** A key with a non-digit in it matches no stored number. */
  lemma NonDigitNotHeld(cards: seq<Card>, user: nat, key: string, k: nat)
    requires forall i :: 0 <= i < |cards| ==> AllDigits(cards[i].number)
    requires k < |key| && !IsAsciiDigit(key[k])
    ensures !Holds(cards, user, key)
  {
  }

  /** The view as written lets a user store a number twice: posting a held
      number again with trailing whitespace other than a plain space (a
      newline, a tab) misses the lookup, yet the serializer trims it and
      stores the same number a second time. */
  lemma {:induction false} TrailingWhitespaceDuplicates(cards: seq<Card>, req: Request, today: Date, number: string, c: char)
    requires ValidateCardNumber(number) == Ok(number)
    requires Holds(cards, req.user, number)
    requires forall i :: 0 <= i < |cards| ==> AllDigits(cards[i].number)
    requires IsSpace(c) && c != ' ' && req.number == Str(number + [c])
    requires HolderField(req.holder).Ok? && req.expiry.OnDate? && Before(today, req.expiry.d)
    ensures var (resp, after) := PostAsWritten(cards, req, today);
            resp.Created? && resp.card.number == number && after == cards + [resp.card]
            && !UniquePerUser(after)
  {
    TrailingWhitespaceStored(cards, req, today, number, c);
    var card := Card(req.user, number, HolderField(req.holder).value, req.expiry.d);
    var j :| 0 <= j < |cards| && cards[j].owner == req.user && cards[j].number == number;
    assert (cards + [card])[j] == cards[j] && (cards + [card])[|cards|] == card;
  }
}
