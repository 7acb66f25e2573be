/** Validation of the card details a user submits: the card number (16
    digits after removing spaces, accepted by the Luhn formula of ISO/IEC
    7812-1, Annex B), the expiry date (strictly in the future) and the
    holder's name (at least two characters once trimmed), together with the
    cleaning the REST framework's string fields apply before these checks. */
module CardValidation {
  import opened Common
  import opened Text

  const LengthError := "Номер карты должен состоять из 16 цифр."
  const DigitsError := "Номер карты должен состоять только из цифр."
  const LuhnError := "Неверный номер карты."
  const ExpiryError := "Дата истечения срока действия карты должна быть в будущем."
  const HolderError := "Имя держателя карты должно содержать минимум 2 символа."

  // ---------------------------------------------------------------------
  // The Luhn formula

  /** `[int(d) for d in s]` for a string of ASCII digits. */
  function DigitsOf(s: string): (ds: seq<nat>)
    ensures |ds| == |s| && forall i :: 0 <= i < |s| ==> ds[i] == DigitValue(s[i])
  {
    seq(|s|, i requires 0 <= i < |s| => DigitValue(s[i]))
  }

  predicate AllDigits(s: string) {
    forall i :: 0 <= i < |s| ==> IsAsciiDigit(s[i])
  }

  predicate Decimal(ds: seq<nat>) {
    forall i :: 0 <= i < |ds| ==> ds[i] < 10
  }

  /** A doubled digit's contribution: the sum of the digits of `2 * d`. */
  function Doubled(d: nat): nat {
    if d < 5 then 2 * d else 2 * d - 9
  }

  /** The Luhn sum, from the rightmost digit leftwards: digits at odd
      positions (the rightmost is position 1) count as they are, those at
      even positions as `Doubled`. */
  function LuhnSum(ds: seq<nat>): nat {
    if |ds| == 0 then 0
    else if |ds| == 1 then ds[0]
    else LuhnSum(ds[..|ds| - 2]) + ds[|ds| - 1] + Doubled(ds[|ds| - 2])
  }

  predicate LuhnValid(s: string) {
    LuhnSum(DigitsOf(s)) % 10 == 0
  }

  /** Python's `ds[i::-2]`: the elements at `i`, `i - 2`, ... down to 0. */
  function EveryOther(ds: seq<nat>, i: int): (r: seq<nat>)
    requires i < |ds|
    decreases if i < 0 then 0 else i + 1
  {
    if i < 0 then [] else [ds[i]] + EveryOther(ds, i - 2)
  }

  /** `EveryOther` reads nothing beyond position `i`. */
  lemma {:induction false} EveryOtherPrefix(ds: seq<nat>, i: int, k: nat)
    requires i < k <= |ds|
    ensures EveryOther(ds, i) == EveryOther(ds[..k], i)
    decreases if i < 0 then 0 else i + 1
  {
    if i >= 0 {
      EveryOtherPrefix(ds, i - 2, k);
    }
  }

  /** The contributions `sum(digits_of(d * 2))` of the doubled digits. */
  function DoubledSum(es: seq<nat>): int {
    if es == [] then 0 else Sum(DigitsOf(NatToString(2 * es[0]))) + DoubledSum(es[1..])
  }

  lemma {:induction false} DoubledSumAppend(es: seq<nat>, e: nat)
    ensures DoubledSum(es + [e]) == DoubledSum(es) + Sum(DigitsOf(NatToString(2 * e)))
  {
    if es == [] {
      assert [] + [e] == [e];
      assert [e][1..] == [];
    } else {
      assert (es + [e])[1..] == es[1..] + [e];
      DoubledSumAppend(es[1..], e);
    }
  }

  /** The digits of `2 * d` add up to `2 * d` for `d < 5` and to `2 * d - 9`
      otherwise; either way a single digit. */
  lemma DoubledDigits(d: nat)
    requires d < 10
    ensures Sum(DigitsOf(NatToString(2 * d))) == Doubled(d) <= 9
  {
    if 2 * d >= 10 {
      assert (2 * d) / 10 == 1 && (2 * d) % 10 == 2 * d - 10;
      assert NatToString(2 * d) == [DigitChar(1)] + [DigitChar(2 * d - 10)];
      assert DigitsOf(NatToString(2 * d)) == [1, 2 * d - 10];
      assert Sum([1, 2 * d - 10]) == 1 + Sum([2 * d - 10]);
    } else {
      assert DigitsOf(NatToString(2 * d)) == [2 * d];
    }
  }

  /** The sums the source forms over `digits[-1::-2]` and `digits[-2::-2]`
      make up the Luhn sum. */
  lemma {:induction false} LuhnSplit(ds: seq<nat>)
    requires Decimal(ds)
    ensures LuhnSum(ds) == Sum(EveryOther(ds, |ds| - 1)) + DoubledSum(EveryOther(ds, |ds| - 2))
  {
    var n := |ds|;
    if n == 1 {
      assert EveryOther(ds, 0) == [ds[0]];
    } else if n >= 2 {
      var p := ds[..n - 2];
      assert Decimal(p);
      LuhnSplit(p);
      EveryOtherPrefix(ds, n - 3, n - 2);
      EveryOtherPrefix(ds, n - 4, n - 2);
      assert EveryOther(ds, n - 1) == [ds[n - 1]] + EveryOther(p, |p| - 1);
      assert EveryOther(ds, n - 2) == [ds[n - 2]] + EveryOther(p, |p| - 2);
      DoubledDigits(ds[n - 2]);
    }
  }

  /** `_luhn_check`: sums the digits at odd positions from the right, then
      adds the digit sums of the doubled digits at even positions one by one. */
  method LuhnCheck(cardNumber: string) returns (ok: bool)
    requires AllDigits(cardNumber)
    ensures ok <==> LuhnValid(cardNumber)
  {
    var digits := DigitsOf(cardNumber);
    var oddDigits := EveryOther(digits, |digits| - 1);
    var evenDigits := EveryOther(digits, |digits| - 2);
    var checksum := Sum(oddDigits);
    for k := 0 to |evenDigits|
      invariant checksum == Sum(oddDigits) + DoubledSum(evenDigits[..k])
    {
      DoubledSumAppend(evenDigits[..k], evenDigits[k]);
      assert evenDigits[..k + 1] == evenDigits[..k] + [evenDigits[k]];
      checksum := checksum + Sum(DigitsOf(NatToString(evenDigits[k] * 2)));
    }
    assert evenDigits[..|evenDigits|] == evenDigits;
    LuhnSplit(digits);
    ok := checksum % 10 == 0;
  }

  /** What the digit at position `i` of an `n`-digit number contributes. */
  function Weight(n: nat, i: nat, x: nat): nat {
    if (n - 1 - i) % 2 == 0 then x else Doubled(x)
  }

  /** Changing one digit changes the Luhn sum by the change of its contribution. */
  lemma {:induction false} LuhnSumUpdate(ds: seq<nat>, i: nat, x: nat)
    requires i < |ds|
    ensures LuhnSum(ds[i := x]) == LuhnSum(ds) - Weight(|ds|, i, ds[i]) + Weight(|ds|, i, x)
  {
    var n := |ds|;
    var ds' := ds[i := x];
    if n >= 2 {
      if i >= n - 2 {
        assert ds'[..n - 2] == ds[..n - 2];
      } else {
        assert ds'[..n - 2] == ds[..n - 2][i := x];
        assert ds'[n - 1] == ds[n - 1] && ds'[n - 2] == ds[n - 2];
        LuhnSumUpdate(ds[..n - 2], i, x);
        WeightShift(n, i, ds[i]);
        WeightShift(n, i, x);
      }
    }
  }

  /** Two more digits to the right leave a position's weight as it was. */
  lemma WeightShift(n: nat, i: nat, x: nat)
    requires i + 2 < n
    ensures Weight(n - 2, i, x) == Weight(n, i, x)
  {
    assert (n - 2 - 1 - i) % 2 == (n - 1 - i) % 2;
  }

  /** Different digits contribute differently, in either position. */
  lemma WeightInjective(n: nat, i: nat, a: nat, b: nat)
    requires i < n && a < 10 && b < 10 && a != b
    ensures Weight(n, i, a) != Weight(n, i, b) && Weight(n, i, a) <= 9 && Weight(n, i, b) <= 9
  {
  }

  /** Replacing any one digit of a Luhn-valid number by another digit makes
      it invalid: the formula detects every single-digit error. */
  lemma SingleDigitError(ds: seq<nat>, i: nat, x: nat)
    requires Decimal(ds) && i < |ds| && x < 10 && x != ds[i]
    requires LuhnSum(ds) % 10 == 0
    ensures LuhnSum(ds[i := x]) % 10 != 0
  {
    LuhnSumUpdate(ds, i, x);
    WeightInjective(|ds|, i, ds[i], x);
    NoMultipleOfTenNearby(LuhnSum(ds), Weight(|ds|, i, x) - Weight(|ds|, i, ds[i]));
  }

  /** No other multiple of 10 lies within 9 of a multiple of 10. */
  lemma NoMultipleOfTenNearby(l: int, d: int)
    requires l % 10 == 0 && -9 <= d <= 9 && d != 0
    ensures (l + d) % 10 != 0
  {
    var q := l / 10;
    assert l == 10 * q;
    if d > 0 {
      assert (l + d) / 10 == q && (l + d) % 10 == d;
    } else {
      assert (l + d) / 10 == q - 1 && (l + d) % 10 == d + 10;
    }
  }

  // ---------------------------------------------------------------------
  // The field validators

  /** `validate_card_number`: spaces removed, then exactly 16 characters,
      then only digits, then the Luhn formula, reported in that order. */
  function ValidateCardNumber(value: string): (r: Result<string, string>)
    ensures r.Ok? <==> var c := RemoveChar(value, ' '); |c| == 16 && AllDigits(c) && LuhnValid(c)
    ensures r.Ok? ==> r.value == RemoveChar(value, ' ') && ' ' !in r.value
    ensures |RemoveChar(value, ' ')| != 16 ==> r == Err(LengthError)
    ensures |RemoveChar(value, ' ')| == 16 && !AllDigits(RemoveChar(value, ' ')) ==> r == Err(DigitsError)
    ensures r.Err? && r != Err(LengthError) && r != Err(DigitsError) ==> r == Err(LuhnError)
  {
    var cardNumber := RemoveChar(value, ' ');
    if |cardNumber| != 16 then Err(LengthError)
    else if !AllDigits(cardNumber) then Err(DigitsError)
    else if !LuhnValid(cardNumber) then Err(LuhnError)
    else Ok(cardNumber)
  }

  /** A number that passed is rejected, as an invalid number, once any one of
      its digits is mistyped as another digit. */
  lemma MistypedDigitRejected(s: string, i: nat, c: char)
    requires ValidateCardNumber(s) == Ok(s)
    requires i < |s| && IsAsciiDigit(c) && c != s[i]
    ensures ValidateCardNumber(s[i := c]) == Err(LuhnError)
  {
    var s' := s[i := c];
    var ds := DigitsOf(s);
    AcceptedShape(s);
    MistypedDigits(s, i, c);
    SingleDigitError(ds, i, DigitValue(c));
    assert !LuhnValid(s');
    LuhnFailure(s');
  }

  /** A number accepted as it stands is 16 digits passing the Luhn formula. */
  lemma AcceptedShape(s: string)
    requires ValidateCardNumber(s) == Ok(s)
    ensures |s| == 16 && AllDigits(s) && LuhnSum(DigitsOf(s)) % 10 == 0
  {
  }

  /** Sixteen digits failing the Luhn formula are refused for that reason. */
  lemma LuhnFailure(v: string)
    requires ' ' !in v && |v| == 16 && AllDigits(v) && !LuhnValid(v)
    ensures ValidateCardNumber(v) == Err(LuhnError)
  {
    RemoveCharAbsent(v, ' ');
  }

  /** Mistyping a digit of a number made of digits leaves a number made of
      digits, whose digit values differ at that one place. */
  lemma MistypedDigits(s: string, i: nat, c: char)
    requires AllDigits(s) && i < |s| && IsAsciiDigit(c) && c != s[i]
    ensures AllDigits(s[i := c]) && ' ' !in s[i := c]
    ensures Decimal(DigitsOf(s)) && DigitValue(c) < 10 && DigitValue(c) != DigitsOf(s)[i]
    ensures DigitsOf(s[i := c]) == DigitsOf(s)[i := DigitValue(c)]
  {
  }

  /** A calendar date, ordered as Python orders `date` values. */
  datatype Date = Date(year: int, month: int, day: int)

  predicate Before(a: Date, b: Date) {
    a.year < b.year
    || (a.year == b.year && a.month < b.month)
    || (a.year == b.year && a.month == b.month && a.day < b.day)
  }

  /** `validate_expiration_date` against the date `today`. */
  function ValidateExpirationDate(value: Date, today: Date): (r: Result<Date, string>)
    ensures r.Ok? <==> Before(today, value)
    ensures r.Ok? ==> r.value == value
    ensures r.Err? ==> r.error == ExpiryError
  {
    if !Before(today, value) then Err(ExpiryError) else Ok(value)
  }

  /** A card expiring today is refused. */
  lemma ExpiringTodayRejected(today: Date)
    ensures ValidateExpirationDate(today, today) == Err(ExpiryError)
  {
  }

  /** `validate_card_holder`: the trimmed name, which must have at least two characters. */
  function ValidateCardHolder(value: string): (r: Result<string, string>)
    ensures r.Ok? <==> |Strip(value)| >= 2
    ensures r.Ok? ==> r.value == Strip(value)
    ensures r.Err? ==> r.error == HolderError
  {
    if value == "" || |Strip(value)| < 2 then Err(HolderError) else Ok(Strip(value))
  }

  // ---------------------------------------------------------------------
  // The serializer

  /** A field of the submitted data: missing, or the string given. */
  datatype FieldInput = Missing | Given(s: string)

  /** The submitted expiry date: missing, not in the `YYYY-MM-DD` format, or a date. */
  datatype DateInput = NoDate | Malformed | OnDate(d: Date)

  const RequiredMessage := "This field is required."
  const BlankMessage := "This field may not be blank."
  const NullCharMessage := "Null characters are not allowed."
  const DateFormatMessage := "Date has wrong format. Use one of these formats instead: YYYY-MM-DD."
  /** The serializer's `max_length` for the card number, which leaves room for spaces. */
  const NumberMaxLength := 19
  /** The card holder column's `max_length`. */
  const HolderMaxLength := 255

  function MaxLengthMessage(n: nat): string {
    "Ensure this field has no more than " + NatToString(n) + " characters."
  }

  /** A required, non-blank string field of the REST framework: the input is
      trimmed, then its length and the absence of NUL characters are checked,
      every failing check reporting its message. */
  function CleanCharField(input: FieldInput, maxLength: nat): (r: Result<string, seq<string>>)
    ensures input.Missing? ==> r == Err([RequiredMessage])
    ensures r.Ok? <==> input.Given? && Strip(input.s) != "" && |Strip(input.s)| <= maxLength
                       && 0 as char !in Strip(input.s)
    ensures r.Ok? ==> r.value == Strip(input.s)
  {
    match input
    case Missing => Err([RequiredMessage])
    case Given(s) =>
      var v := Strip(s);
      if v == "" then Err([BlankMessage])
      else
        var errors := (if |v| > maxLength then [MaxLengthMessage(maxLength)] else [])
                      + (if 0 as char in v then [NullCharMessage] else []);
        if errors != [] then Err(errors) else Ok(v)
  }

  /** The submitted card details. */
  datatype CardInput = CardInput(number: FieldInput, holder: FieldInput, expiry: DateInput)

  /** The validated card details. */
  datatype CardData = CardData(number: string, holder: string, expiry: Date)

  /** The card number field: cleaning, then `validate_card_number`. */
  function NumberField(input: FieldInput): (r: Result<string, seq<string>>)
    ensures r.Ok? <==> input.Given? && CleanCharField(input, NumberMaxLength).Ok?
                       && ValidateCardNumber(Strip(input.s)).Ok?
    ensures r.Ok? ==> input.Given? && r.value == RemoveChar(Strip(input.s), ' ')
                      && ValidateCardNumber(Strip(input.s)).Ok?
    ensures CleanCharField(input, NumberMaxLength).Err? ==> r == CleanCharField(input, NumberMaxLength)
    ensures input.Given? && CleanCharField(input, NumberMaxLength).Ok? && ValidateCardNumber(Strip(input.s)).Err?
            ==> r == Err([ValidateCardNumber(Strip(input.s)).error])
  {
    match CleanCharField(input, NumberMaxLength)
    case Err(e) => Err(e)
    case Ok(v) =>
      match ValidateCardNumber(v)
      case Err(e) => Err([e])
      case Ok(c) => Ok(c)
  }

  /** The card holder field: cleaning, then `validate_card_holder`. */
  function HolderField(input: FieldInput): (r: Result<string, seq<string>>)
    ensures r.Ok? <==> input.Given? && CleanCharField(input, HolderMaxLength).Ok? && |Strip(input.s)| >= 2
    ensures r.Ok? ==> input.Given? && r.value == Strip(input.s) && |r.value| >= 2
    ensures CleanCharField(input, HolderMaxLength).Err? ==> r == CleanCharField(input, HolderMaxLength)
    ensures input.Given? && CleanCharField(input, HolderMaxLength).Ok? && |Strip(input.s)| < 2
            ==> r == Err([HolderError])
  {
    match CleanCharField(input, HolderMaxLength)
    case Err(e) => Err(e)
    case Ok(v) =>
      StripIdempotent(input.s);
      match ValidateCardHolder(v)
      case Err(e) => Err([e])
      case Ok(h) => Ok(h)
  }

  /** The expiry field: parsing, then `validate_expiration_date`. */
  function ExpiryField(input: DateInput, today: Date): (r: Result<Date, seq<string>>)
    ensures r.Ok? <==> input.OnDate? && Before(today, input.d)
    ensures r.Ok? ==> r.value == input.d
  {
    match input
    case NoDate => Err([RequiredMessage])
    case Malformed => Err([DateFormatMessage])
    case OnDate(d) =>
      match ValidateExpirationDate(d, today)
      case Err(e) => Err([e])
      case Ok(v) => Ok(v)
  }

  /** `is_valid()`: every field is checked; the errors are collected by field name. */
  function ValidateCard(input: CardInput, today: Date): (r: Result<CardData, map<string, seq<string>>>)
    ensures r.Ok? <==> NumberField(input.number).Ok? && HolderField(input.holder).Ok?
                       && ExpiryField(input.expiry, today).Ok?
    ensures r.Err? ==> r.error.Keys <= {"card_number", "card_holder", "expiration_date"}
    ensures r.Err? ==> ("card_number" in r.error <==> NumberField(input.number).Err?)
    ensures r.Err? ==> ("card_holder" in r.error <==> HolderField(input.holder).Err?)
    ensures r.Err? ==> ("expiration_date" in r.error <==> ExpiryField(input.expiry, today).Err?)
  {
    var n := NumberField(input.number);
    var h := HolderField(input.holder);
    var e := ExpiryField(input.expiry, today);
    if n.Ok? && h.Ok? && e.Ok? then Ok(CardData(n.value, h.value, e.value))
    else Err(ErrorsOf(n, h, e))
  }

  /** The errors of the failing fields, by field name. */
  function ErrorsOf(n: Result<string, seq<string>>, h: Result<string, seq<string>>, e: Result<Date, seq<string>>)
    : (m: map<string, seq<string>>)
    ensures m.Keys <= {"card_number", "card_holder", "expiration_date"}
    ensures "card_number" in m <==> n.Err?
    ensures "card_holder" in m <==> h.Err?
    ensures "expiration_date" in m <==> e.Err?
    ensures n.Err? ==> m["card_number"] == n.error
    ensures h.Err? ==> m["card_holder"] == h.error
    ensures e.Err? ==> m["expiration_date"] == e.error
  {
    (if n.Err? then map["card_number" := n.error] else map[])
    + (if h.Err? then map["card_holder" := h.error] else map[])
    + (if e.Err? then map["expiration_date" := e.error] else map[])
  }

  /** A validated card number is always 16 digits without spaces, and the
      trimmed input with its spaces removed. */
  lemma ValidNumberShape(input: CardInput, today: Date)
    requires ValidateCard(input, today).Ok?
    ensures var c := ValidateCard(input, today).value.number;
            |c| == 16 && AllDigits(c) && LuhnValid(c) && ' ' !in c
            && input.number.Given? && c == RemoveChar(Strip(input.number.s), ' ')
  {
  }
}
