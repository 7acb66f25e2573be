/** The columns the admin shows for cards and orders: the masked card
    number, the expiry status of an `MMYY` value, the product count and the
    product lines of an order's snapshot, and the order status by age. */
module OrderAdmin {
  import opened Common
  import opened Text

  // ---------------------------------------------------------------------
  // Cards

  const MaskPrefix := "**** **** **** "
  const FullMask := "**** **** **** ****"

  /** `card_number_masked`: only the last four characters are shown. */
  function CardNumberMasked(number: string): (r: string)
    ensures |number| >= 4 ==> r == MaskPrefix + number[|number| - 4..]
    ensures |number| < 4 ==> r == FullMask
    ensures |r| == 19
  {
    if number != "" && |number| >= 4 then MaskPrefix + number[|number| - 4..] else FullMask
  }

  /** Nothing but the last four characters reaches the mask: numbers that
      end alike are masked alike. */
  lemma MaskRevealsOnlyLastFour(a: string, b: string)
    requires |a| >= 4 && |b| >= 4 && a[|a| - 4..] == b[|b| - 4..]
    ensures CardNumberMasked(a) == CardNumberMasked(b)
  {
  }

  /** Every shown character other than the mask's own is one of the last four. */
  lemma MaskShowsLastFour(number: string, k: nat)
    requires k < 19 && CardNumberMasked(number)[k] != '*' && CardNumberMasked(number)[k] != ' '
    ensures |number| >= 4 && k >= 15 && CardNumberMasked(number)[k] == number[|number| - 19 + k]
  {
  }

  /** What `is_expired` shows; `Raises` is the `ValueError` of `int()` on a
      value that is not a number. */
  datatype ExpiryStatus = InvalidFormat | Expired | Active | Raises

  /** `is_expired` for the value `expiry` (`None` for NULL) in the year and
      month of the present moment. */
  function IsExpired(expiry: Option<string>, nowYear: int, nowMonth: int): (r: ExpiryStatus)
    ensures r == InvalidFormat <==> expiry.None? || |expiry.value| != 4
    ensures r == Raises <==> expiry.Some? && |expiry.value| == 4
                             && (PyInt(expiry.value[..2], 10).None? || PyInt(expiry.value[2..], 10).None?)
    ensures r == Expired <==> expiry.Some? && |expiry.value| == 4
                              && PyInt(expiry.value[..2], 10).Some? && PyInt(expiry.value[2..], 10).Some?
                              && var month := PyInt(expiry.value[..2], 10).value;
                                 var year := PyInt(expiry.value[2..], 10).value;
                                 year < nowYear % 100 || (year == nowYear % 100 && month < nowMonth)
  {
    if expiry.None? || expiry.value == "" || |expiry.value| != 4 then InvalidFormat
    else
      var month := PyInt(expiry.value[..2], 10);
      var year := PyInt(expiry.value[2..], 10);
      if month.None? || year.None? then Raises
      else
        var currentYear := nowYear % 100;
        if year.value < currentYear || (year.value == currentYear && month.value < nowMonth) then Expired
        else Active
  }

  /** For four ASCII digits `MMYY` the card has expired exactly when `YY` is
      before the current two-digit year, or equal to it with `MM` before the
      current month; a card expiring this month is still active. */
  lemma ExpiryOfDigits(expiry: string, nowYear: int, nowMonth: int)
    requires |expiry| == 4 && forall i :: 0 <= i < 4 ==> IsAsciiDigit(expiry[i])
    ensures var mm := 10 * DigitValue(expiry[0]) + DigitValue(expiry[1]);
            var yy := 10 * DigitValue(expiry[2]) + DigitValue(expiry[3]);
            && (IsExpired(Some(expiry), nowYear, nowMonth) == Expired <==>
                  yy < nowYear % 100 || (yy == nowYear % 100 && mm < nowMonth))
            && IsExpired(Some(expiry), nowYear, nowMonth) != Raises
            && (yy == nowYear % 100 && mm == nowMonth ==> IsExpired(Some(expiry), nowYear, nowMonth) == Active)
  {
    TwoDigitsParse(expiry[..2]);
    TwoDigitsParse(expiry[2..]);
  }

  // ---------------------------------------------------------------------
  // Orders

  /** A value of an order's JSON product snapshot: `null`, a string, a
      number (by the text it is written as) or a boolean. */
  datatype JsonValue = JNull | JText(s: string) | JNumber(text: string) | JBool(b: bool)

  /** One entry of an order's product snapshot: the keys it has and their values. */
  type Entry = map<string, JsonValue>

  /** `products_count`: the number of entries, 0 for a NULL or empty snapshot. */
  function ProductsCount(products: Option<seq<Entry>>): (r: nat)
    ensures products.Some? ==> r == |products.value|
    ensures products.None? ==> r == 0
  {
    if products.Some? && products.value != [] then |products.value| else 0
  }

  /** The text an f-string shows for a decoded JSON value: `None`, the
      string itself, the number as written, `True` or `False`. */
  function Shown(v: JsonValue): string {
    match v
    case JNull => "None"
    case JText(s) => s
    case JNumber(text) => text
    case JBool(b) => if b then "True" else "False"
  }

  /** What a product line of `products_display` shows. */
  datatype ItemView = ItemView(id: string, name: string, quantity: string, price: string)

  /** `product.get(key, default)`. */
  function Get(e: Entry, key: string, default: JsonValue): JsonValue {
    if key in e then e[key] else default
  }

  /** The id `products_display` looks up: the entry's own, or `'N/A'`. */
  function IdOf(e: Entry): JsonValue {
    Get(e, "id", JText("N/A"))
  }

  /** The line for one snapshot entry, with the defaults for missing keys. */
  function ViewOf(e: Entry): (v: ItemView)
    ensures "id" !in e ==> v.id == "N/A"
    ensures "name" !in e ==> v.name == "Неизвестный продукт"
    ensures "quantity" !in e ==> v.quantity == "1"
    ensures "price" !in e ==> v.price == "0"
    ensures "name" in e ==> v.name == Shown(e["name"])
  {
    ItemView(Shown(IdOf(e)), Shown(Get(e, "name", JText("Неизвестный продукт"))),
             Shown(Get(e, "quantity", JNumber("1"))), Shown(Get(e, "price", JNumber("0"))))
  }

  /** The text of one line, without its markup. */
  function LineText(v: ItemView): string {
    v.name + " (ID: " + v.id + ") - Количество: " + v.quantity + ", Цена: " + v.price + " ₽"
  }

  /** What `products_display` shows; `LookupRaises` is the `ValueError` of the
      product lookup. */
  datatype ProductsView = NoProducts | Lines(items: seq<ItemView>) | LookupRaises

  /** `Product.objects.get(id=product_id)` raises `ValueError`, which is not
      caught, exactly when the id is a string that `int()` refuses, the
      default `N/A` included: the integer primary key takes `int()` of the
      id. A number or a boolean converts (`int(True)` is 1), and `None`
      becomes an `IS NULL` lookup; a product that does not exist is caught
      and only loses its image. */
  predicate IdRejected(e: Entry) {
    IdOf(e).JText? && PyInt(IdOf(e).s, 10).None?
  }

  /** An entry without an id makes the lookup raise. */
  lemma MissingIdRejected(e: Entry)
    requires "id" !in e
    ensures IdRejected(e)
  {
    StripNoop("N/A");
    assert SplitSign("N/A") == (false, "N/A");
    assert DigitValue('N') >= 10;
  }

  /** A `null` or boolean id is looked up without raising, and the line
      shows it as `None`, `True` or `False`. */
  lemma NullOrBoolIdShown(e: Entry)
    requires "id" in e && (e["id"].JNull? || e["id"].JBool?)
    ensures !IdRejected(e)
    ensures ViewOf(e).id == (if e["id"].JNull? then "None" else if e["id"].b then "True" else "False")
  {
  }

  /** A string id raises exactly when `int()` refuses it; digits, with
      surrounding whitespace or a sign, do not. */
  lemma TextIdRejected(e: Entry, s: string)
    requires "id" in e && e["id"] == JText(s)
    ensures IdRejected(e) <==> PyInt(s, 10).None?
    ensures s != "" && (forall i :: 0 <= i < |s| ==> '0' <= s[i] <= '9') ==> !IdRejected(e)
  {
    if s != "" && (forall i :: 0 <= i < |s| ==> '0' <= s[i] <= '9') {
      StripNoop(s);
      assert SplitSign(s) == (false, s);
      assert DigitValue(s[0]) < 10 && DigitValue(s[|s| - 1]) < 10;
      assert UnderscoredDigits(s, 10);
    }
  }

  /** `products_display`: "Нет продуктов" for a NULL or empty snapshot;
      otherwise the exception when some entry's id is refused, else one line
      per entry, in order. */
  method ProductsDisplay(products: Option<seq<Entry>>) returns (d: ProductsView)
    ensures d.NoProducts? <==> products.None? || products.value == []
    ensures d.LookupRaises? <==> products.Some? && exists k :: 0 <= k < |products.value| && IdRejected(products.value[k])
    ensures d.Lines? ==> |d.items| == |products.value|
                         && forall k :: 0 <= k < |d.items| ==> d.items[k] == ViewOf(products.value[k])
  {
    if products.None? || products.value == [] {
      return NoProducts;
    }
    var items: seq<ItemView> := [];
    for k := 0 to |products.value|
      invariant |items| == k
      invariant forall j :: 0 <= j < k ==> items[j] == ViewOf(products.value[j])
      invariant forall j :: 0 <= j < k ==> !IdRejected(products.value[j])
    {
      var product := products.value[k];
      // the four `product.get` calls with their defaults
      var view := ViewOf(product);
      if IdRejected(product) {
        return LookupRaises;
      }
      items := items + [view];
    }
    d := Lines(items);
  }

  const Hour := 3_600_000_000

  datatype OrderStatus = New | Processing | Completed

  /** `status_display`, times in microseconds: created within the last hour,
      within the last day, or earlier. */
  function StatusDisplay(createdAt: int, now: int): (r: OrderStatus)
    ensures r == New <==> now - createdAt < Hour
    ensures r == Processing <==> Hour <= now - createdAt < Day
    ensures r == Completed <==> now - createdAt >= Day
  {
    if createdAt > now - Hour then New
    else if createdAt > now - Day then Processing
    else Completed
  }

  function Rank(s: OrderStatus): nat {
    match s
    case New => 0
    case Processing => 1
    case Completed => 2
  }

  /** An older order never shows an earlier status. */
  lemma StatusMonotone(created1: int, created2: int, now: int)
    requires created2 <= created1
    ensures Rank(StatusDisplay(created1, now)) <= Rank(StatusDisplay(created2, now))
  {
  }

  /** `has_add_permission`: orders are never added through the admin. */
  function HasAddPermission(): (r: bool)
    ensures !r
  {
    false
  }

  /** `has_delete_permission`: orders are never deleted through the admin. */
  function HasDeletePermission(): (r: bool)
    ensures !r
  {
    false
  }
}
