/** The product list's filters. A queryset is a sequence of product records
    without repetitions; each filter keeps some of them in their order. */
module ProductFilters {
  import opened Common
  import opened Text
  import opened Translations

  /** The fields of a product the filters look at. `colors` are the values of
      its colour records; the three flags and the discount price can be NULL. */
  datatype Product = Product(
    id: nat,
    names: Table,
    colors: seq<string>,
    popular: Option<bool>,
    isNew: Option<bool>,
    discounted: Option<bool>,
    discount: Option<real>)

  // ---------------------------------------------------------------------
  // Tri-state flags

  datatype Flag = Popular | New | Discounted

  function FlagOf(p: Product, flag: Flag): Option<bool> {
    match flag
    case Popular => p.popular
    case New => p.isNew
    case Discounted => p.discounted
  }

  /** `filter_is_popular`, `filter_is_new`, `filter_is_discounted`: `True`
      keeps the products whose flag is true, `False` those whose flag is
      false, no value keeps everything. */
  function FilterFlag(qs: seq<Product>, flag: Flag, value: Option<bool>): (r: seq<Product>)
    ensures value.None? ==> r == qs
    ensures value.Some? ==> forall p :: p in r <==> p in qs && FlagOf(p, flag) == value
    ensures NoDup(qs) ==> NoDup(r)
  {
    match value
    case None => qs
    case Some(b) =>
      WhereNoDupIf(qs, (p: Product) => FlagOf(p, flag) == Some(b));
      Where(qs, (p: Product) => FlagOf(p, flag) == Some(b))
  }

  /** `Where` keeps a queryset free of repetitions. */
  lemma WhereNoDupIf(qs: seq<Product>, keep: Product -> bool)
    ensures NoDup(qs) ==> NoDup(Where(qs, keep))
  {
    if NoDup(qs) {
      WhereNoDup(qs, keep);
    }
  }

  /** No product is kept both by `True` and by `False`, and one whose flag is
      NULL is kept by neither. */
  lemma FlagFiltersDisjoint(qs: seq<Product>, flag: Flag, p: Product)
    ensures !(p in FilterFlag(qs, flag, Some(true)) && p in FilterFlag(qs, flag, Some(false)))
    ensures FlagOf(p, flag).None? ==>
              p !in FilterFlag(qs, flag, Some(true)) && p !in FilterFlag(qs, flag, Some(false))
  {
  }

  // ---------------------------------------------------------------------
  // Discount price

  /** `filter_has_discount`: `True` keeps a positive discount price, `False`
      a NULL or zero one, no value keeps everything. */
  function FilterHasDiscount(qs: seq<Product>, value: Option<bool>): (r: seq<Product>)
    ensures value.None? ==> r == qs
    ensures value == Some(true) ==>
              forall p :: p in r <==> p in qs && p.discount.Some? && p.discount.value > 0.0
    ensures value == Some(false) ==>
              forall p :: p in r <==> p in qs && (p.discount.None? || p.discount.value == 0.0)
    ensures NoDup(qs) ==> NoDup(r)
  {
    if value == Some(true) then
      WhereNoDupIf(qs, (p: Product) => p.discount.Some? && p.discount.value > 0.0);
      Where(qs, (p: Product) => p.discount.Some? && p.discount.value > 0.0)
    else if value == Some(false) then
      WhereNoDupIf(qs, (p: Product) => p.discount.None? || p.discount.value == 0.0);
      Where(qs, (p: Product) => p.discount.None? || p.discount.value == 0.0)
    else qs
  }

  /** The two discount filters never keep the same product, and a negative
      discount price is kept by neither. */
  lemma DiscountFiltersDisjoint(qs: seq<Product>, p: Product)
    ensures !(p in FilterHasDiscount(qs, Some(true)) && p in FilterHasDiscount(qs, Some(false)))
    ensures p.discount.Some? && p.discount.value < 0.0 ==>
              p !in FilterHasDiscount(qs, Some(true)) && p !in FilterHasDiscount(qs, Some(false))
  {
  }

  // ---------------------------------------------------------------------
  // Colour

  /** Some colour of `p` contains `code`, ignoring case. */
  predicate HasColor(p: Product, code: string) {
    exists k :: 0 <= k < |p.colors| && ContainsIgnoringCase(p.colors[k], code)
  }

  function MatchingColor(qs: seq<Product>, code: string): (r: seq<Product>)
    ensures forall p :: p in r <==> p in qs && HasColor(p, code)
    ensures NoDup(qs) ==> NoDup(r)
  {
    WhereNoDupIf(qs, (p: Product) => HasColor(p, code));
    Where(qs, (p: Product) => HasColor(p, code))
  }

  /** `filter_color`: an empty value keeps everything; otherwise the leading
      `#`s are dropped, and a 6-character code, or the first 6 characters of
      an 8-character one, is matched against the product colours when
      `int(code, 16)` accepts it. Anything else keeps nothing. */
  function FilterColor(qs: seq<Product>, value: string): (r: seq<Product>)
    ensures value == "" ==> r == qs
    ensures value != "" && |StripLeftChar(value, '#')| != 6 && |StripLeftChar(value, '#')| != 8 ==> r == []
    ensures var c := StripLeftChar(value, '#');
            value != "" && |c| == 6 && PyInt(c, 16).Some? ==> r == MatchingColor(qs, c)
    ensures var c := StripLeftChar(value, '#');
            value != "" && |c| == 8 && PyInt(c[..6], 16).Some? ==> r == MatchingColor(qs, c[..6])
    ensures var c := StripLeftChar(value, '#');
            (|c| == 6 && PyInt(c, 16).None?) || (|c| == 8 && PyInt(c[..6], 16).None?) ==> r == []
    ensures NoDup(qs) ==> NoDup(r)
  {
    if value == "" then qs
    else
      var color := StripLeftChar(value, '#');
      if |color| == 6 then
        if PyInt(color, 16).Some? then MatchingColor(qs, color) else []
      else if |color| == 8 then
        var rgb := color[..6];
        if PyInt(rgb, 16).Some? then MatchingColor(qs, rgb) else []
      else []
  }

  /** Six hexadecimal digits are matched as they stand. */
  lemma HexCodeMatches(qs: seq<Product>, value: string)
    requires |value| == 6 && value[0] != '#'
    requires forall i :: 0 <= i < 6 ==> DigitValue(value[i]) < 16
    ensures forall p :: p in FilterColor(qs, value) <==> p in qs && HasColor(p, value)
  {
    HexDigitsParse(value);
  }

  /** Any number of leading `#`s is ignored. */
  lemma LeadingHashesIgnored(qs: seq<Product>, value: string)
    requires value != ""
    ensures FilterColor(qs, "#" + value) == FilterColor(qs, value)
  {
    assert ("#" + value)[1..] == value;
  }

  /** The alpha part of an 8-character code is ignored. */
  lemma AlphaIgnored(qs: seq<Product>, value: string)
    requires |value| == 8 && value[0] != '#'
    ensures FilterColor(qs, value) == FilterColor(qs, value[..6])
  {
  }

  /** A code that `int(code, 16)` accepts is matched as it stands, even when
      it is not six hexadecimal digits: a sign counts as one of the six
      characters. */
  lemma SignedCodeMatches(qs: seq<Product>)
    ensures PyInt("+abcde", 16) == Some(0xabcde)
    ensures FilterColor(qs, "+abcde") == MatchingColor(qs, "+abcde")
  {
    var s := "+abcde";
    StripNoop(s);
    assert SplitSign(s) == (false, "abcde");
    var d := "abcde";
    assert SkipPrefix(d, 16) == d;
    assert UnderscoredDigits(d, 16);
    assert d[..|d| - 1] == d[..4] && d[..4][..3] == d[..3] && d[..3][..2] == d[..2] && d[..2][..1] == d[..1];
    assert DigitsValue(d[..1], 16) == 0xa;
    assert DigitsValue(d[..2], 16) == 0xab;
    assert DigitsValue(d[..3], 16) == 0xabc;
    assert DigitsValue(d[..4], 16) == 0xabcd;
    assert DigitsValue(d, 16) == 0xabcde;
  }

  /** A 6-character code `int(code, 16)` refuses keeps nothing. */
  lemma BadHexKeepsNothing(qs: seq<Product>, value: string)
    requires |StripLeftChar(value, '#')| == 6 && PyInt(StripLeftChar(value, '#'), 16).None?
    ensures FilterColor(qs, value) == []
  {
  }

  // ---------------------------------------------------------------------
  // Search

  /** The name of `p` in language `lang` contains `value`, ignoring case. */
  predicate NameMatches(p: Product, lang: string, value: string) {
    lang in p.names && Name in p.names[lang] && ContainsIgnoringCase(p.names[lang][Name], value)
  }

  /** The products kept by a search over the languages `langs`. */
  predicate MatchesAny(p: Product, langs: seq<string>, value: string) {
    exists k :: 0 <= k < |langs| && NameMatches(p, langs[k], value)
  }

  /** One more language adds one disjunct. */
  lemma MatchesAnySnoc(p: Product, langs: seq<string>, l: string, value: string)
    ensures MatchesAny(p, langs + [l], value) <==> MatchesAny(p, langs, value) || NameMatches(p, l, value)
  {
    if MatchesAny(p, langs + [l], value) {
      var k :| 0 <= k < |langs + [l]| && NameMatches(p, (langs + [l])[k], value);
      if k < |langs| {
        assert (langs + [l])[k] == langs[k];
      }
    }
    if MatchesAny(p, langs, value) {
      var k :| 0 <= k < |langs| && NameMatches(p, langs[k], value);
      assert (langs + [l])[k] == langs[k];
    }
    if NameMatches(p, l, value) {
      assert (langs + [l])[|langs|] == l;
    }
  }

  /** `filter_search`: an empty value keeps everything; else the condition
      `search_q` is built as the disjunction, over the five languages, of
      "the name in that language contains the value", and each product is
      kept once. */
  method FilterSearch(qs: seq<Product>, value: string) returns (r: seq<Product>)
    ensures value == "" ==> r == qs
    ensures value != "" ==>
              forall p :: p in r <==> p in qs && exists l :: l in Languages && NameMatches(p, l, value)
    ensures NoDup(qs) ==> NoDup(r)
  {
    if value == "" {
      return qs;
    }
    var searchQ: Product -> bool := (p: Product) => false;
    for i := 0 to |Languages|
      invariant forall p :: searchQ(p) == MatchesAny(p, Languages[..i], value)
    {
      var lang := Languages[i];
      var before := searchQ;
      searchQ := (p: Product) => before(p) || NameMatches(p, lang, value);
      assert Languages[..i + 1] == Languages[..i] + [lang];
      forall p
        ensures searchQ(p) == MatchesAny(p, Languages[..i + 1], value)
      {
        MatchesAnySnoc(p, Languages[..i], lang, value);
      }
    }
    assert Languages[..|Languages|] == Languages;
    r := Where(qs, searchQ);
    WhereNoDupIf(qs, searchQ);
    forall p
      ensures searchQ(p) <==> exists l :: l in Languages && NameMatches(p, l, value)
    {
      if exists l :: l in Languages && NameMatches(p, l, value) {
        var l :| l in Languages && NameMatches(p, l, value);
        var k :| 0 <= k < |Languages| && Languages[k] == l;
        assert NameMatches(p, Languages[k], value);
      }
    }
  }
}
