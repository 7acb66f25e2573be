/** The computed fields of the product and category serializers and the
    checks of the comment serializer. A product's comments are represented
    by their ratings; a rating stored as NULL is `None`. Times are in
    microseconds. */
module MarketSerializers {
  import opened Common
  import opened Text
  import opened Translations

  // ---------------------------------------------------------------------
  // Ratings

  /** Every comment has a rating: `sum` over them does not raise. */
  predicate AllRated(ratings: seq<Option<nat>>) {
    forall k :: 0 <= k < |ratings| ==> ratings[k].Some?
  }

  function Scores(ratings: seq<Option<nat>>): (s: seq<int>)
    requires AllRated(ratings)
    ensures |s| == |ratings| && forall k :: 0 <= k < |s| ==> s[k] == ratings[k].value
  {
    seq(|ratings|, k requires 0 <= k < |ratings| => ratings[k].value as int)
  }

  /** `get_total_rating`: the mean rating, 0 without comments; `None` when a
      NULL rating makes the sum raise `TypeError`. */
  function TotalRating(ratings: seq<Option<nat>>): (r: Option<real>)
    ensures ratings == [] ==> r == Some(0.0)
    ensures r.None? <==> ratings != [] && !AllRated(ratings)
  {
    if ratings == [] then Some(0.0)
    else if !AllRated(ratings) then None
    else Some(Sum(Scores(ratings)) as real / |ratings| as real)
  }

  /** Bounds on each term bound the sum. */
  lemma {:induction false} SumBounds(s: seq<int>, lo: int, hi: int)
    requires forall k :: 0 <= k < |s| ==> lo <= s[k] <= hi
    ensures lo * |s| <= Sum(s) <= hi * |s|
  {
    if s != [] {
      SumBounds(s[1..], lo, hi);
      assert lo * |s| == lo + lo * |s[1..]|;
      assert hi * |s| == hi + hi * |s[1..]|;
    }
  }

  /** The mean lies within any bounds of the ratings, so between the lowest
      and the highest rating. */
  lemma TotalRatingBounds(ratings: seq<Option<nat>>, lo: int, hi: int)
    requires ratings != [] && AllRated(ratings)
    requires forall k :: 0 <= k < |ratings| ==> lo <= ratings[k].value <= hi
    ensures lo as real <= TotalRating(ratings).value <= hi as real
  {
    var s := Scores(ratings);
    SumBounds(s, lo, hi);
    RatioBounds(Sum(s), |ratings|, lo, hi);
  }

  lemma RatioBounds(total: int, n: int, lo: int, hi: int)
    requires n > 0 && lo * n <= total <= hi * n
    ensures lo as real <= total as real / n as real <= hi as real
  {
    var q := total as real / n as real;
    assert q * n as real == total as real;
    assert (lo as real) * (n as real) == (lo * n) as real;
    assert (hi as real) * (n as real) == (hi * n) as real;
    assert (q - lo as real) * n as real == total as real - (lo * n) as real;
    assert (hi as real - q) * n as real == (hi * n) as real - total as real;
  }

  /** `get_is_populars`: whether the mean rating exceeds 4.5; false without
      comments; `None` when a NULL rating makes the sum raise. */
  function IsPopulars(ratings: seq<Option<nat>>): (r: Option<bool>)
    ensures ratings == [] ==> r == Some(false)
    ensures r.None? <==> ratings != [] && !AllRated(ratings)
    ensures ratings != [] && AllRated(ratings) ==> r == Some(TotalRating(ratings).value > 4.5)
  {
    if ratings == [] then Some(false)
    else if !AllRated(ratings) then None
    else Some(Sum(Scores(ratings)) as real / |ratings| as real > 4.5)
  }

  /** Popular exactly when twice the rating sum exceeds nine times the
      number of comments. */
  lemma PopularIffSum(ratings: seq<Option<nat>>)
    requires AllRated(ratings)
    ensures IsPopulars(ratings) == Some(true) <==> 2 * Sum(Scores(ratings)) > 9 * |ratings|
  {
    if ratings != [] {
      RatioAbove(Sum(Scores(ratings)), |ratings|);
    }
  }

  /** A mean above 4.5 is twice a sum above nine times the count. */
  lemma RatioAbove(total: int, n: int)
    requires n > 0
    ensures total as real / n as real > 4.5 <==> 2 * total > 9 * n
  {
    var y := n as real;
    var x := total as real / y - 4.5;
    assert x * y == total as real - 4.5 * y;
    if x > 0.0 {
      PositiveProduct(x, y);
    } else {
      NonPositiveProduct(x, y);
    }
  }

  lemma PositiveProduct(x: real, y: real)
    requires x > 0.0 && y > 0.0
    ensures x * y > 0.0
  {
  }

  lemma NonPositiveProduct(x: real, y: real)
    requires x <= 0.0 && y > 0.0
    ensures x * y <= 0.0
  {
  }

  /** What a field validator does with a value: accepts it (possibly
      changed), refuses it with a message, or raises an exception that is
      not a validation error. */
  datatype Validated<T> = Accepted(value: T) | Refused(message: string) | ValidatorRaises

  const RatingMessage := "Review rating must be between 1 and 5."

  /** `validate_review_rating`, as written. The rating field is nullable, so
      the REST framework passes a JSON `null` on, as `None`, and `None < 1`
      raises `TypeError`. A given rating is accepted, unchanged, exactly when
      it is between 1 and 5. */
  function ValidateReviewRating(value: Option<int>): (r: Validated<Option<int>>)
    ensures r.ValidatorRaises? <==> value.None?
    ensures r.Accepted? <==> value.Some? && 1 <= value.value <= 5
    ensures r.Accepted? ==> r.value == value
    ensures r.Refused? ==> r.message == RatingMessage
  {
    match value
    case None => ValidatorRaises
    case Some(v) => if v < 1 || v > 5 then Refused(RatingMessage) else Accepted(value)
  }

  /** A comment posted with `"review_rating": null` makes the validator
      raise, so the request fails with a server error. */
  lemma NullRatingRaises()
    ensures ValidateReviewRating(None) == ValidatorRaises
    ensures forall v :: 1 <= v <= 5 ==> ValidateReviewRating(Some(v)) == Accepted(Some(v))
  {
  }

  /** The evident intent: a missing rating, which the nullable column
      stores as NULL, is let through; a given one must be between 1 and 5. */
  function ValidateOptionalRating(value: Option<int>): (r: Validated<Option<int>>)
    ensures !r.ValidatorRaises?
    ensures r.Accepted? <==> value.None? || 1 <= value.value <= 5
    ensures r.Accepted? ==> r.value == value
    ensures r.Refused? ==> r.message == RatingMessage
  {
    if value.Some? && (value.value < 1 || value.value > 5) then Refused(RatingMessage) else Accepted(value)
  }

  /** The corrected validator differs from the one as written only on `null`. */
  lemma OptionalRatingAgrees(value: Option<int>)
    ensures value.Some? ==> ValidateOptionalRating(value) == ValidateReviewRating(value)
    ensures value.None? ==> ValidateOptionalRating(value) == Accepted(None) && ValidateReviewRating(value).ValidatorRaises?
  {
  }

  /** `validate_product`: the product (given by its id, `None` when absent)
      must be given and must be one of the stored `products`. */
  function ValidateProduct(value: Option<nat>, products: set<nat>): (r: Result<nat, string>)
    ensures r.Ok? <==> value.Some? && value.value in products
    ensures r.Ok? ==> r.value == value.value
    ensures value.None? ==> r == Err("Product is required.")
    ensures value.Some? && value.value !in products ==> r == Err("Product does not exist.")
  {
    if value.None? then Err("Product is required.")
    else if value.value !in products then Err("Product does not exist.")
    else Ok(value.value)
  }

  // ---------------------------------------------------------------------
  // Age

  const NewWindow := 3 * Day

  /** `get_is_news`: created at most three days before `now`. */
  function IsNews(createdAt: int, now: int): (r: bool)
    ensures r <==> now - createdAt <= NewWindow
  {
    now - createdAt <= NewWindow
  }

  /** A product created exactly three days ago is still new, and one
      created any later is new whenever an earlier one is. */
  lemma IsNewsWindow(createdAt: int, later: int, now: int)
    requires createdAt <= later
    ensures IsNews(now - NewWindow, now)
    ensures !IsNews(now - NewWindow - 1, now)
    ensures IsNews(createdAt, now) ==> IsNews(later, now)
  {
  }

  // ---------------------------------------------------------------------
  // Translations and category

  /** `ProductSerializer.get_translated_name` and the `get_translated_name`
      of both category serializers. */
  method TranslatedName(obj: TranslatableObject) returns (m: map<string, string>)
    modifies obj
    ensures m == TruthyMap(old(obj.table), Name, Languages)
    ensures obj.table == old(obj.table) && obj.current == "ru"
  {
    m := TranslationsOf(obj, Name);
  }

  /** `ProductSerializer.get_translated_description`. */
  method TranslatedDescription(obj: TranslatableObject) returns (m: map<string, string>)
    modifies obj
    ensures m == TruthyMap(old(obj.table), Description, Languages)
    ensures obj.table == old(obj.table) && obj.current == "ru"
  {
    m := TranslationsOf(obj, Description);
  }

  /** The name dictionary lists only the five languages, each with its own
      non-empty name. */
  lemma TranslatedNameKeys(t: Table, l: string)
    ensures l in TruthyMap(t, Name, Languages) <==>
              l in Languages && l in t && Name in t[l] && t[l][Name] != ""
    ensures l in TruthyMap(t, Name, Languages) ==> TruthyMap(t, Name, Languages)[l] == t[l][Name]
  {
  }

  /** What `get_category` returns: the placeholder, the category's data, or
      the exception its `parent` field raises. */
  datatype CategoryField =
    | NoCategory
    | CategoryData(id: nat, translatedName: map<string, string>, parent: Option<string>)
    | ParentRaises

  /** `get_category`: "Нет категории" without a category; else the category
      as the subcategory serializer shows it: its id, its name dictionary,
      and `parent.name` read in the parent's current language. A top-level
      category has no parent, and reading `parent.name` then raises, as does
      a parent with no translation in its current language. The parent is a
      separate instance from the category. */
  method GetCategory(category: Option<(nat, TranslatableObject)>, parent: Option<TranslatableObject>)
    returns (r: CategoryField)
    requires category.Some? && parent.Some? ==> parent.value != category.value.1
    modifies if category.Some? then {category.value.1} else {}
    ensures category.None? ==> r == NoCategory
    ensures category.Some? && (parent.None? || parent.value.Read(Name).NoTranslation?) ==> r == ParentRaises
    ensures category.Some? && parent.Some? && parent.value.Read(Name).Value? ==>
              r == CategoryData(category.value.0, TruthyMap(old(category.value.1.table), Name, Languages),
                                parent.value.Read(Name).v)
    ensures category.Some? ==> category.value.1.current == "ru"
    ensures category.Some? ==> category.value.1.table == old(category.value.1.table)
  {
    if category.None? {
      return NoCategory;
    }
    var (id, obj) := category.value;
    var names := TranslatedName(obj);
    if parent.None? {
      return ParentRaises;
    }
    var parentName := parent.value.Read(Name);
    if parentName.NoTranslation? {
      return ParentRaises;
    }
    r := CategoryData(id, names, parentName.v);
  }
}
