# SeedBee Make-Up: the validation and display rules, in Dafny

SeedBee is a Django shop for cosmetics. Its catalogue (categories, products,
comments), banners and blog are translated into five languages through
django-parler: Russian, English, Uzbek, Kazakh and Korean. This project models
the small rules spread over its apps and proves what they promise:

- **Card details** (`apps/order`): a submitted card number has its spaces
  removed, then must be 16 digits passing the Luhn formula (ISO/IEC 7812-1,
  Annex B). The expiry date must lie strictly in the future. The holder name
  is trimmed and must keep at least two characters. Before these checks the
  REST framework's string fields are cleaned: surrounding whitespace is
  trimmed, and blanks, overlong values and NUL characters are refused.
- **The card endpoint**: a per-user card table. The view looks the posted
  number up with its spaces removed. When the user already holds a card
  under that key the answer is 409 and nothing changes. Invalid details get
  400, and a non-string number gets 500. A valid card is stored, trimmed and
  without spaces, with the requester as its owner. The table is a class over
  a sequence of cards, proved against a function of the old table. Because
  the lookup key is not trimmed, the view can store a held number twice
  (see "## Findings"); a corrected view is modelled beside it.
- **The order admin columns**: the masked card number, the `MMYY` expiry
  status, the product count and the product lines of an order's snapshot,
  the status by age, and the add and delete permissions.
- **The product filters**: the three tri-state flags, the has-discount
  partition, hex colour matching and the multilingual name search.
- **The market serializers**: the review rating and product checks, the
  mean rating, popularity, the three-day "new" window, the name and
  description dictionaries, and the category field.
- **`__str__`** of categories (the walk up the parent chain), products,
  comments and users.
- **Sign-up and sign-in**: the password and confirmation checks, user
  creation and update, and the three sign-in failures.
- **The translation summaries** of the market and banner admins and the
  banner serializers. A translatable object is a class with its translation
  rows and a current language, which the loops change.

Python semantics the rules rely on are spelled out:

- truthiness of strings and `None`;
- `str.strip` over Python's whitespace set;
- `int(x, base)` with its whitespace, sign, `0x` prefix and underscores;
- f-string rendering of `None`;
- `dict.get` defaults.

Times are integers in microseconds and dates are triples, and
both are passed in as parameters.

## Model

| member | source | states |
|---|---|---|
| CardValidation.DigitsOf | apps/order/serializers.py:48-49 | one digit value per character, in order |
| CardValidation.DoubledDigits | apps/order/serializers.py:55-56 | the digit sum of `2*d` is `2*d` below 5 and `2*d-9` from 5 on, so at most 9 |
| CardValidation.LuhnSplit | apps/order/serializers.py:50-56 | the sum over `digits[-1::-2]` plus the doubled-digit sums over `digits[-2::-2]` is the Luhn sum |
| CardValidation.LuhnCheck | apps/order/serializers.py:46-57 | the loop accepts exactly the numbers whose Luhn sum is a multiple of 10 |
| CardValidation.LuhnSumUpdate | apps/order/serializers.py:46-57 | changing one digit changes the Luhn sum by the change of that position's contribution |
| CardValidation.WeightInjective | apps/order/serializers.py:50-56 | two different digits contribute differently at any position, each at most 9 |
| CardValidation.SingleDigitError | apps/order/serializers.py:46-57 | replacing any one digit of a Luhn-valid number by another digit makes it invalid |
| CardValidation.NoMultipleOfTenNearby | apps/order/serializers.py:57 | a nonzero change of at most 9 moves a multiple of 10 off one |
| CardValidation.ValidateCardNumber | apps/order/serializers.py:17-32 | accepted iff the space-free value has 16 characters, all digits, and passes Luhn; the result is that value and holds no space; the errors come in the order length, digits, Luhn |
| CardValidation.MistypedDigitRejected | apps/order/serializers.py:17-32 | an accepted number with one digit mistyped as another digit is refused with the Luhn error |
| CardValidation.ValidateExpirationDate | apps/order/serializers.py:34-38 | accepted, unchanged, iff strictly after today, else the expiry error |
| CardValidation.ExpiringTodayRejected | apps/order/serializers.py:36-37 | a card expiring today is refused |
| CardValidation.ValidateCardHolder | apps/order/serializers.py:40-44 | accepted iff the trimmed name has at least two characters; the result is the trimmed name |
| CardValidation.CleanCharField | apps/order/serializers.py:9 | a missing field is required; otherwise accepted iff the trimmed value is non-empty, within the maximum length and free of NUL; the result is the trimmed value |
| CardValidation.NumberField | apps/order/serializers.py:9 | accepted iff the `CharField` cleaning accepts the input and `validate_card_number` accepts the trimmed input; an accepted number is that input with its spaces removed; a cleaning error is reported as it is, else the validator's single message |
| CardValidation.HolderField | apps/order/serializers.py:40-44 | accepted iff the `CharField` cleaning accepts the input and the trimmed input has at least two characters; an accepted holder is the trimmed input; a cleaning error is reported as it is, else the holder message |
| CardValidation.ExpiryField | apps/order/serializers.py:10 | accepted iff a date was given and it is after today; the result is that date |
| CardValidation.ValidateCard | apps/order/serializers.py:8-44 | valid iff all three fields are; otherwise the error map names exactly the failing fields, and no others |
| CardValidation.ErrorsOf | apps/order/serializers.py:8-44 | the errors of exactly the failing fields, each under its own field name |
| CardValidation.ValidNumberShape | apps/order/serializers.py:20-32 | a validated number has 16 digits, passes Luhn, holds no space, and is the trimmed input with the spaces removed |
| CardStore.CardsWith | apps/order/views.py:34-37 | the cards of that user with that number, and only those |
| CardStore.CardTable.HandlePost | apps/order/views.py:30-55 | the response and the new table are those of the view as written, `PostAsWritten`, on the old table: lookup under the space-free, untrimmed key |
| CardStore.ConflictIffHeld | apps/order/views.py:33-43 | for any lookup key, so both as written and corrected: 409 exactly when the user already holds a card under the key; the table is then unchanged |
| CardStore.OnlyOwnCardsMatter | apps/order/views.py:34-37 | for any lookup key: other users' cards never change the response |
| CardStore.FailuresChangeNothing | apps/order/views.py:45-55 | as written and corrected: 400 and 500 leave the table unchanged; 500 comes exactly from a non-string number |
| CardStore.CreatedAddsOne | apps/order/serializers.py:59-62 | for any lookup key: on 201 exactly one card is appended, owned by the requester, its number the trimmed input without spaces, 16 digits passing Luhn |
| CardStore.PostKeepsUnique | apps/order/views.py:30-55 | with the normalised lookup key, no user ever holds two cards with the same number |
| CardStore.AsWrittenAgrees | apps/order/views.py:33 | when the only whitespace in the number is the plain space, the view as written behaves like the normalised one |
| CardStore.TrailingWhitespaceKeys | apps/order/views.py:33 | a valid number followed by a tab or newline keeps it in the lookup key, while the serializer accepts the trimmed number |
| CardStore.TrailingWhitespaceDuplicates | apps/order/views.py:30-55 | the view as written stores a held number a second time when it is posted with trailing whitespace other than a space |
| OrderAdmin.CardNumberMasked | apps/order/admin.py:35-38 | `"**** **** **** "` and the last four characters for four or more, else the full mask; always 19 characters |
| OrderAdmin.MaskRevealsOnlyLastFour | apps/order/admin.py:36-38 | numbers ending in the same four characters are masked alike |
| OrderAdmin.MaskShowsLastFour | apps/order/admin.py:36-38 | every shown character other than `*` and space is one of the last four, at its position |
| OrderAdmin.IsExpired | apps/order/admin.py:41-50 | invalid format iff missing or not 4 characters; raises iff `int()` refuses either half; expired iff `YY` is before this year mod 100, or equal with `MM` before this month |
| OrderAdmin.ExpiryOfDigits | apps/order/admin.py:44-50 | for four ASCII digits: expired iff `YY` is earlier, or the same with `MM` earlier; never raises; this month is still active |
| OrderAdmin.ProductsCount | apps/order/admin.py:84-87 | the number of entries, 0 for a NULL snapshot |
| OrderAdmin.ViewOf | apps/order/admin.py:96-99 | the defaults `N/A`, `Неизвестный продукт`, `1` and `0` for missing keys; a given name is shown as given |
| OrderAdmin.MissingIdRejected | apps/order/admin.py:96-101 | an entry without an id looks the product up under `N/A`, which the integer key refuses |
| OrderAdmin.NullOrBoolIdShown | apps/order/admin.py:96-107 | a `null` or boolean id does not raise (an `IS NULL` lookup, or `int(True)`), and the line shows it as `None`, `True` or `False` |
| OrderAdmin.TextIdRejected | apps/order/admin.py:96-101 | a string id raises iff `int()` refuses it; a non-empty run of ASCII digits never does |
| OrderAdmin.ProductsDisplay | apps/order/admin.py:90-111 | "no products" iff the snapshot is NULL or empty; the lookup raises iff some entry's id is a string that `int()` refuses (a missing id is `N/A`; a `null`, number or boolean id does not raise); otherwise one line per entry, in order, each that entry's view |
| OrderAdmin.StatusDisplay | apps/order/admin.py:114-125 | new under an hour old, processing from an hour up to a day, completed from a day on |
| OrderAdmin.StatusMonotone | apps/order/admin.py:119-125 | an older order never shows an earlier status |
| OrderAdmin.HasAddPermission | apps/order/admin.py:135-137 | orders are never added through the admin |
| OrderAdmin.HasDeletePermission | apps/order/admin.py:139-141 | orders are never deleted through the admin |
| ProductFilters.FilterFlag | apps/market/filters.py:67-89 | `True` keeps exactly the products whose flag is true, `False` those whose flag is false, no value keeps everything; no repetitions arise |
| ProductFilters.FlagFiltersDisjoint | apps/market/filters.py:67-89 | no product is kept by both `True` and `False`; a NULL flag is kept by neither |
| ProductFilters.FilterHasDiscount | apps/market/filters.py:172-178 | `True` keeps exactly a positive discount price, `False` a NULL or zero one, no value everything |
| ProductFilters.DiscountFiltersDisjoint | apps/market/filters.py:172-178 | the two discount filters are disjoint; a negative discount is kept by neither |
| ProductFilters.MatchingColor | apps/market/filters.py:145 | exactly the products with a colour containing the code, ignoring case |
| ProductFilters.FilterColor | apps/market/filters.py:128-156 | an empty value keeps everything; after the leading `#`s, any length but 6 and 8 keeps nothing; a 6-character code `int(code, 16)` accepts, or the first six characters of an 8-character one, gives exactly the products with a matching colour; one it refuses keeps nothing |
| ProductFilters.SignedCodeMatches | apps/market/filters.py:135-142 | `int('+abcde', 16)` accepts the code, so `+abcde` is matched as it stands although it is no hex colour |
| ProductFilters.HexCodeMatches | apps/market/filters.py:137-145 | six hex digits keep exactly the products with a matching colour |
| ProductFilters.LeadingHashesIgnored | apps/market/filters.py:134 | any number of leading `#`s is ignored |
| ProductFilters.AlphaIgnored | apps/market/filters.py:147-153 | an 8-character code filters as its first six characters |
| ProductFilters.BadHexKeepsNothing | apps/market/filters.py:140-144 | a 6-character code that `int(code, 16)` refuses keeps nothing |
| ProductFilters.MatchesAnySnoc | apps/market/filters.py:118-124 | each or-assignment to `search_q` adds that language's condition as one more disjunct |
| ProductFilters.FilterSearch | apps/market/filters.py:113-126 | an empty value keeps everything; otherwise exactly the products whose name in one of the five languages contains the value, ignoring case, without repetitions |
| Text.HexDigitsParse | apps/market/filters.py:140 | `int(s, 16)` accepts a non-empty string of hex digits |
| Text.TwoDigitsParse | apps/order/admin.py:44-45 | `int(s)` of two ASCII digits is their decimal value |
| MarketSerializers.TotalRating | apps/market/serializers.py:170-175 | 0 without comments; raises exactly when some rating is NULL |
| MarketSerializers.TotalRatingBounds | apps/market/serializers.py:170-175 | the mean lies between any lower and upper bound of the ratings |
| MarketSerializers.IsPopulars | apps/market/serializers.py:113-118 | false without comments; raises exactly when a rating is NULL; otherwise whether the mean exceeds 4.5 |
| MarketSerializers.PopularIffSum | apps/market/serializers.py:113-118 | popular exactly when twice the rating sum exceeds nine times the number of comments |
| MarketSerializers.RatioAbove | apps/market/serializers.py:117 | a mean above 4.5 is the same as `2*sum > 9*count` |
| MarketSerializers.ValidateReviewRating | apps/market/serializers.py:192-196 | as written: a `null` rating raises; a given one is accepted, unchanged, iff between 1 and 5, else refused with the rating message |
| MarketSerializers.NullRatingRaises | apps/market/serializers.py:192-196 | a comment posted with a `null` rating makes the validator raise, while ratings 1 to 5 are accepted |
| MarketSerializers.ValidateOptionalRating | apps/market/models.py:105 | the corrected validator never raises: it accepts a `null` rating, which the nullable column allows, and a given one iff between 1 and 5 |
| MarketSerializers.OptionalRatingAgrees | apps/market/serializers.py:192-196 | the corrected validator agrees with the one as written on every given rating and differs only on `null` |
| MarketSerializers.ValidateProduct | apps/market/serializers.py:184-190 | accepted iff given and stored; "required" and "does not exist" otherwise |
| MarketSerializers.IsNews | apps/market/serializers.py:107-111 | new iff created at most three days before now |
| MarketSerializers.IsNewsWindow | apps/market/serializers.py:107-111 | exactly three days old is new, a moment older is not; a younger product is new when an older one is |
| MarketSerializers.TranslatedName | apps/market/serializers.py:127-142 | the dictionary of truthy names by language; the rows are unchanged and the language is set back to `ru` |
| MarketSerializers.TranslatedDescription | apps/market/serializers.py:144-159 | the dictionary of truthy descriptions by language; the language is set back to `ru` |
| MarketSerializers.TranslatedNameKeys | apps/market/serializers.py:127-137 | a key is listed iff it is one of the five languages with a non-empty name, and maps to that name |
| MarketSerializers.GetCategory | apps/market/serializers.py:120-125 | the placeholder without a category; otherwise its id, name dictionary and parent name, or the exception of a missing parent; the category's translation rows are unchanged |
| Catalog.Path | apps/market/models.py:19-23 | the chain of ancestors is a chain ending at the category |
| Catalog.Label | apps/market/models.py:18 | the name in any language, or `Без названия`; never empty |
| Catalog.LabelsOf | apps/market/models.py:18-21 | one label per element of the chain, in order |
| Catalog.CategoryStr | apps/market/models.py:17-24 | the loop yields the labels of the chain joined by `" / "`, root first |
| Catalog.NameAlongChain | apps/market/models.py:19-23 | each step up the parent chain puts the parent's label and `" / "` in front |
| Catalog.TopLevelName | apps/market/models.py:18 | a top-level category is named by its own label |
| Catalog.ChildName | apps/market/models.py:21-22 | a subcategory is named by its parent's name, `" / "`, and its own label |
| Catalog.ChainsAgree | apps/market/models.py:20-23 | the chain found by walking the parents is the only one |
| Catalog.SlashCountIsDepth | apps/market/models.py:22 | when no label contains `/`, the name holds one `/` per ancestor |
| Catalog.ProductStr | apps/market/models.py:63-64 | the name in any language, or `Без названия` |
| Catalog.NamelessProductPrintsNone | apps/market/models.py:108-109 | a comment on a product without a name prints it as `None` |
| Catalog.CommentStr | apps/market/models.py:108-109 | `Comment by <author or Unknown User> on <the product as it prints itself>` |
| Catalog.CommentStrAgrees | apps/market/models.py:108-109 | the line as written and the corrected one agree when the product has a name |
| Users.OrEmpty | apps/accounts/models.py:32-35 | `None` reads as the empty string |
| Users.DisplayName | apps/accounts/models.py:31-44 | the stripped full name when either part is non-empty, else the username, else the email, else `User <pk>` |
| Users.NameIgnoresAccount | apps/accounts/models.py:37-38 | once a name is set, the username and email play no part |
| Users.FirstNameOnly | apps/accounts/models.py:38 | a first name alone is shown without the trailing space |
| Users.EmptyOnlyFromBlankName | apps/accounts/models.py:39-44 | only a name that is all whitespace gives an empty string |
| Users.UnsavedAnonymous | apps/accounts/models.py:44 | an unsaved user with nothing set prints as `User None` |
| Accounts.TextOf | apps/accounts/serializers.py:28-29 | `data.get(key)` is a string exactly when the key holds one |
| Accounts.ValidateSignUp | apps/accounts/serializers.py:27-39 | valid iff neither is truthy, or both are and agree; the data comes back unchanged; each other case gives its own field and message |
| Accounts.CreateUser | apps/accounts/serializers.py:41-56 | created iff a truthy password and an email are given; `password_confirm` and `email` are not passed on as fields, all other keys are, unchanged |
| Accounts.ValidWithoutPasswordNotCreated | apps/accounts/serializers.py:32-46 | data without either password passes validation, yet creating a user from it fails on the password |
| Accounts.Account.SetPassword | apps/accounts/serializers.py:65-66 | the password is replaced and the other fields stay |
| Accounts.Account.Update | apps/accounts/serializers.py:58-74 | the fields become the old ones overridden by the given ones minus the two password fields; the password changes only when it is truthy |
| Accounts.UpdateKeeps | apps/accounts/serializers.py:59-63 | `password_confirm`, and any field not given, keep their old values |
| Accounts.FirstWithEmail | apps/accounts/serializers.py:90 | the first user with that email, or none when no user has it |
| Accounts.SignIn | apps/accounts/serializers.py:85-86 | an empty identifier or password fails before any lookup |
| Accounts.SignInOutcomes | apps/accounts/serializers.py:81-100 | "not found" iff both are given and no user has the email; "wrong password" iff the first user with it has another password; success returns exactly that user |
| Accounts.SignInFindsOwner | apps/accounts/serializers.py:90-100 | with unique emails, the right credentials sign in the user who owns them |
| Translations.ReadIn | apps/banner/admin.py:33 | the read raises iff there is no row for the language |
| Translations.BlankIsTruthy | apps/banner/admin.py:47 | a whitespace-only value is truthy but fails the strip test |
| Translations.AnyLanguage | apps/banner/admin.py:35 | the current language's value when it has a row, `None` when no language has one |
| Translations.FirstRow | apps/banner/admin.py:35 | any value found is that of a language with a row |
| Translations.OrDefault | apps/banner/admin.py:33 | `value or default` |
| Translations.TruthyMap | apps/banner/serializers.py:15-25 | keys are exactly the languages whose value is truthy, each mapping to its value |
| Translations.TruthyMapSnoc | apps/banner/serializers.py:17-25 | visiting one more language adds its value exactly when truthy |
| Translations.Completed | apps/banner/admin.py:41-50 | at most `n` labels, each one of the first `n` |
| Translations.CompletedMember | apps/banner/admin.py:42-48 | a label is listed iff its language passes the test |
| Translations.CompletedStricter | apps/banner/admin.py:47 | the strip test never lists more languages than truthiness |
| Translations.TranslatableObject.SetCurrentLanguage | apps/banner/admin.py:45 | only the current language changes |
| Translations.TranslationsOf | apps/banner/serializers.py:15-30 | the visit builds the truthy dictionary; the rows are unchanged and the language ends at `ru` |
| Translations.CompletedLanguages | apps/banner/admin.py:41-50 | the loop lists the labels that pass, in order; the language ends at `ko` |
| Translations.StatusTextShape | apps/banner/admin.py:51 | the status is the count as one digit, `/5`, then the labels in brackets when there are any |
| BannerAdmin.RussianTitleOf | apps/banner/admin.py:29-35 | with a Russian row, its title or the placeholder; with none, the title in any language or the placeholder |
| BannerAdmin.RussianTitle | apps/banner/admin.py:29-35 | the shown title is that of `RussianTitleOf`, and the object is left in `ru`; the partner, advertisement and blog admins repeat it at lines 91-99, 153-161 and 215-223 |
| BannerAdmin.TranslationStatus | apps/banner/admin.py:39-51 | the status of the languages whose title is non-blank; the object is left in `ko`; the other three admins repeat it at lines 101-113, 163-175 and 225-237 |
| BannerAdmin.StatusCounts | apps/banner/admin.py:46-48 | a language is listed iff its title is present and not only whitespace |
| BannerSerializers.TranslatedTitle | apps/banner/serializers.py:15-30 | the truthy title dictionary of all four serializers; the language is set back to `ru` |
| BannerSerializers.TranslatedDescription | apps/banner/serializers.py:32-47 | the truthy description dictionary; the language is set back to `ru` |
| BannerSerializers.TranslatedContent | apps/banner/serializers.py:164-179 | the truthy content dictionary of the blog serializer; the language is set back to `ru` |
| BannerSerializers.BlankTitleListed | apps/banner/serializers.py:22 | a whitespace-only title is in the dictionary although the admin status does not count it |
| BannerSerializers.MapsIndependent | apps/banner/serializers.py:15-179 | changing one field leaves every other field's dictionary as it was |
| MarketAdmin.Entries | apps/market/admin.py:43-51 | every entry is `LANG: name` for a language with a truthy name |
| MarketAdmin.AllTranslations | apps/market/admin.py:41-52 | the loop yields the entries joined by a vertical bar between spaces, or "Нет переводов"; the object is left in `ko` |
| MarketAdmin.EntryInjective | apps/market/admin.py:48 | entries of different languages or names differ |
| MarketAdmin.EntryListed | apps/market/admin.py:43-51 | `LANG: x` is listed iff `x` is that language's truthy name |
| MarketAdmin.NoTranslationsIff | apps/market/admin.py:52 | "Нет переводов" iff no language has a truthy name |
| MarketAdmin.ProductTranslationStatus | apps/market/admin.py:213-224 | the status of the languages with a truthy name; the object is left in `ko` |
| MarketAdmin.ProductStatusCounts | apps/market/admin.py:216-223 | a language is counted iff its name is non-empty |
| MarketAdmin.TranslatedName | apps/market/admin.py:60-61 | the name in any language, or "Безымянный" |
| MarketAdmin.IdsMembers | apps/market/admin.py:56-58 | the queryset holds every category |
| MarketAdmin.TopLevelQueryset | apps/market/admin.py:56-58 | exactly the categories without a parent |
| MarketAdmin.SubcategoryQueryset | apps/market/admin.py:108-110 | exactly the categories whose parent has no parent |
| MarketAdmin.LevelsByDepth | apps/market/admin.py:56-58 | the top-level admin lists exactly depth 0, the subcategory admin exactly depth 1 |
| MarketAdmin.ParentLookups | apps/market/admin.py:14-17 | one option per top-level category, in order, labelled with its translated name |
| MarketAdmin.ParentLookupsCover | apps/market/admin.py:14-17 | every top-level category is offered |
| MarketAdmin.ParentFilter | apps/market/admin.py:19-22 | with a value, exactly the categories under that parent; with none, everything |
| MarketAdmin.FilterBySubcategoryParent | apps/market/admin.py:19-22 | in the subcategory admin a chosen top-level category lists exactly its children |
| MarketAdmin.ParentChoices | apps/market/admin.py:117-120 | a subcategory's parent is chosen among exactly the top-level categories |
| MarketAdmin.ChildrenOf | apps/market/admin.py:249 | the children of a parent, in increasing id order |
| MarketAdmin.ByParent | apps/market/admin.py:249 | the categories with a parent below `n`, ordered by parent id, then id |
| MarketAdmin.ProductCategoryChoices | apps/market/admin.py:246-250 | exactly the categories with a parent, ordered by parent id, then id |
| MarketAdmin.FormFields | apps/market/admin.py:65-69 | `parent` is dropped for a new category or one without a parent; the other fields stay |

## Left out

- Checkout, payment, receipts and stock are not part of this model: the order model is commented out and the order view only stores cards.
- HTTP handling, routing, pagination, permissions classes and the response bodies are not modelled. A 201 returns the stored card rather than its serialized form.
- The ORM is not modelled. Querysets are sequences of records filtered by predicates, and `distinct()` is stated as "no repetitions". Category ids are positions in the category table.
- parler's translation storage, and its fallback languages, are not modelled. `safe_translation_getter(any_language=True)` falls back to the five languages in the fixed order.
- Password hashing is not modelled. `set_password` stores the raw value, and `check_password` compares with it. JWT issuance is left out.
- `full_clean` and `save` in `SignUpSerializer.update` are left out. They depend on model field validators that are not part of this model.
- Accounts.Account.Update: `dict` iteration order is not modelled, because the final state does not depend on it.
- The REST framework's own checks on the sign-up, sign-in and comment fields are left out: required, the `IntegerField` range, `null` on non-nullable fields, and the `PrimaryKeyRelatedField` check that the comment's product exists. That last check refuses a `null` or unknown product with its own messages before `validate_product` runs, so the two messages ValidateProduct states are not reached through the API. The nullable `review_rating` does reach its validator as `None`; ValidateReviewRating models that. The `date` parser is abstracted to "missing, malformed or a date".
- `filter_rating` (a float `Avg` annotation) and the ordering filter are left out. Prices appear only through comparisons with 0.
- MarketSerializers.TotalRating: the mean is an exact rational, not a float.
- `get_comment_count` and `get_comment_and_review` are left out; they are plain ORM counts and nested serializers. `ProductImage.__str__` and `ProductColor.__str__` are left out too.
- HTML, thumbnails and `format_html` are not modelled. ProductsDisplay gives the items of each line, and `LineText` gives its text without markup. Of the product lookup only its `ValueError` is modelled; the thumbnail it finds is not.
- OrderAdmin.ProductsDisplay: snapshot values are `null`, strings, numbers and booleans; a number is kept as the text it is shown as, and every number is taken to convert under `int()`. The literals `NaN` and `Infinity`, which Python's JSON decoder accepts and `int()` refuses, and lists or objects as values, are not modelled.
- The clock is a parameter: `now` in microseconds, `today` a date.
- CardValidation.ValidateCardNumber: `isdigit` is taken as ASCII `0`-`9`. Python also accepts other Unicode digits.
- OrderAdmin.IsExpired: `int()` is modelled on ASCII digits only, so a value such as `１２３４` in full-width digits, which Python parses, is shown as raising. The same holds for `int(code, 16)` in FilterColor.
- ProductFilters.FilterSearch: `icontains` is modelled with ASCII case folding, as SQLite's `LIKE` compares. On PostgreSQL, `UPPER` also folds Cyrillic, so `крем` would find `Крем` there; the model does not promise that. The same folding is used by MatchingColor.
- CardValidation.FieldInput: a field is missing or a string. A card holder sent as JSON `null`, which the REST framework refuses with "This field may not be null.", or as a number, which `CharField` accepts as its text, is not modelled.
- Translations.TruthyMap: the translation dictionaries are Dafny maps, which have no order. The JSON responses list the keys in the order `ru`, `en`, `uz`, `kk`, `ko`; the model does not state that order.
- OrderAdmin.IsExpired models the `MMYY` string rule as written. The migration declares the column as a date, which this rule does not fit.
- MarketAdmin.ParentFilter: the filter value is an optional id. A non-numeric query value is not modelled.
- Catalog.CategoryStr requires an acyclic parent relation. On a cycle the source loops forever.
- MarketSerializers.GetCategory assumes the parent is a separate instance from the category.
- MarketSerializers.GetCategory: the `created_at` field of the subcategory data is not modelled; its clock value is not part of this model.
- Catalog.SlashCountIsDepth counts `/` characters, not `" / "` substrings. A substring count is not the depth when names end in `" /"`.
- The `CustomUserDetailSerializer` and `PasswordUpdateSerializer` updates are not part of this model.

## Findings

| source | as written | input that shows it | evidently intended | confidence | as-written member | corrected member |
|---|---|---|---|---|---|---|
| apps/order/views.py:33 | the duplicate lookup key is the raw number with spaces removed, but the stored number is that value trimmed first by the serializer's `CharField` | a user holding `4111111111111111` posts `4111111111111111\n`: the lookup misses, and the number is stored a second time | one user never holds the same number twice | not executed | CardStore.TrailingWhitespaceDuplicates | CardStore.PostKeepsUnique |
| apps/market/models.py:109 | the product part is `safe_translation_getter(...)` with no fallback, since the `'Без названия'` branch only handles a missing product | a comment on a product with no name in any language prints `Comment by X on None` | the product is named as it names itself, `Без названия` when nameless | not executed | Catalog.NamelessProductPrintsNone | Catalog.CommentStr |
| apps/market/serializers.py:194 | `value < 1 or value > 5` is evaluated on the value as it arrives, and the nullable rating field (apps/market/models.py:105) hands a JSON `null` on as `None` | a comment posted with `"review_rating": null`: `None < 1` raises `TypeError`, and the request fails with a server error instead of storing a NULL rating | a missing rating is accepted as NULL, as the column allows; a given one must be between 1 and 5 | not executed | MarketSerializers.NullRatingRaises | MarketSerializers.ValidateOptionalRating |
