/** Translated fields as django-parler presents them to the application.

    A translatable object has one translation row per language it has been
    translated into; a row holds the value of each translated field, and a
    field stored as NULL is absent from the row. Reading a field goes through
    the object's current language: with no row in that language the read
    raises (`TranslationDoesNotExist`), which every caller in the application
    catches. The site works with the five languages `ru`, `en`, `uz`, `kk`,
    `ko`, always visited in that order. */
module Translations {
  import opened Common
  import opened Text

  /** The language codes, in the order every loop of the application visits them. */
  const Languages: seq<string> := ["ru", "en", "uz", "kk", "ko"]
  /** The labels the admin pages print for them, in the same order. */
  const Labels: seq<string> := ["RU", "EN", "UZ", "KK", "KO"]

  datatype Field = Name | Description | Title | Content

  /** One translation row: a missing field is NULL. */
  type Row = map<Field, string>
  /** The rows of one object, by language code. */
  type Table = map<string, Row>

  /** The outcome of reading a translated attribute. */
  datatype Reading = NoTranslation | Value(v: Option<string>)

  /** `obj.<f>` with the current language `lang`. */
  function ReadIn(t: Table, lang: string, f: Field): (r: Reading)
    ensures r.NoTranslation? <==> lang !in t
    ensures r == Value(Some("")) ==> lang in t && f in t[lang]
  {
    if lang !in t then NoTranslation
    else if f in t[lang] then Value(Some(t[lang][f]))
    else Value(None)
  }

  /** The placeholder shown for an object without a name. */
  const Untitled := "Без названия"

  /** `title and title.strip()`: present and not only whitespace. */
  predicate NonBlank(v: Option<string>) {
    v.Some? && v.value != "" && Strip(v.value) != ""
  }

  /** The two tests the application applies to a translation it has read. */
  datatype Check = IsTruthy | IsNonBlank

  /** A read that raised never passes; otherwise the test is applied. */
  predicate Passes(check: Check, r: Reading) {
    r.Value? && (match check
                 case IsTruthy => Truthy(r.v)
                 case IsNonBlank => NonBlank(r.v))
  }

  /** A whitespace-only value is truthy but not non-blank. */
  lemma {:induction false} BlankIsTruthy(s: string)
    requires s != [] && AllSpace(s)
    ensures Truthy(Some(s)) && !NonBlank(Some(s))
  {
    StripUnique(s, s, [], []);
    assert s + [] + [] == s;
  }

  /** The non-blank test is the stricter one. */
  lemma NonBlankImpliesTruthy(r: Reading)
    ensures Passes(IsNonBlank, r) ==> Passes(IsTruthy, r)
  {
  }

  /** `safe_translation_getter(f, any_language=True)`: the value in the
      current language when there is a row for it, even a NULL one; else
      the value in the first of the five languages that has a row; else
      `None`. */
  function AnyLanguage(t: Table, current: string, f: Field): (r: Option<string>)
    ensures current in t ==> r == ReadIn(t, current, f).v
    ensures current !in t && (forall l :: l in Languages ==> l !in t) ==> r == None
  {
    if current in t then ReadIn(t, current, f).v
    else FirstRow(t, f, Languages)
  }

  /** The value of `f` in the first of `langs` that has a row. */
  function FirstRow(t: Table, f: Field, langs: seq<string>): (r: Option<string>)
    ensures r.Some? ==> exists l :: l in langs && l in t && f in t[l] && t[l][f] == r.value
  {
    if langs == [] then None
    else if langs[0] in t then ReadIn(t, langs[0], f).v
    else FirstRow(t, f, langs[1..])
  }

  /** `value or default` for an optional string. */
  function OrDefault(v: Option<string>, default: string): (r: string)
    ensures Truthy(v) ==> r == v.value
    ensures !Truthy(v) ==> r == default
  {
    if Truthy(v) then v.value else default
  }

  /** The dictionary the serializers build: language code to value, for
      each of `langs` whose value of `f` is truthy. */
  function TruthyMap(t: Table, f: Field, langs: seq<string>): (m: map<string, string>)
    ensures forall l :: l in m <==> l in langs && Passes(IsTruthy, ReadIn(t, l, f))
    ensures forall l :: l in m ==> l in t && f in t[l] && m[l] == t[l][f]
  {
    if langs == [] then map[]
    else
      var m := TruthyMap(t, f, langs[..|langs| - 1]);
      var l := langs[|langs| - 1];
      assert langs == langs[..|langs| - 1] + [l];
      if Passes(IsTruthy, ReadIn(t, l, f)) then m[l := t[l][f]] else m
  }

  /** Visiting one more language adds its value when that value is truthy. */
  lemma TruthyMapSnoc(t: Table, f: Field, langs: seq<string>, l: string)
    ensures TruthyMap(t, f, langs + [l]) ==
              if Passes(IsTruthy, ReadIn(t, l, f)) then TruthyMap(t, f, langs)[l := t[l][f]]
              else TruthyMap(t, f, langs)
  {
    assert (langs + [l])[..|langs|] == langs;
  }

  /** The labels of the first `n` languages whose value of `f` passes `check`,
      in the fixed language order. */
  function Completed(t: Table, f: Field, check: Check, n: nat): (r: seq<string>)
    requires n <= |Languages|
    ensures |r| <= n
    ensures forall k :: 0 <= k < |r| ==> r[k] in Labels[..n]
  {
    if n == 0 then []
    else
      var r := Completed(t, f, check, n - 1);
      assert Labels[..n - 1] <= Labels[..n];
      if Passes(check, ReadIn(t, Languages[n - 1], f)) then r + [Labels[n - 1]] else r
  }

  /** A label is listed exactly when its language passes the test. */
  lemma {:induction false} CompletedMember(t: Table, f: Field, check: Check, n: nat, i: nat)
    requires i < n <= |Languages|
    ensures Labels[i] in Completed(t, f, check, n) <==> Passes(check, ReadIn(t, Languages[i], f))
  {
    var r := Completed(t, f, check, n - 1);
    if i < n - 1 {
      CompletedMember(t, f, check, n - 1, i);
      assert Labels[n - 1] != Labels[i];
    } else {
      assert Labels[i] !in Labels[..n - 1];
      assert Labels[i] !in r;
    }
  }

  /** The stricter test never lists more languages. */
  lemma {:induction false} CompletedStricter(t: Table, f: Field, n: nat)
    requires n <= |Languages|
    ensures |Completed(t, f, IsNonBlank, n)| <= |Completed(t, f, IsTruthy, n)|
  {
    if n > 0 {
      CompletedStricter(t, f, n - 1);
      NonBlankImpliesTruthy(ReadIn(t, Languages[n - 1], f));
    }
  }

  /** A translatable model instance: its translation rows and the language
      its translated attributes are currently read in. */
  class TranslatableObject {
    var current: string
    var table: Table

    constructor (t: Table, lang: string)
      ensures table == t && current == lang
    {
      table := t;
      current := lang;
    }

    /** The attribute `f` in the current language. */
    function Read(f: Field): Reading
      reads this
    {
      ReadIn(table, current, f)
    }

    /** `set_current_language(lang)`. */
    method SetCurrentLanguage(lang: string)
      modifies this
      ensures current == lang && table == old(table)
    {
      current := lang;
    }

    /** `safe_translation_getter(f, any_language=True)`. */
    function SafeTranslation(f: Field): Option<string>
      reads this
    {
      AnyLanguage(table, current, f)
    }
  }

  /** A serializer's `get_translated_<f>`: visit the five languages, keep the
      truthy values, then set the language back to `ru`. */
  method TranslationsOf(obj: TranslatableObject, f: Field) returns (m: map<string, string>)
    modifies obj
    ensures m == TruthyMap(old(obj.table), f, Languages)
    ensures obj.table == old(obj.table) && obj.current == "ru"
  {
    m := map[];
    for i := 0 to |Languages|
      invariant obj.table == old(obj.table)
      invariant m == TruthyMap(obj.table, f, Languages[..i])
    {
      obj.SetCurrentLanguage(Languages[i]);
      var value := obj.Read(f);
      assert Languages[..i + 1] == Languages[..i] + [Languages[i]];
      TruthyMapSnoc(obj.table, f, Languages[..i], Languages[i]);
      if value.Value? && Truthy(value.v) {
        m := m[Languages[i] := value.v.value];
      }
    }
    assert Languages[..|Languages|] == Languages;
    obj.SetCurrentLanguage("ru");
  }

  /** An admin's `get_translation_status` loop: the labels of the languages
      whose value of `f` passes `check`. The language is left at the last
      one visited, `ko`. */
  method CompletedLanguages(obj: TranslatableObject, f: Field, check: Check) returns (completed: seq<string>)
    modifies obj
    ensures completed == Completed(old(obj.table), f, check, |Languages|)
    ensures obj.table == old(obj.table) && obj.current == "ko"
  {
    completed := [];
    for i := 0 to |Languages|
      invariant obj.table == old(obj.table)
      invariant i > 0 ==> obj.current == Languages[i - 1]
      invariant completed == Completed(obj.table, f, check, i)
    {
      obj.SetCurrentLanguage(Languages[i]);
      var value := obj.Read(f);
      if Passes(check, value) {
        completed := completed + [Labels[i]];
      }
    }
  }

  /** The status line: `"n/5 (L1, L2, ...)"`, or `"0/5"` when none passed. */
  function StatusText(completed: seq<string>): string {
    if completed == [] then "0/5"
    else NatToString(|completed|) + "/5 (" + Join(", ", completed) + ")"
  }

  /** The status begins with the number of languages that passed, a single
      digit up to 5, then `/5`; the labels follow only when there are some. */
  lemma StatusTextShape(t: Table, f: Field, check: Check)
    ensures var c := Completed(t, f, check, |Languages|);
            StatusText(c) == [DigitChar(|c|)] + "/5"
                             + (if c == [] then "" else " (" + Join(", ", c) + ")")
  {
    var c := Completed(t, f, check, |Languages|);
    if c == [] {
      assert DigitChar(0) == '0';
    }
  }
}
