/** The category and product admins: translation summaries, the displayed
    name, the querysets of the two category admins, the parent filter, the
    foreign-key choices and the category form. Category ids are indices
    into the category table of `Catalog`. */
module MarketAdmin {
  import opened Common
  import opened Text
  import opened Translations
  import opened Catalog

  const Nameless := "Безымянный"
  const NoTranslations := "Нет переводов"

  // ---------------------------------------------------------------------
  // Translation summaries

  /** `e` is the entry of language `j`, whose name is truthy. */
  predicate EntryOf(t: Table, j: nat, e: string) {
    j < |Languages| && Passes(IsTruthy, ReadIn(t, Languages[j], Name))
    && e == Labels[j] + ": " + t[Languages[j]][Name]
  }

  /** The language index an entry's two-letter label names; 5 for none. */
  function LabelIndex(e: string): (j: nat)
    ensures j <= |Labels|
  {
    if |e| < 2 then 5
    else
      var l := e[..2];
      if l == "RU" then 0 else if l == "EN" then 1 else if l == "UZ" then 2
      else if l == "KK" then 3 else if l == "KO" then 4 else 5
  }

  lemma LabelIndexOfEntry(j: nat, x: string)
    requires j < |Labels|
    ensures LabelIndex(Labels[j] + ": " + x) == j
  {
    assert (Labels[j] + ": " + x)[..2] == Labels[j];
  }

  /** The `"LANG: name"` entries of the first `n` languages whose name is
      truthy, in the fixed language order. */
  function Entries(t: Table, n: nat): (r: seq<string>)
    requires n <= |Languages|
    ensures |r| <= n
    ensures forall k :: 0 <= k < |r| ==> LabelIndex(r[k]) < n && EntryOf(t, LabelIndex(r[k]), r[k])
  {
    if n == 0 then []
    else
      var r := Entries(t, n - 1);
      var l := Languages[n - 1];
      if Passes(IsTruthy, ReadIn(t, l, Name)) then
        var e := Labels[n - 1] + ": " + t[l][Name];
        LabelIndexOfEntry(n - 1, t[l][Name]);
        assert forall k :: 0 <= k < |r| ==> (r + [e])[k] == r[k];
        assert (r + [e])[|r|] == e;
        r + [e]
      else r
  }

  /** What `get_all_translations` shows for translation rows `t`. */
  function AllTranslationsText(t: Table): string {
    var entries := Entries(t, |Languages|);
    if entries == [] then NoTranslations else Join(" | ", entries)
  }

  /** `get_all_translations` of both category admins: visits the five
      languages and collects an entry per truthy name. The object is left
      in `ko`. */
  method AllTranslations(obj: TranslatableObject) returns (s: string)
    modifies obj
    ensures s == AllTranslationsText(old(obj.table))
    ensures obj.table == old(obj.table) && obj.current == "ko"
  {
    var translations: seq<string> := [];
    for i := 0 to |Languages|
      invariant obj.table == old(obj.table)
      invariant i > 0 ==> obj.current == Languages[i - 1]
      invariant translations == Entries(obj.table, i)
    {
      obj.SetCurrentLanguage(Languages[i]);
      var name := obj.Read(Name);
      if name.Value? && Truthy(name.v) {
        translations := translations + [Labels[i] + ": " + name.v.value];
      }
    }
    s := if translations != [] then Join(" | ", translations) else NoTranslations;
  }

  /** Entries of different languages, or with different names, differ. */
  lemma EntryInjective(i: nat, j: nat, x: string, y: string)
    requires i < |Labels| && j < |Labels|
    requires Labels[i] + ": " + x == Labels[j] + ": " + y
    ensures i == j && x == y
  {
    var e := Labels[i] + ": " + x;
    assert e[..2] == Labels[i] && e[4..] == x;
    assert (Labels[j] + ": " + y)[..2] == Labels[j] && (Labels[j] + ": " + y)[4..] == y;
  }

  /** The entry `"LANG: x"` is listed exactly when `x` is that language's
      truthy name. */
  lemma {:induction false} EntryListed(t: Table, n: nat, i: nat, x: string)
    requires i < n <= |Languages|
    ensures Labels[i] + ": " + x in Entries(t, n) <==>
              Passes(IsTruthy, ReadIn(t, Languages[i], Name)) && x == t[Languages[i]][Name]
  {
    if Labels[i] + ": " + x in Entries(t, n) {
      var k :| 0 <= k < |Entries(t, n)| && Entries(t, n)[k] == Labels[i] + ": " + x;
      var j := LabelIndex(Entries(t, n)[k]);
      EntryInjective(i, j, x, t[Languages[j]][Name]);
    }
    if Passes(IsTruthy, ReadIn(t, Languages[i], Name)) && x == t[Languages[i]][Name] && i < n - 1 {
      EntryListed(t, n - 1, i, x);
    }
  }

  /** "Нет переводов" is shown exactly when no language has a truthy name. */
  lemma NoTranslationsIff(t: Table)
    ensures Entries(t, |Languages|) == [] <==>
              forall i :: 0 <= i < |Languages| ==> !Passes(IsTruthy, ReadIn(t, Languages[i], Name))
  {
    var entries := Entries(t, |Languages|);
    if entries != [] {
      assert EntryOf(t, LabelIndex(entries[0]), entries[0]);
    }
    if exists i :: 0 <= i < |Languages| && Passes(IsTruthy, ReadIn(t, Languages[i], Name)) {
      var i :| 0 <= i < |Languages| && Passes(IsTruthy, ReadIn(t, Languages[i], Name));
      EntryListed(t, |Languages|, i, t[Languages[i]][Name]);
    }
  }

  /** `ProductAdmin.get_translation_status`: a language counts when its name
      is truthy. The object is left in `ko`. */
  method ProductTranslationStatus(obj: TranslatableObject) returns (s: string)
    modifies obj
    ensures s == StatusText(Completed(old(obj.table), Name, IsTruthy, |Languages|))
    ensures obj.table == old(obj.table) && obj.current == "ko"
  {
    var completed := CompletedLanguages(obj, Name, IsTruthy);
    s := StatusText(completed);
  }

  /** A language is counted in the product status exactly when its name is non-empty. */
  lemma ProductStatusCounts(t: Table, i: nat)
    requires i < |Languages|
    ensures Labels[i] in Completed(t, Name, IsTruthy, |Languages|) <==>
              Languages[i] in t && Name in t[Languages[i]] && t[Languages[i]][Name] != ""
  {
    CompletedMember(t, Name, IsTruthy, |Languages|, i);
  }

  /** `translated_name` of the three admins: the name in any language, or "Безымянный". */
  function TranslatedName(t: Table, lang: string): (r: string)
    ensures r != ""
    ensures Truthy(AnyLanguage(t, lang, Name)) ==> r == AnyLanguage(t, lang, Name).value
    ensures !Truthy(AnyLanguage(t, lang, Name)) ==> r == Nameless
  {
    OrDefault(AnyLanguage(t, lang, Name), Nameless)
  }

  // ---------------------------------------------------------------------
  // Category levels

  /** The ids `0 .. n-1`, the category queryset in id order. */
  function Ids(n: nat): (r: seq<nat>)
    ensures |r| == n && forall i :: 0 <= i < n ==> r[i] == i
  {
    seq(n, i requires 0 <= i < n => i)
  }

  /** The queryset holds every category once. */
  lemma IdsMembers(n: nat)
    ensures forall i: nat :: i in Ids(n) <==> i < n
  {
    forall i: nat | i < n
      ensures i in Ids(n)
    {
      assert Ids(n)[i] == i;
    }
  }

  predicate IsTopLevel(db: seq<CategoryRow>, i: nat) {
    i < |db| && db[i].parent.None?
  }

  predicate IsSubcategory(db: seq<CategoryRow>, i: nat) {
    i < |db| && db[i].parent.Some? && IsTopLevel(db, db[i].parent.value)
  }

  /** `TopLevelCategoryAdmin.get_queryset`: the categories without a parent. */
  function TopLevelQueryset(db: seq<CategoryRow>, qs: seq<nat>): (r: seq<nat>)
    ensures forall i: nat :: i in r <==> i in qs && IsTopLevel(db, i)
  {
    Where(qs, (i: nat) => IsTopLevel(db, i))
  }

  /** `SubCategoryAdmin.get_queryset`: the categories whose parent has no parent. */
  function SubcategoryQueryset(db: seq<CategoryRow>, qs: seq<nat>): (r: seq<nat>)
    ensures forall i: nat :: i in r <==> i in qs && IsSubcategory(db, i)
  {
    Where(qs, (i: nat) => IsSubcategory(db, i))
  }

  /** The top-level admin lists exactly the categories at depth 0, the
      subcategory admin exactly those at depth 1; so no category is listed
      by both, and deeper categories by neither. */
  lemma LevelsByDepth(db: seq<CategoryRow>, i: nat)
    requires WellFormed(db) && Acyclic(db) && i < |db|
    ensures i in TopLevelQueryset(db, Ids(|db|)) <==> |Path(db, i)| == 1
    ensures i in SubcategoryQueryset(db, Ids(|db|)) <==> |Path(db, i)| == 2
  {
    assert Ids(|db|)[i] == i;
    if db[i].parent.Some? {
      var p := db[i].parent.value;
      PathOfChild(db, i);
      if db[p].parent.Some? {
        PathOfChild(db, p);
      }
    }
  }

  // ---------------------------------------------------------------------
  // Parent filter and choices

  /** `ParentCategoryFilter.lookups`: one option per top-level category, in
      id order, labelled with its name in any language or "Безымянный". */
  function ParentLookups(db: seq<CategoryRow>, lang: string): (r: seq<(nat, string)>)
    ensures forall k :: 0 <= k < |r| ==> IsTopLevel(db, r[k].0) && r[k].1 == TranslatedName(db[r[k].0].names, lang)
    ensures |r| == |TopLevelQueryset(db, Ids(|db|))|
    ensures forall k :: 0 <= k < |r| ==> r[k].0 == TopLevelQueryset(db, Ids(|db|))[k]
  {
    var top := TopLevelQueryset(db, Ids(|db|));
    IdsMembers(|db|);
    seq(|top|, k requires 0 <= k < |top| => (top[k], TranslatedName(db[top[k]].names, lang)))
  }

  /** Every top-level category is offered. */
  lemma ParentLookupsCover(db: seq<CategoryRow>, lang: string, i: nat)
    requires IsTopLevel(db, i)
    ensures exists k :: 0 <= k < |ParentLookups(db, lang)| && ParentLookups(db, lang)[k].0 == i
  {
    IdsMembers(|db|);
    var top := TopLevelQueryset(db, Ids(|db|));
    var k :| 0 <= k < |top| && top[k] == i;
    assert ParentLookups(db, lang)[k].0 == i;
  }

  /** `ParentCategoryFilter.queryset`: with a chosen parent id, the
      categories under it; with none, everything. */
  function ParentFilter(db: seq<CategoryRow>, qs: seq<nat>, value: Option<nat>): (r: seq<nat>)
    ensures value.None? ==> r == qs
    ensures value.Some? ==> forall i :: i in r <==> i in qs && i < |db| && db[i].parent == value
  {
    if value.None? then qs
    else Where(qs, (i: nat) => i < |db| && db[i].parent == value)
  }

  /** Choosing a top-level category in the subcategory admin lists its own
      subcategories. */
  lemma FilterBySubcategoryParent(db: seq<CategoryRow>, p: nat, i: nat)
    requires IsTopLevel(db, p)
    ensures i in ParentFilter(db, SubcategoryQueryset(db, Ids(|db|)), Some(p)) <==>
              i < |db| && db[i].parent == Some(p)
  {
    if i < |db| {
      assert Ids(|db|)[i] == i;
    }
  }

  /** `SubCategoryAdmin.formfield_for_foreignkey`: a subcategory's parent is
      chosen among the top-level categories. */
  function ParentChoices(db: seq<CategoryRow>): (r: seq<nat>)
    ensures forall i: nat :: i in r <==> IsTopLevel(db, i)
  {
    IdsMembers(|db|);
    TopLevelQueryset(db, Ids(|db|))
  }

  /** Strictly increasing ids. */
  predicate Increasing(s: seq<nat>) {
    forall a, b :: 0 <= a < b < |s| ==> s[a] < s[b]
  }

  lemma {:induction false} WhereIncreasing(s: seq<nat>, keep: nat -> bool)
    requires Increasing(s)
    ensures Increasing(Where(s, keep))
  {
    if s != [] {
      WhereIncreasing(s[1..], keep);
      var rest := Where(s[1..], keep);
      forall k | 0 <= k < |rest|
        ensures s[0] < rest[k]
      {
        assert rest[k] in s[1..];
      }
    }
  }

  /** The categories whose parent is `p`, in id order. */
  function ChildrenOf(db: seq<CategoryRow>, p: nat): (r: seq<nat>)
    ensures forall i: nat :: i in r <==> i < |db| && db[i].parent == Some(p)
    ensures Increasing(r)
  {
    var ids := Ids(|db|);
    IdsMembers(|db|);
    WhereIncreasing(ids, (i: nat) => i < |db| && db[i].parent == Some(p));
    Where(ids, (i: nat) => i < |db| && db[i].parent == Some(p))
  }

  function ParentOf(db: seq<CategoryRow>, i: nat): nat
    requires i < |db| && db[i].parent.Some?
  {
    db[i].parent.value
  }

  /** `x` comes before `y` when ordered by parent id, then id. */
  predicate KeyBefore(db: seq<CategoryRow>, x: nat, y: nat) {
    x < |db| && y < |db| && db[x].parent.Some? && db[y].parent.Some?
    && (ParentOf(db, x) < ParentOf(db, y) || (ParentOf(db, x) == ParentOf(db, y) && x < y))
  }

  predicate OrderedByParent(db: seq<CategoryRow>, r: seq<nat>) {
    forall a, b :: 0 <= a < b < |r| ==> KeyBefore(db, r[a], r[b])
  }

  /** The categories with a parent below `n`, ordered by parent id, then id. */
  function ByParent(db: seq<CategoryRow>, n: nat): (r: seq<nat>)
    ensures forall i: nat :: i in r <==> i < |db| && db[i].parent.Some? && db[i].parent.value < n
    ensures OrderedByParent(db, r)
  {
    if n == 0 then []
    else
      var front := ByParent(db, n - 1);
      var back := ChildrenOf(db, n - 1);
      assert forall k :: 0 <= k < |front| ==> front[k] in front;
      assert forall k :: 0 <= k < |back| ==> back[k] in back;
      front + back
  }

  /** `ProductAdmin.formfield_for_foreignkey`: a product's category is
      chosen among the categories that have a parent, ordered by parent id
      and then id. */
  function ProductCategoryChoices(db: seq<CategoryRow>): (r: seq<nat>)
    requires WellFormed(db)
    ensures forall i: nat :: i in r <==> i < |db| && db[i].parent.Some?
    ensures OrderedByParent(db, r)
  {
    ByParent(db, |db|)
  }

  // ---------------------------------------------------------------------
  // Category form

  /** `TopLevelCategoryAdmin.get_form`: the `parent` field is dropped when
      adding a category (`obj` is `None`) or editing one without a parent;
      all other fields stay. */
  function FormFields(obj: Option<CategoryRow>, fields: set<string>): (r: set<string>)
    ensures obj.None? || obj.value.parent.None? ==> r == fields - {"parent"}
    ensures obj.Some? && obj.value.parent.Some? ==> r == fields
  {
    if obj.None? || obj.value.parent.None? then fields - {"parent"} else fields
  }
}
