/** The translation dictionaries of the banner, partner, advertisement and
    blog serializers. All four serializers build every dictionary by the same
    rule: visit the five languages, keep each truthy value under its
    language code, then set the object's language back to `ru`. */
module BannerSerializers {
  import opened Common
  import opened Text
  import opened Translations

  /** `get_translated_title` of the four serializers. */
  method TranslatedTitle(obj: TranslatableObject) returns (m: map<string, string>)
    modifies obj
    ensures m == TruthyMap(old(obj.table), Title, Languages)
    ensures obj.table == old(obj.table) && obj.current == "ru"
  {
    m := TranslationsOf(obj, Title);
  }

  /** `get_translated_description` of the banner, partner and advertisement serializers. */
  method TranslatedDescription(obj: TranslatableObject) returns (m: map<string, string>)
    modifies obj
    ensures m == TruthyMap(old(obj.table), Description, Languages)
    ensures obj.table == old(obj.table) && obj.current == "ru"
  {
    m := TranslationsOf(obj, Description);
  }

  /** `get_translated_content` of the blog serializer. */
  method TranslatedContent(obj: TranslatableObject) returns (m: map<string, string>)
    modifies obj
    ensures m == TruthyMap(old(obj.table), Content, Languages)
    ensures obj.table == old(obj.table) && obj.current == "ru"
  {
    m := TranslationsOf(obj, Content);
  }

  /** A title made only of whitespace still appears in the title dictionary,
      although the admin's status does not count it (see BannerAdmin). */
  lemma {:induction false} BlankTitleListed(t: Table, i: nat)
    requires i < |Languages| && Languages[i] in t && Title in t[Languages[i]]
    requires t[Languages[i]][Title] != [] && AllSpace(t[Languages[i]][Title])
    ensures Languages[i] in TruthyMap(t, Title, Languages)
    ensures Labels[i] !in Completed(t, Title, IsNonBlank, |Languages|)
  {
    BlankIsTruthy(t[Languages[i]][Title]);
    CompletedMember(t, Title, IsNonBlank, |Languages|, i);
  }

  /** Each dictionary depends on its own field only: changing the value of
      one field in a row leaves the dictionaries of the other fields as they were. */
  lemma {:induction false} MapsIndependent(t: Table, l: string, g: Field, x: string, f: Field, langs: seq<string>)
    requires l in t && f != g
    ensures TruthyMap(t[l := t[l][g := x]], f, langs) == TruthyMap(t, f, langs)
  {
    var t' := t[l := t[l][g := x]];
    if langs != [] {
      MapsIndependent(t, l, g, x, f, langs[..|langs| - 1]);
      assert ReadIn(t', langs[|langs| - 1], f) == ReadIn(t, langs[|langs| - 1], f);
    }
  }
}
