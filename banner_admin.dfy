/** The list columns shared by the banner, partner, advertisement and blog
    admins, which define them identically: the Russian title and the
    translation status. */
module BannerAdmin {
  import opened Common
  import opened Text
  import opened Translations

  /** What `russian_title` shows for an object with translation rows `t`:
      with a Russian row, its title or the placeholder; without one the read
      raises, and the title of any language is shown instead, or the placeholder. */
  function RussianTitleOf(t: Table): (r: string)
    ensures "ru" in t && Truthy(ReadIn(t, "ru", Title).v) ==> r == t["ru"][Title]
    ensures "ru" in t && !Truthy(ReadIn(t, "ru", Title).v) ==> r == Untitled
    ensures "ru" !in t ==> r == OrDefault(FirstRow(t, Title, Languages), Untitled)
  {
    var value := ReadIn(t, "ru", Title);
    if value.Value? then OrDefault(value.v, Untitled)
    else OrDefault(AnyLanguage(t, "ru", Title), Untitled)
  }

  /** `russian_title`: switches the object to `ru` and reads the title. */
  method RussianTitle(obj: TranslatableObject) returns (r: string)
    modifies obj
    ensures r == RussianTitleOf(old(obj.table))
    ensures obj.table == old(obj.table) && obj.current == "ru"
  {
    obj.SetCurrentLanguage("ru");
    var value := obj.Read(Title);
    if value.Value? {
      r := OrDefault(value.v, Untitled);
    } else {
      r := OrDefault(obj.SafeTranslation(Title), Untitled);
    }
  }

  /** `get_translation_status`: a language counts when its title is present
      and not only whitespace. The object is left in `ko`. */
  method TranslationStatus(obj: TranslatableObject) returns (s: string)
    modifies obj
    ensures s == StatusText(Completed(old(obj.table), Title, IsNonBlank, |Languages|))
    ensures obj.table == old(obj.table) && obj.current == "ko"
  {
    var completed := CompletedLanguages(obj, Title, IsNonBlank);
    s := StatusText(completed);
  }

  /** A language is listed in the status exactly when its title is non-blank. */
  lemma StatusCounts(t: Table, i: nat)
    requires i < |Languages|
    ensures Labels[i] in Completed(t, Title, IsNonBlank, |Languages|) <==>
              Languages[i] in t && Title in t[Languages[i]] && Strip(t[Languages[i]][Title]) != ""
  {
    CompletedMember(t, Title, IsNonBlank, |Languages|, i);
    if Languages[i] in t && Title in t[Languages[i]] && Strip(t[Languages[i]][Title]) != "" {
      assert t[Languages[i]][Title] != "";
    }
  }
}
