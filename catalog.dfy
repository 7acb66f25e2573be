/** How categories, products and comments name themselves (`__str__`).
    The category table is a sequence of rows indexed by id; a row's parent
    is the index of another row. A category is named by its chain of
    ancestors, root first, joined with `" / "`. */
module Catalog {
  import opened Common
  import opened Text
  import opened Translations

  datatype CategoryRow = CategoryRow(parent: Option<nat>, names: Table)

  /** Every parent is a row of the table. */
  predicate WellFormed(db: seq<CategoryRow>) {
    forall i :: 0 <= i < |db| && db[i].parent.Some? ==> db[i].parent.value < |db|
  }

  /** `path` runs from a root down to its last element, each element the
      parent of the next. */
  predicate IsChain(db: seq<CategoryRow>, path: seq<nat>) {
    && |path| >= 1
    && (forall k :: 0 <= k < |path| ==> path[k] < |db|)
    && db[path[0]].parent.None?
    && (forall k :: 1 <= k < |path| ==> db[path[k]].parent == Some(path[k - 1]))
  }

  /** The chain from the root down to `i`, found in at most `fuel` steps up
      the parent links; `None` when the links run longer. */
  function PathOf(db: seq<CategoryRow>, i: nat, fuel: nat): (r: Option<seq<nat>>)
    requires WellFormed(db) && i < |db|
    ensures r.Some? ==> IsChain(db, r.value) && r.value[|r.value| - 1] == i && |r.value| <= fuel + 1
    decreases fuel
  {
    match db[i].parent
    case None => Some([i])
    case Some(p) =>
      if fuel == 0 then None
      else
        match PathOf(db, p, fuel - 1)
        case None => None
        case Some(path) => Some(path + [i])
  }

  /** Following parents from any row reaches a root: the parent relation has no cycle. */
  predicate Acyclic(db: seq<CategoryRow>)
    requires WellFormed(db)
  {
    forall i :: 0 <= i < |db| ==> PathOf(db, i, |db|).Some?
  }

  /** The chain of row `i`, root first. */
  function Path(db: seq<CategoryRow>, i: nat): (path: seq<nat>)
    requires WellFormed(db) && Acyclic(db) && i < |db|
    ensures IsChain(db, path) && path[|path| - 1] == i
  {
    PathOf(db, i, |db|).value
  }

  /** A category's own name as any of its `__str__` steps reads it in
      language `lang`, with the placeholder for a missing name. */
  function Label(row: CategoryRow, lang: string): (r: string)
    ensures r != ""
    ensures Truthy(AnyLanguage(row.names, lang, Name)) ==> r == AnyLanguage(row.names, lang, Name).value
    ensures !Truthy(AnyLanguage(row.names, lang, Name)) ==> r == Untitled
  {
    OrDefault(AnyLanguage(row.names, lang, Name), Untitled)
  }

  /** The labels along `path`. */
  function LabelsOf(db: seq<CategoryRow>, path: seq<nat>, lang: string): (r: seq<string>)
    requires forall k :: 0 <= k < |path| ==> path[k] < |db|
    ensures |r| == |path| && forall k :: 0 <= k < |path| ==> r[k] == Label(db[path[k]], lang)
  {
    seq(|path|, k requires 0 <= k < |path| => Label(db[path[k]], lang))
  }

  /** The name of category `i`: the labels of its chain joined with `" / "`, root first. */
  function CategoryName(db: seq<CategoryRow>, i: nat, lang: string): string
    requires WellFormed(db) && Acyclic(db) && i < |db|
  {
    Join(" / ", LabelsOf(db, Path(db, i), lang))
  }

  /** `Category.__str__`: starts from the category's own label and, while
      there is a parent, puts the parent's label and `" / "` in front. */
  method CategoryStr(db: seq<CategoryRow>, i: nat, lang: string) returns (s: string)
    requires WellFormed(db) && Acyclic(db) && i < |db|
    ensures s == CategoryName(db, i, lang)
  {
    s := NameAlongChain(db, i, lang, Path(db, i));
  }

  /** The loop of `Category.__str__`, following the parents of `i` along
      its chain `path`. */
  method NameAlongChain(db: seq<CategoryRow>, i: nat, lang: string, ghost path: seq<nat>) returns (s: string)
    requires IsChain(db, path) && path[|path| - 1] == i
    ensures s == Join(" / ", LabelsOf(db, path, lang))
  {
    ghost var n := |path|;
    ghost var labels := LabelsOf(db, path, lang);
    s := Label(db[i], lang);
    var parent := db[i].parent;
    ghost var k := 1;
    assert labels[n - 1..] == [s];
    ChainParent(db, path, n - 1);
    while parent.Some?
      invariant 1 <= k <= n
      invariant s == Join(" / ", labels[n - k..])
      invariant parent == if k < n then Some(path[n - k - 1]) else None
      decreases n - k
    {
      var p := parent.value;
      JoinFrom(" / ", labels, n - k - 1);
      s := Label(db[p], lang) + " / " + s;
      parent := db[p].parent;
      k := k + 1;
      ChainParent(db, path, n - k);
    }
    assert labels[n - k..] == labels;
  }

  /** Each element of a chain has the one before it as its parent; the
      first has none. */
  lemma ChainParent(db: seq<CategoryRow>, path: seq<nat>, j: nat)
    requires IsChain(db, path) && j < |path|
    ensures db[path[j]].parent == if j > 0 then Some(path[j - 1]) else None
  {
  }

  /** A top-level category is named by its own label alone. */
  lemma TopLevelName(db: seq<CategoryRow>, i: nat, lang: string)
    requires WellFormed(db) && Acyclic(db) && i < |db| && db[i].parent.None?
    ensures CategoryName(db, i, lang) == Label(db[i], lang)
  {
    assert Path(db, i) == [i];
  }

  /** A subcategory is named by its parent's name, `" / "` and its own label. */
  lemma {:induction false} ChildName(db: seq<CategoryRow>, i: nat, lang: string)
    requires WellFormed(db) && Acyclic(db) && i < |db| && db[i].parent.Some?
    ensures CategoryName(db, i, lang) == CategoryName(db, db[i].parent.value, lang) + " / " + Label(db[i], lang)
  {
    var p := db[i].parent.value;
    var path := Path(db, i);
    PathOfChild(db, i);
    var labels := LabelsOf(db, Path(db, p), lang);
    assert LabelsOf(db, path, lang) == labels + [Label(db[i], lang)];
    JoinAppend(" / ", labels, Label(db[i], lang));
  }

  /** The chain of a subcategory is its parent's chain and then itself. */
  lemma PathOfChild(db: seq<CategoryRow>, i: nat)
    requires WellFormed(db) && Acyclic(db) && i < |db| && db[i].parent.Some?
    ensures Path(db, i) == Path(db, db[i].parent.value) + [i]
  {
    var p := db[i].parent.value;
    var path := Path(db, i);
    ChainsAgree(db, path[..|path| - 1], Path(db, p));
  }

  /** Two chains that end at the same row are the same chain. */
  lemma {:induction false} ChainsAgree(db: seq<CategoryRow>, a: seq<nat>, b: seq<nat>)
    requires IsChain(db, a) && IsChain(db, b) && a[|a| - 1] == b[|b| - 1]
    ensures a == b
    decreases |a|
  {
    assert |a| > 1 ==> db[a[|a| - 1]].parent == Some(a[|a| - 2]);
    assert |b| > 1 ==> db[b[|b| - 1]].parent == Some(b[|b| - 2]);
    if |a| > 1 && |b| > 1 {
      ChainsAgree(db, a[..|a| - 1], b[..|b| - 1]);
      assert a == a[..|a| - 1] + [a[|a| - 1]];
      assert b == b[..|b| - 1] + [b[|b| - 1]];
    }
  }

  /** When no label contains a `/`, the name holds exactly one `/` per
      ancestor: its count is the category's depth. */
  lemma SlashCountIsDepth(db: seq<CategoryRow>, i: nat, lang: string)
    requires WellFormed(db) && Acyclic(db) && i < |db|
    requires forall j :: 0 <= j < |db| ==> '/' !in Label(db[j], lang)
    ensures CountChar('/', CategoryName(db, i, lang)) == |Path(db, i)| - 1
  {
    var path := Path(db, i);
    var labels := LabelsOf(db, path, lang);
    forall k | 0 <= k < |labels|
      ensures '/' !in labels[k]
    {
      assert labels[k] == Label(db[path[k]], lang);
    }
    SlashesBetweenParts(labels);
  }

  /** Joining parts free of `/` with `" / "` gives one `/` per separator. */
  lemma SlashesBetweenParts(parts: seq<string>)
    requires parts != [] && forall k :: 0 <= k < |parts| ==> '/' !in parts[k]
    ensures CountChar('/', Join(" / ", parts)) == |parts| - 1
  {
    NoSlashInParts(parts);
    CountCharJoin('/', " / ", parts);
    OneSlashInSeparator();
    assert (|parts| - 1) * CountChar('/', " / ") == |parts| - 1;
  }

  lemma OneSlashInSeparator()
    ensures CountChar('/', " / ") == 1
  {
    assert " / "[1..] == "/ " && "/ "[1..] == " ";
  }

  lemma {:induction false} NoSlashInParts(parts: seq<string>)
    requires forall k :: 0 <= k < |parts| ==> '/' !in parts[k]
    ensures CountInParts('/', parts) == 0
  {
    if parts != [] {
      NoCharNoCount('/', parts[0]);
      NoSlashInParts(parts[1..]);
    }
  }

  lemma {:induction false} NoCharNoCount(c: char, s: string)
    requires c !in s
    ensures CountChar(c, s) == 0
  {
    if s != [] {
      assert c !in s[1..];
      NoCharNoCount(c, s[1..]);
    }
  }

  /** `Product.__str__`: its name in any language, or the placeholder. */
  function ProductStr(names: Table, lang: string): (r: string)
    ensures Truthy(AnyLanguage(names, lang, Name)) ==> r == AnyLanguage(names, lang, Name).value
    ensures !Truthy(AnyLanguage(names, lang, Name)) ==> r == Untitled
  {
    OrDefault(AnyLanguage(names, lang, Name), Untitled)
  }

  /** f-string rendering of an optional string: `None` prints as `"None"`. */
  function Render(v: Option<string>): string {
    if v.Some? then v.value else "None"
  }

  /** The author as a comment names it. */
  function Author(fullName: Option<string>): string {
    OrDefault(fullName, "Unknown User")
  }

  /** `CommentAndReviewProduct.__str__` as written. The product is a
      required relation, so the `'Без названия'` branch is never taken, and
      the product's name is rendered as it is, `None` included. */
  function CommentStrAsWritten(fullName: Option<string>, product: Table, lang: string): string {
    "Comment by " + Author(fullName) + " on " + Render(AnyLanguage(product, lang, Name))
  }

  /** A comment on a product with no name prints the product as `None`. */
  lemma NamelessProductPrintsNone(fullName: Option<string>, lang: string)
    ensures CommentStrAsWritten(fullName, map[], lang) == "Comment by " + Author(fullName) + " on None"
  {
  }

  /** The comment line with the product named as the product names itself. */
  function CommentStr(fullName: Option<string>, product: Table, lang: string): (r: string)
    ensures r == "Comment by " + Author(fullName) + " on " + ProductStr(product, lang)
    ensures !Truthy(AnyLanguage(product, lang, Name)) ==> r == "Comment by " + Author(fullName) + " on " + Untitled
  {
    "Comment by " + Author(fullName) + " on " + OrDefault(AnyLanguage(product, lang, Name), Untitled)
  }

  /** Both agree whenever the product has a name. */
  lemma CommentStrAgrees(fullName: Option<string>, product: Table, lang: string)
    requires Truthy(AnyLanguage(product, lang, Name))
    ensures CommentStrAsWritten(fullName, product, lang) == CommentStr(fullName, product, lang)
  {
  }
}
