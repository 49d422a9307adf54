/**
 * The structure validator (scripts/validate-structure.mjs:132-284): the
 * categories read from the mapping file are checked for their required
 * fields and URL-safe, unique slugs (checks 2-4); every mapped article must
 * have its `article.md` (check 5), every directory under `articles/` must be
 * mapped (check 6), every icon must exist (check 7) and every article header
 * must carry a description and no `id` or `title` (checks 8-9).
 *
 * The disk is a snapshot: the mapping file, the listing of `articles/`, the
 * text of each `articles/{slug}/article.md` that exists and the names under
 * `categoryIcons/`.
 */
module ValidateStructure {
  import opened Strings
  import Dedup
  import Seqs
  import Frontmatter
  import MR = MappingReader
  import opened Outcomes

  datatype CategoryField = Name | Slug | Icon | Description
  datatype ArticleField = ArticleSlug | Title | ShortTitle
  datatype ForbiddenField = Id | ForbiddenTitle

  /** One message pushed by `error(...)`. */
  datatype Issue =
    | MappingNotFound
    | CannotReadMapping(reason: string)
    | NoCategories
    | MissingCategoryField(category: string, categoryField: CategoryField)
    | UnsafeCategorySlug(slug: string)
    | DuplicateCategorySlug(slug: string)
    | MissingArticleField(article: string, articleField: ArticleField)
    | UnsafeArticleSlug(slug: string)
    | ArticleNotFound(slug: string)
    | OrphanDirectory(name: string)
    | IconNotFound(categorySlug: Option<string>, icon: string)
    | MissingFrontmatter(slug: string)
    | MissingDescription(slug: string)
    | HasForbiddenField(slug: string, field: ForbiddenField)

  datatype MappingFile = Missing | Unreadable(reason: string) | Present(content: string)
  datatype DirEntry = DirEntry(name: string, isDirectory: bool)

  datatype Snapshot = Snapshot(
    mapping: MappingFile,
    /** The entries of `articles/`, when that directory exists. */
    articlesDir: Option<seq<DirEntry>>,
    /** The text of `articles/{slug}/article.md`, for each slug where that file exists. */
    articleFiles: map<string, string>,
    /** The file names present in `categoryIcons/`. */
    icons: set<string>)

  const Unknown: string := "(unknown)"
  const CategoryFields: seq<CategoryField> := [Name, Slug, Icon, Description]
  const ArticleFields: seq<ArticleField> := [ArticleSlug, Title, ShortTitle]

  /** `cat[field]`: the name is always a string, the other fields may be `undefined`. */
  function FieldOf(cat: MR.CategoryEntry, f: CategoryField): Option<string> {
    match f
    case Name => Some(cat.name)
    case Slug => cat.slug
    case Icon => cat.icon
    case Description => cat.description
  }

  /** `art[field]`: the slug is always a string. */
  function ArticleFieldOf(art: MR.ArticleEntry, f: ArticleField): Option<string> {
    match f
    case ArticleSlug => Some(art.slug)
    case Title => art.title
    case ShortTitle => art.shortTitle
  }

  /** `cat.slug || cat.name || '(unknown)'` */
  function CategoryLabel(cat: MR.CategoryEntry): string {
    if Truthy(cat.slug) then cat.slug.value else if cat.name != "" then cat.name else Unknown
  }

  /** `${catLabel}/${art.slug || '(unknown)'}` */
  function ArticleLabel(catLabel: string, art: MR.ArticleEntry): string {
    catLabel + "/" + (if art.slug != "" then art.slug else Unknown)
  }

  // ---------------------------------------------------------------------
  // Checks 2-4: one category and its article entries

  /** Check 2 for one field: `!cat[field] && cat[field] !== ''` holds only for `undefined`. */
  function FieldIssue(cat: MR.CategoryEntry, owner: string, f: CategoryField): seq<Issue> {
    if FieldOf(cat, f).None? then [MissingCategoryField(owner, f)] else []
  }

  function FieldIssues(cat: MR.CategoryEntry): seq<Issue> {
    Seqs.ConcatMap(CategoryFields, f => FieldIssue(cat, CategoryLabel(cat), f))
  }

  /** Check 4 for a category slug, against the slugs of the categories before it. */
  function SlugIssues(seen: set<string>, cat: MR.CategoryEntry): seq<Issue> {
    if Truthy(cat.slug) then
      (if IsSlug(cat.slug.value) then [] else [UnsafeCategorySlug(cat.slug.value)]) +
      (if cat.slug.value in seen then [DuplicateCategorySlug(cat.slug.value)] else [])
    else []
  }

  /** Check 3 for one field: `!art[field]`, so an empty value is missing too. */
  function ArticleFieldIssue(art: MR.ArticleEntry, owner: string, f: ArticleField): seq<Issue> {
    if Truthy(ArticleFieldOf(art, f)) then [] else [MissingArticleField(owner, f)]
  }

  /** Checks 3 and 4 for one article entry. */
  function ArticleIssues(catLabel: string, art: MR.ArticleEntry): seq<Issue> {
    Seqs.ConcatMap(ArticleFields, f => ArticleFieldIssue(art, ArticleLabel(catLabel, art), f)) +
    (if art.slug != "" && !IsSlug(art.slug) then [UnsafeArticleSlug(art.slug)] else [])
  }

  function CategoryIssues(seen: set<string>, cat: MR.CategoryEntry): seq<Issue> {
    FieldIssues(cat) + SlugIssues(seen, cat) +
    Seqs.ConcatMap(cat.articles, art => ArticleIssues(CategoryLabel(cat), art))
  }

  /** `allSlugs` after the categories `cats`. */
  function SeenSlugs(cats: seq<MR.CategoryEntry>): set<string> {
    if |cats| == 0 then {}
    else
      var cat := cats[|cats| - 1];
      SeenSlugs(cats[..|cats| - 1]) + (if Truthy(cat.slug) then {cat.slug.value} else {})
  }

  /** The messages of checks 2-4 for the categories `cats`. */
  function CategoryErrors(cats: seq<MR.CategoryEntry>): seq<Issue> {
    if |cats| == 0 then []
    else CategoryErrors(cats[..|cats| - 1]) + CategoryIssues(SeenSlugs(cats[..|cats| - 1]), cats[|cats| - 1])
  }

  /** `allArticleSlugs.add(art.slug)` for each entry with a non-empty slug. */
  function AddSlugs(acc: seq<string>, arts: seq<MR.ArticleEntry>): seq<string> {
    if |arts| == 0 then acc
    else
      var art := arts[|arts| - 1];
      var before := AddSlugs(acc, arts[..|arts| - 1]);
      if art.slug != "" then Dedup.AddNew(before, art.slug) else before
  }

  /** `allArticleSlugs`, in insertion order, after the categories `cats`. */
  function ArticleSlugs(cats: seq<MR.CategoryEntry>): seq<string> {
    if |cats| == 0 then [] else AddSlugs(ArticleSlugs(cats[..|cats| - 1]), cats[|cats| - 1].articles)
  }

  // ---------------------------------------------------------------------
  // The loops of checks 2-4

  lemma PrefixSnoc2<T>(s: seq<T>, i: nat)
    requires i < |s|
    ensures s[..i + 1][..i] == s[..i] && s[..i + 1][i] == s[i]
  {
  }

  /** `for (const field of ['name', 'slug', 'icon', 'description'])` */
  method CheckCategoryFields(cat: MR.CategoryEntry, catLabel: string) returns (issues: seq<Issue>)
    requires catLabel == CategoryLabel(cat)
    ensures issues == FieldIssues(cat)
  {
    issues := [];
    for k := 0 to |CategoryFields|
      invariant issues == Seqs.ConcatMap(CategoryFields[..k], f => FieldIssue(cat, catLabel, f))
    {
      Seqs.ConcatMapSnoc(CategoryFields, f => FieldIssue(cat, catLabel, f), k);
      var field := CategoryFields[k];
      if FieldOf(cat, field).None? {
        issues := issues + [MissingCategoryField(catLabel, field)];
      }
    }
    assert CategoryFields[..|CategoryFields|] == CategoryFields;
  }

  /** `for (const field of ['slug', 'title', 'short_title'])` and the slug test of one entry. */
  method CheckArticle(catLabel: string, art: MR.ArticleEntry) returns (issues: seq<Issue>)
    ensures issues == ArticleIssues(catLabel, art)
  {
    var artLabel := catLabel + "/" + (if art.slug != "" then art.slug else Unknown);
    issues := [];
    for k := 0 to |ArticleFields|
      invariant issues == Seqs.ConcatMap(ArticleFields[..k], f => ArticleFieldIssue(art, artLabel, f))
    {
      Seqs.ConcatMapSnoc(ArticleFields, f => ArticleFieldIssue(art, artLabel, f), k);
      var field := ArticleFields[k];
      if !Truthy(ArticleFieldOf(art, field)) {
        issues := issues + [MissingArticleField(artLabel, field)];
      }
    }
    assert ArticleFields[..|ArticleFields|] == ArticleFields;
    if art.slug != "" {
      if !IsSlug(art.slug) {
        issues := issues + [UnsafeArticleSlug(art.slug)];
      }
    }
  }

  lemma AddSlugsSnoc(acc: seq<string>, arts: seq<MR.ArticleEntry>, j: nat)
    requires j < |arts|
    ensures AddSlugs(acc, arts[..j + 1]) ==
      if arts[j].slug != "" then Dedup.AddNew(AddSlugs(acc, arts[..j]), arts[j].slug) else AddSlugs(acc, arts[..j])
  {
    PrefixSnoc2(arts, j);
  }

  /** `for (const art of cat.articles)` */
  method CheckArticles(catLabel: string, arts: seq<MR.ArticleEntry>, slugsIn: seq<string>)
    returns (issues: seq<Issue>, slugs: seq<string>)
    ensures issues == Seqs.ConcatMap(arts, art => ArticleIssues(catLabel, art))
    ensures slugs == AddSlugs(slugsIn, arts)
  {
    issues, slugs := [], slugsIn;
    for j := 0 to |arts|
      invariant issues == Seqs.ConcatMap(arts[..j], art => ArticleIssues(catLabel, art))
      invariant slugs == AddSlugs(slugsIn, arts[..j])
    {
      Seqs.ConcatMapSnoc(arts, art => ArticleIssues(catLabel, art), j);
      AddSlugsSnoc(slugsIn, arts, j);
      var art := arts[j];
      var artIssues := CheckArticle(catLabel, art);
      issues := issues + artIssues;
      if art.slug != "" {
        if art.slug !in slugs {
          slugs := slugs + [art.slug];
        }
      }
    }
    assert arts[..|arts|] == arts;
  }

  /** Check 4 for a category slug, and `allSlugs.add(cat.slug)`. */
  method CheckCategorySlug(cat: MR.CategoryEntry, slugsIn: set<string>) returns (issues: seq<Issue>, slugs: set<string>)
    ensures issues == SlugIssues(slugsIn, cat)
    ensures slugs == slugsIn + (if Truthy(cat.slug) then {cat.slug.value} else {})
  {
    issues, slugs := [], slugsIn;
    if Truthy(cat.slug) {
      if !IsSlug(cat.slug.value) {
        issues := issues + [UnsafeCategorySlug(cat.slug.value)];
      }
      if cat.slug.value in slugs {
        issues := issues + [DuplicateCategorySlug(cat.slug.value)];
      }
      slugs := slugs + {cat.slug.value};
    }
  }

  lemma CategoriesSnoc(cats: seq<MR.CategoryEntry>, i: nat)
    requires i < |cats|
    ensures CategoryErrors(cats[..i + 1]) == CategoryErrors(cats[..i]) + CategoryIssues(SeenSlugs(cats[..i]), cats[i])
    ensures SeenSlugs(cats[..i + 1]) == SeenSlugs(cats[..i]) + (if Truthy(cats[i].slug) then {cats[i].slug.value} else {})
    ensures ArticleSlugs(cats[..i + 1]) == AddSlugs(ArticleSlugs(cats[..i]), cats[i].articles)
  {
    PrefixSnoc2(cats, i);
  }

  /** The category loop (lines 161-203): the messages, `allSlugs` and `allArticleSlugs`. */
  method CheckCategories(categories: seq<MR.CategoryEntry>)
    returns (errors: seq<Issue>, allSlugs: set<string>, allArticleSlugs: seq<string>)
    ensures errors == CategoryErrors(categories)
    ensures allSlugs == SeenSlugs(categories)
    ensures allArticleSlugs == ArticleSlugs(categories)
  {
    errors, allSlugs, allArticleSlugs := [], {}, [];
    for i := 0 to |categories|
      invariant errors == CategoryErrors(categories[..i])
      invariant allSlugs == SeenSlugs(categories[..i])
      invariant allArticleSlugs == ArticleSlugs(categories[..i])
    {
      CategoriesSnoc(categories, i);
      var cat := categories[i];
      var catLabel := if Truthy(cat.slug) then cat.slug.value else if cat.name != "" then cat.name else Unknown;
      var fieldIssues := CheckCategoryFields(cat, catLabel);
      var slugIssues;
      slugIssues, allSlugs := CheckCategorySlug(cat, allSlugs);
      var artIssues;
      artIssues, allArticleSlugs := CheckArticles(catLabel, cat.articles, allArticleSlugs);
      errors := errors + (fieldIssues + slugIssues + artIssues);
    }
    assert categories[..|categories|] == categories;
  }

  // ---------------------------------------------------------------------
  // What checks 2-4 report

  /** The required-field messages of a category: one per `undefined` field, an empty value passes. */
  lemma FieldIssuesIn(cat: MR.CategoryEntry, e: Issue)
    ensures e in FieldIssues(cat) <==>
      e.MissingCategoryField? && e.category == CategoryLabel(cat) && FieldOf(cat, e.categoryField).None?
  {
    var f := (x: CategoryField) => FieldIssue(cat, CategoryLabel(cat), x);
    Seqs.ConcatMapIn(CategoryFields, f, e);
    if e.MissingCategoryField? && e.category == CategoryLabel(cat) && FieldOf(cat, e.categoryField).None? {
      var k := match e.categoryField case Name => 0 case Slug => 1 case Icon => 2 case Description => 3;
      assert CategoryFields[k] == e.categoryField;
      assert e in f(CategoryFields[k]);
    }
  }

  /** The messages of one article entry. */
  lemma ArticleIssuesIn(catLabel: string, art: MR.ArticleEntry, e: Issue)
    ensures e in ArticleIssues(catLabel, art) <==>
      (e.MissingArticleField? && e.article == ArticleLabel(catLabel, art) && !Truthy(ArticleFieldOf(art, e.articleField))) ||
      (e == UnsafeArticleSlug(art.slug) && art.slug != "" && !IsSlug(art.slug))
  {
    var f := (x: ArticleField) => ArticleFieldIssue(art, ArticleLabel(catLabel, art), x);
    Seqs.ConcatMapIn(ArticleFields, f, e);
    if e.MissingArticleField? && e.article == ArticleLabel(catLabel, art) && !Truthy(ArticleFieldOf(art, e.articleField)) {
      var k := match e.articleField case ArticleSlug => 0 case Title => 1 case ShortTitle => 2;
      assert ArticleFields[k] == e.articleField;
      assert e in f(ArticleFields[k]);
    }
  }

  /** `allSlugs` holds exactly the non-empty category slugs. */
  lemma {:induction false} SeenSlugsAre(cats: seq<MR.CategoryEntry>, x: string)
    ensures x in SeenSlugs(cats) <==> exists i :: 0 <= i < |cats| && cats[i].slug == Some(x) && x != ""
  {
    if |cats| > 0 {
      var init := cats[..|cats| - 1];
      SeenSlugsAre(init, x);
      if exists i :: 0 <= i < |init| && init[i].slug == Some(x) && x != "" {
        var i :| 0 <= i < |init| && init[i].slug == Some(x) && x != "";
        assert cats[i] == init[i];
      }
      if exists i :: 0 <= i < |cats| && cats[i].slug == Some(x) && x != "" {
        var i :| 0 <= i < |cats| && cats[i].slug == Some(x) && x != "";
        if i < |init| {
          assert init[i] == cats[i];
        }
      }
    }
  }

  lemma {:induction false} IssueKept(cats: seq<MR.CategoryEntry>, i: nat, n: nat, e: Issue)
    requires i < n <= |cats|
    requires e in CategoryIssues(SeenSlugs(cats[..i]), cats[i])
    ensures e in CategoryErrors(cats[..n])
  {
    CategoriesSnoc(cats, n - 1);
    if i < n - 1 {
      IssueKept(cats, i, n - 1, e);
    }
  }

  lemma {:induction false} IssueSource(cats: seq<MR.CategoryEntry>, n: nat, e: Issue) returns (i: nat)
    requires n <= |cats|
    requires e in CategoryErrors(cats[..n])
    ensures i < n && e in CategoryIssues(SeenSlugs(cats[..i]), cats[i])
  {
    CategoriesSnoc(cats, n - 1);
    if e in CategoryErrors(cats[..n - 1]) {
      i := IssueSource(cats, n - 1, e);
    } else {
      i := n - 1;
    }
  }

  /** A message of checks 2-4 comes from one category, judged against the slugs before it. */
  lemma CategoryErrorsIn(cats: seq<MR.CategoryEntry>, e: Issue)
    ensures e in CategoryErrors(cats) <==>
      exists i :: 0 <= i < |cats| && e in CategoryIssues(SeenSlugs(cats[..i]), cats[i])
  {
    assert cats[..|cats|] == cats;
    if e in CategoryErrors(cats) {
      var i := IssueSource(cats, |cats|, e);
    }
    if exists i :: 0 <= i < |cats| && e in CategoryIssues(SeenSlugs(cats[..i]), cats[i]) {
      var i :| 0 <= i < |cats| && e in CategoryIssues(SeenSlugs(cats[..i]), cats[i]);
      IssueKept(cats, i, |cats|, e);
    }
  }

  /** Slug messages come only from the slug check of a category. */
  lemma SlugIssuesOnly(seen: set<string>, cat: MR.CategoryEntry, e: Issue)
    requires e.UnsafeCategorySlug? || e.DuplicateCategorySlug?
    ensures e in CategoryIssues(seen, cat) <==> e in SlugIssues(seen, cat)
  {
    FieldIssuesIn(cat, e);
    ArticlesPartIn(cat, e);
    forall j | 0 <= j < |cat.articles| ensures e !in ArticleIssues(CategoryLabel(cat), cat.articles[j]) {
      ArticleIssuesIn(CategoryLabel(cat), cat.articles[j], e);
    }
  }

  lemma DuplicateAt(cats: seq<MR.CategoryEntry>, j: nat, x: string)
    requires j < |cats|
    ensures DuplicateCategorySlug(x) in CategoryIssues(SeenSlugs(cats[..j]), cats[j]) <==>
      cats[j].slug == Some(x) && x != "" && exists i :: 0 <= i < j && cats[i].slug == Some(x)
  {
    SlugIssuesOnly(SeenSlugs(cats[..j]), cats[j], DuplicateCategorySlug(x));
    SeenSlugsAre(cats[..j], x);
    if exists i :: 0 <= i < j && cats[i].slug == Some(x) {
      var i :| 0 <= i < j && cats[i].slug == Some(x);
      assert cats[..j][i] == cats[i];
    }
  }

  /** The article part of a category's messages. */
  lemma ArticlesPartIn(cat: MR.CategoryEntry, e: Issue)
    ensures e in Seqs.ConcatMap(cat.articles, art => ArticleIssues(CategoryLabel(cat), art)) <==>
      exists j :: 0 <= j < |cat.articles| && e in ArticleIssues(CategoryLabel(cat), cat.articles[j])
  {
    Seqs.ConcatMapIn(cat.articles, art => ArticleIssues(CategoryLabel(cat), art), e);
  }

  /** A category slug is reported as not URL-safe exactly when some category has that non-empty slug and it fails the slug pattern. */
  lemma UnsafeCategorySlugReported(cats: seq<MR.CategoryEntry>, x: string)
    ensures UnsafeCategorySlug(x) in CategoryErrors(cats) <==>
      exists i :: 0 <= i < |cats| && cats[i].slug == Some(x) && x != "" && !IsSlug(x)
  {
    var e := UnsafeCategorySlug(x);
    CategoryErrorsIn(cats, e);
    forall i | 0 <= i < |cats|
      ensures e in CategoryIssues(SeenSlugs(cats[..i]), cats[i]) <==> cats[i].slug == Some(x) && x != "" && !IsSlug(x)
    {
      UnsafeAt(SeenSlugs(cats[..i]), cats[i], x);
    }
  }

  lemma UnsafeAt(seen: set<string>, cat: MR.CategoryEntry, x: string)
    ensures UnsafeCategorySlug(x) in CategoryIssues(seen, cat) <==> cat.slug == Some(x) && x != "" && !IsSlug(x)
  {
    var e := UnsafeCategorySlug(x);
    SlugIssuesOnly(seen, cat, e);
    if Truthy(cat.slug) {
      var v := cat.slug.value;
      var dup: seq<Issue> := if v in seen then [DuplicateCategorySlug(v)] else [];
      assert e !in dup;
      assert SlugIssues(seen, cat) == (if IsSlug(v) then [] else [UnsafeCategorySlug(v)]) + dup;
    } else {
      assert SlugIssues(seen, cat) == [];
    }
  }

  /** A category slug is reported as a duplicate exactly when an earlier category has the same non-empty slug. */
  lemma DuplicateCategorySlugReported(cats: seq<MR.CategoryEntry>, x: string)
    ensures DuplicateCategorySlug(x) in CategoryErrors(cats) <==>
      exists i, j :: 0 <= i < j < |cats| && cats[i].slug == Some(x) && cats[j].slug == Some(x) && x != ""
  {
    CategoryErrorsIn(cats, DuplicateCategorySlug(x));
    forall j | 0 <= j < |cats|
      ensures DuplicateCategorySlug(x) in CategoryIssues(SeenSlugs(cats[..j]), cats[j]) <==>
        cats[j].slug == Some(x) && x != "" && exists i :: 0 <= i < j && cats[i].slug == Some(x)
    {
      DuplicateAt(cats, j, x);
    }
  }

  /** Required-field messages of a category come only from its field check. */
  lemma FieldIssuesOnly(seen: set<string>, cat: MR.CategoryEntry, e: Issue)
    requires e.MissingCategoryField?
    ensures e in CategoryIssues(seen, cat) <==> e in FieldIssues(cat)
  {
    ArticlesPartIn(cat, e);
    forall j | 0 <= j < |cat.articles| ensures e !in ArticleIssues(CategoryLabel(cat), cat.articles[j]) {
      ArticleIssuesIn(CategoryLabel(cat), cat.articles[j], e);
    }
  }

  /** Check 2 reports a field of a category exactly when that field is `undefined`; an empty string passes and the name is never missing. */
  lemma CategoryFieldReported(cats: seq<MR.CategoryEntry>, owner: string, f: CategoryField)
    ensures MissingCategoryField(owner, f) in CategoryErrors(cats) <==>
      exists i :: 0 <= i < |cats| && CategoryLabel(cats[i]) == owner && FieldOf(cats[i], f).None?
    ensures MissingCategoryField(owner, Name) !in CategoryErrors(cats)
  {
    CategoryErrorsIn(cats, MissingCategoryField(owner, f));
    CategoryErrorsIn(cats, MissingCategoryField(owner, Name));
    forall i | 0 <= i < |cats|
      ensures MissingCategoryField(owner, f) in CategoryIssues(SeenSlugs(cats[..i]), cats[i]) <==>
        CategoryLabel(cats[i]) == owner && FieldOf(cats[i], f).None?
      ensures MissingCategoryField(owner, Name) !in CategoryIssues(SeenSlugs(cats[..i]), cats[i])
    {
      FieldIssuesOnly(SeenSlugs(cats[..i]), cats[i], MissingCategoryField(owner, f));
      FieldIssuesOnly(SeenSlugs(cats[..i]), cats[i], MissingCategoryField(owner, Name));
      FieldIssuesIn(cats[i], MissingCategoryField(owner, f));
      FieldIssuesIn(cats[i], MissingCategoryField(owner, Name));
    }
  }

  /** The messages that name one article entry: a missing or empty field, or a slug that is not URL-safe. */
  lemma ArticleIssueReported(cats: seq<MR.CategoryEntry>, e: Issue)
    requires e.MissingArticleField? || e.UnsafeArticleSlug?
    ensures e in CategoryErrors(cats) <==>
      exists i, j :: 0 <= i < |cats| && 0 <= j < |cats[i].articles| && e in ArticleIssues(CategoryLabel(cats[i]), cats[i].articles[j])
  {
    CategoryErrorsIn(cats, e);
    forall i | 0 <= i < |cats|
      ensures e in CategoryIssues(SeenSlugs(cats[..i]), cats[i]) <==>
        exists j :: 0 <= j < |cats[i].articles| && e in ArticleIssues(CategoryLabel(cats[i]), cats[i].articles[j])
    {
      FieldIssuesIn(cats[i], e);
      ArticlesPartIn(cats[i], e);
    }
  }

  /** An article slug is reported as not URL-safe exactly when some entry has it, non-empty, failing the slug pattern. */
  lemma UnsafeArticleSlugReported(cats: seq<MR.CategoryEntry>, x: string)
    ensures UnsafeArticleSlug(x) in CategoryErrors(cats) <==>
      exists i, j :: 0 <= i < |cats| && 0 <= j < |cats[i].articles| && cats[i].articles[j].slug == x && x != "" && !IsSlug(x)
  {
    ArticleIssueReported(cats, UnsafeArticleSlug(x));
    forall i, j | 0 <= i < |cats| && 0 <= j < |cats[i].articles|
      ensures UnsafeArticleSlug(x) in ArticleIssues(CategoryLabel(cats[i]), cats[i].articles[j]) <==>
        cats[i].articles[j].slug == x && x != "" && !IsSlug(x)
    {
      ArticleIssuesIn(CategoryLabel(cats[i]), cats[i].articles[j], UnsafeArticleSlug(x));
    }
  }

  /** Check 3 reports a field of an entry exactly when it is `undefined` or empty. */
  lemma ArticleFieldReported(cats: seq<MR.CategoryEntry>, owner: string, f: ArticleField)
    ensures MissingArticleField(owner, f) in CategoryErrors(cats) <==>
      exists i, j :: 0 <= i < |cats| && 0 <= j < |cats[i].articles| &&
        owner == ArticleLabel(CategoryLabel(cats[i]), cats[i].articles[j]) && !Truthy(ArticleFieldOf(cats[i].articles[j], f))
  {
    ArticleIssueReported(cats, MissingArticleField(owner, f));
    forall i, j | 0 <= i < |cats| && 0 <= j < |cats[i].articles|
      ensures MissingArticleField(owner, f) in ArticleIssues(CategoryLabel(cats[i]), cats[i].articles[j]) <==>
        owner == ArticleLabel(CategoryLabel(cats[i]), cats[i].articles[j]) && !Truthy(ArticleFieldOf(cats[i].articles[j], f))
    {
      ArticleIssuesIn(CategoryLabel(cats[i]), cats[i].articles[j], MissingArticleField(owner, f));
    }
  }

  /** `allArticleSlugs` keeps each non-empty entry slug once, wherever it is repeated. */
  lemma {:induction false} AddSlugsAre(acc: seq<string>, arts: seq<MR.ArticleEntry>, x: string)
    requires Dedup.Distinct(acc)
    ensures Dedup.Distinct(AddSlugs(acc, arts))
    ensures x in AddSlugs(acc, arts) <==> x in acc || exists j :: 0 <= j < |arts| && arts[j].slug == x && x != ""
  {
    if |arts| > 0 {
      var init := arts[..|arts| - 1];
      var art := arts[|arts| - 1];
      AddSlugsAre(acc, init, x);
      AddSlugsAre(acc, init, art.slug);
      var before := AddSlugs(acc, init);
      if art.slug != "" && art.slug !in before {
        assert before + [art.slug] == AddSlugs(acc, arts);
      }
      if exists j :: 0 <= j < |init| && init[j].slug == x && x != "" {
        var j :| 0 <= j < |init| && init[j].slug == x && x != "";
        assert arts[j] == init[j];
      }
      if exists j :: 0 <= j < |arts| && arts[j].slug == x && x != "" {
        var j :| 0 <= j < |arts| && arts[j].slug == x && x != "";
        if j < |init| {
          assert init[j] == arts[j];
        }
      }
    }
  }

  lemma {:induction false} ArticleSlugsAre(cats: seq<MR.CategoryEntry>, x: string)
    ensures Dedup.Distinct(ArticleSlugs(cats))
    ensures x in ArticleSlugs(cats) <==>
      exists i, j :: 0 <= i < |cats| && 0 <= j < |cats[i].articles| && cats[i].articles[j].slug == x && x != ""
  {
    if |cats| > 0 {
      var init := cats[..|cats| - 1];
      var cat := cats[|cats| - 1];
      ArticleSlugsAre(init, x);
      AddSlugsAre(ArticleSlugs(init), cat.articles, x);
      if exists i, j :: 0 <= i < |init| && 0 <= j < |init[i].articles| && init[i].articles[j].slug == x && x != "" {
        var i, j :| 0 <= i < |init| && 0 <= j < |init[i].articles| && init[i].articles[j].slug == x && x != "";
        assert cats[i] == init[i];
      }
      if exists i, j :: 0 <= i < |cats| && 0 <= j < |cats[i].articles| && cats[i].articles[j].slug == x && x != "" {
        var i, j :| 0 <= i < |cats| && 0 <= j < |cats[i].articles| && cats[i].articles[j].slug == x && x != "";
        if i < |init| {
          assert init[i] == cats[i];
        }
      }
    }
  }

  // ---------------------------------------------------------------------
  // Check 5: every mapped slug has articles/{slug}/article.md

  function MissingFile(files: map<string, string>, slug: string): seq<Issue> {
    if slug in files then [] else [ArticleNotFound(slug)]
  }

  function MissingFiles(slugs: seq<string>, files: map<string, string>): seq<Issue> {
    Seqs.ConcatMap(slugs, slug => MissingFile(files, slug))
  }

  method CheckArticleFiles(slugs: seq<string>, files: map<string, string>) returns (issues: seq<Issue>)
    ensures issues == MissingFiles(slugs, files)
  {
    issues := [];
    for i := 0 to |slugs|
      invariant issues == MissingFiles(slugs[..i], files)
    {
      Seqs.ConcatMapSnoc(slugs, slug => MissingFile(files, slug), i);
      if slugs[i] !in files {
        issues := issues + [ArticleNotFound(slugs[i])];
      }
    }
    assert slugs[..|slugs|] == slugs;
  }

  /** A slug is reported missing exactly when it is mapped and its file is absent, and at most once when the slugs have no repeats. */
  lemma MissingFilesReported(slugs: seq<string>, files: map<string, string>, e: Issue)
    ensures e in MissingFiles(slugs, files) <==> e.ArticleNotFound? && e.slug in slugs && e.slug !in files
    ensures Dedup.Distinct(slugs) ==>
      forall p, q :: 0 <= p < q < |MissingFiles(slugs, files)| ==> MissingFiles(slugs, files)[p] != MissingFiles(slugs, files)[q]
  {
    var f := (slug: string) => MissingFile(files, slug);
    Seqs.ConcatMapIn(slugs, f, e);
    if e.ArticleNotFound? && e.slug in slugs && e.slug !in files {
      var i :| 0 <= i < |slugs| && slugs[i] == e.slug;
      assert e in f(slugs[i]);
    }
    if Dedup.Distinct(slugs) {
      Seqs.ConcatMapDistinct(slugs, f);
    }
  }

  // ---------------------------------------------------------------------
  // Check 6: no directory under articles/ is left out of the mapping

  function OrphanIssue(slugs: seq<string>, entry: DirEntry): seq<Issue> {
    if entry.isDirectory && entry.name !in slugs then [OrphanDirectory(entry.name)] else []
  }

  function Orphans(dir: Option<seq<DirEntry>>, slugs: seq<string>): seq<Issue> {
    match dir
    case None => []
    case Some(entries) => Seqs.ConcatMap(entries, entry => OrphanIssue(slugs, entry))
  }

  method CheckOrphans(dir: Option<seq<DirEntry>>, slugs: seq<string>) returns (issues: seq<Issue>)
    ensures issues == Orphans(dir, slugs)
  {
    issues := [];
    if dir.Some? {
      var entries := dir.value;
      for i := 0 to |entries|
        invariant issues == Seqs.ConcatMap(entries[..i], entry => OrphanIssue(slugs, entry))
      {
        Seqs.ConcatMapSnoc(entries, entry => OrphanIssue(slugs, entry), i);
        if entries[i].isDirectory && entries[i].name !in slugs {
          issues := issues + [OrphanDirectory(entries[i].name)];
        }
      }
      assert entries[..|entries|] == entries;
    }
  }

  /** A name is reported exactly when `articles/` exists and lists a directory of that name that no entry maps; plain files are never reported. */
  lemma OrphansReported(dir: Option<seq<DirEntry>>, slugs: seq<string>, e: Issue)
    ensures e in Orphans(dir, slugs) <==>
      e.OrphanDirectory? && dir.Some? && e.name !in slugs &&
      exists k :: 0 <= k < |dir.value| && dir.value[k] == DirEntry(e.name, true)
  {
    if dir.Some? {
      var f := (entry: DirEntry) => OrphanIssue(slugs, entry);
      Seqs.ConcatMapIn(dir.value, f, e);
      if e.OrphanDirectory? && e.name !in slugs && exists k :: 0 <= k < |dir.value| && dir.value[k] == DirEntry(e.name, true) {
        var k :| 0 <= k < |dir.value| && dir.value[k] == DirEntry(e.name, true);
        assert e in f(dir.value[k]);
      }
    }
  }

  // ---------------------------------------------------------------------
  // Check 7: every icon named by a category exists

  function IconIssue(icons: set<string>, cat: MR.CategoryEntry): seq<Issue> {
    if Truthy(cat.icon) && cat.icon.value !in icons then [IconNotFound(cat.slug, cat.icon.value)] else []
  }

  function IconIssues(cats: seq<MR.CategoryEntry>, icons: set<string>): seq<Issue> {
    Seqs.ConcatMap(cats, cat => IconIssue(icons, cat))
  }

  method CheckIcons(cats: seq<MR.CategoryEntry>, icons: set<string>) returns (issues: seq<Issue>)
    ensures issues == IconIssues(cats, icons)
  {
    issues := [];
    for i := 0 to |cats|
      invariant issues == IconIssues(cats[..i], icons)
    {
      Seqs.ConcatMapSnoc(cats, cat => IconIssue(icons, cat), i);
      var cat := cats[i];
      if cat.icon.Some? && cat.icon.value != "" && cat.icon.value !in icons {
        issues := issues + [IconNotFound(cat.slug, cat.icon.value)];
      }
    }
    assert cats[..|cats|] == cats;
  }

  /** An icon is reported exactly when some category names it, non-empty, and it is absent; a category without an icon is not reported here. */
  lemma IconsReported(cats: seq<MR.CategoryEntry>, icons: set<string>, e: Issue)
    ensures e in IconIssues(cats, icons) <==>
      e.IconNotFound? && e.icon != "" && e.icon !in icons &&
      exists i :: 0 <= i < |cats| && cats[i].slug == e.categorySlug && cats[i].icon == Some(e.icon)
  {
    var f := (cat: MR.CategoryEntry) => IconIssue(icons, cat);
    Seqs.ConcatMapIn(cats, f, e);
    if e.IconNotFound? && e.icon != "" && e.icon !in icons &&
      exists i :: 0 <= i < |cats| && cats[i].slug == e.categorySlug && cats[i].icon == Some(e.icon)
    {
      var i :| 0 <= i < |cats| && cats[i].slug == e.categorySlug && cats[i].icon == Some(e.icon);
      assert e in f(cats[i]);
    }
  }

  // ---------------------------------------------------------------------
  // Checks 8 and 9: the header of each article file

  const ForbiddenFields: seq<ForbiddenField> := [Id, ForbiddenTitle]

  function ForbiddenKey(f: ForbiddenField): string {
    match f
    case Id => "id"
    case ForbiddenTitle => "title"
  }

  function ForbiddenIssue(slug: string, fm: map<string, string>, f: ForbiddenField): seq<Issue> {
    if Truthy(Frontmatter.Lookup(fm, ForbiddenKey(f))) then [HasForbiddenField(slug, f)] else []
  }

  function FieldsIssues(slug: string, fm: map<string, string>): seq<Issue> {
    (if Truthy(Frontmatter.Lookup(fm, Frontmatter.DescriptionKey)) then [] else [MissingDescription(slug)]) +
    Seqs.ConcatMap(ForbiddenFields, f => ForbiddenIssue(slug, fm, f))
  }

  /** The messages for one mapped slug: nothing when its file is absent (check 5 reported it). */
  function HeaderIssues(files: map<string, string>, slug: string): seq<Issue> {
    if slug !in files then []
    else
      match Frontmatter.ParseOrNull(files[slug])
      case None => [MissingFrontmatter(slug)]
      case Some(fm) => FieldsIssues(slug, fm)
  }

  function FrontmatterIssues(slugs: seq<string>, files: map<string, string>): seq<Issue> {
    Seqs.ConcatMap(slugs, slug => HeaderIssues(files, slug))
  }

  method CheckHeaderFields(slug: string, fm: map<string, string>) returns (issues: seq<Issue>)
    ensures issues == FieldsIssues(slug, fm)
  {
    issues := [];
    if !(Frontmatter.DescriptionKey in fm && fm[Frontmatter.DescriptionKey] != "") {
      issues := [MissingDescription(slug)];
    }
    var before := issues;
    assert before == if Truthy(Frontmatter.Lookup(fm, Frontmatter.DescriptionKey)) then [] else [MissingDescription(slug)];
    for i := 0 to |ForbiddenFields|
      invariant issues == before + Seqs.ConcatMap(ForbiddenFields[..i], f => ForbiddenIssue(slug, fm, f))
    {
      Seqs.ConcatMapSnoc(ForbiddenFields, f => ForbiddenIssue(slug, fm, f), i);
      var field := ForbiddenFields[i];
      var key := ForbiddenKey(field);
      assert Truthy(Frontmatter.Lookup(fm, key)) <==> key in fm && fm[key] != "";
      if key in fm && fm[key] != "" {
        issues := issues + [HasForbiddenField(slug, field)];
      }
    }
    assert ForbiddenFields[..|ForbiddenFields|] == ForbiddenFields;
  }

  method CheckFrontmatter(slugs: seq<string>, files: map<string, string>) returns (issues: seq<Issue>)
    ensures issues == FrontmatterIssues(slugs, files)
  {
    issues := [];
    for i := 0 to |slugs|
      invariant issues == FrontmatterIssues(slugs[..i], files)
    {
      Seqs.ConcatMapSnoc(slugs, slug => HeaderIssues(files, slug), i);
      var slug := slugs[i];
      if slug in files {
        var fm := Frontmatter.ParseOrNull(files[slug]);
        if fm.None? {
          issues := issues + [MissingFrontmatter(slug)];
        } else {
          var more := CheckHeaderFields(slug, fm.value);
          issues := issues + more;
        }
      }
    }
    assert slugs[..|slugs|] == slugs;
  }

  /** The header messages of one file: a file without a header gets only the missing-header message; otherwise a missing or empty description and each non-empty forbidden field is reported. */
  lemma HeaderIssuesIn(files: map<string, string>, slug: string, e: Issue)
    ensures e in HeaderIssues(files, slug) <==>
      slug in files &&
      ((e == MissingFrontmatter(slug) && Frontmatter.HeaderEnd(files[slug]).None?) ||
       (Frontmatter.HeaderEnd(files[slug]).Some? &&
        var fm := Frontmatter.Parse(files[slug]).fields;
        (e == MissingDescription(slug) && !Truthy(Frontmatter.Lookup(fm, Frontmatter.DescriptionKey))) ||
        (e.HasForbiddenField? && e.slug == slug && Truthy(Frontmatter.Lookup(fm, ForbiddenKey(e.field))))))
  {
    if slug in files && Frontmatter.HeaderEnd(files[slug]).Some? {
      var fm := Frontmatter.Parse(files[slug]).fields;
      var f := (x: ForbiddenField) => ForbiddenIssue(slug, fm, x);
      Seqs.ConcatMapIn(ForbiddenFields, f, e);
      if e.HasForbiddenField? && e.slug == slug && Truthy(Frontmatter.Lookup(fm, ForbiddenKey(e.field))) {
        var k := if e.field == Id then 0 else 1;
        assert ForbiddenFields[k] == e.field;
        assert e in f(ForbiddenFields[k]);
      }
    }
  }

  /** Header messages name a mapped slug, and each such slug's file is judged on its own. */
  lemma FrontmatterReported(slugs: seq<string>, files: map<string, string>, e: Issue)
    requires e.MissingFrontmatter? || e.MissingDescription? || e.HasForbiddenField?
    ensures e in FrontmatterIssues(slugs, files) <==> e.slug in slugs && e in HeaderIssues(files, e.slug)
  {
    var f := (slug: string) => HeaderIssues(files, slug);
    Seqs.ConcatMapIn(slugs, f, e);
    if exists i :: 0 <= i < |slugs| && e in f(slugs[i]) {
      var i :| 0 <= i < |slugs| && e in f(slugs[i]);
      HeaderIssuesIn(files, slugs[i], e);
    }
    if e.slug in slugs && e in HeaderIssues(files, e.slug) {
      var i :| 0 <= i < |slugs| && slugs[i] == e.slug;
      assert e in f(slugs[i]);
    }
  }

  // ---------------------------------------------------------------------
  // The run as a whole

  /** How a run ends: `finish()` reports the collected messages, or the script dies before reporting anything. */
  type Outcome = Outcomes.Outcome<Issue>

  /** Checks 2-9 over the categories read from the mapping. */
  function Checks(cats: seq<MR.CategoryEntry>, snap: Snapshot): seq<Issue> {
    var slugs := ArticleSlugs(cats);
    CategoryErrors(cats) + MissingFiles(slugs, snap.articleFiles) + Orphans(snap.articlesDir, slugs) +
    IconIssues(cats, snap.icons) + FrontmatterIssues(slugs, snap.articleFiles)
  }

  /**
   * The script as written. The three early `finish()` calls of check 1 run
   * before `const allArticleSlugs` is initialised, and `finish()` reads
   * `allArticleSlugs.size` first: each of them throws a ReferenceError
   * instead of printing its message.
   */
  function ValidateAsWritten(snap: Snapshot): (r: Outcome)
    ensures r.Crashed? <==> !snap.mapping.Present? || |MR.MappingOf(snap.mapping.content)| == 0
    ensures r.Finished? ==> r.errors == Checks(MR.MappingOf(snap.mapping.content), snap)
  {
    match snap.mapping
    case Missing => Crashed
    case Unreadable(_) => Crashed
    case Present(content) =>
      var cats := MR.MappingOf(content);
      if |cats| == 0 then Crashed else Finished(Checks(cats, snap))
  }

  /** The script with `finish()` able to run early: check 1 reports its one message and stops. */
  function Validate(snap: Snapshot): (r: Outcome)
    ensures r.Finished?
  {
    match snap.mapping
    case Missing => Finished([MappingNotFound])
    case Unreadable(reason) => Finished([CannotReadMapping(reason)])
    case Present(content) =>
      var cats := MR.MappingOf(content);
      if |cats| == 0 then Finished([NoCategories]) else Finished(Checks(cats, snap))
  }

  /** The whole run over a snapshot of the disk, with check 1 reporting before it stops. */
  method ValidateStructure(snap: Snapshot) returns (outcome: Outcome)
    ensures outcome == Validate(snap)
  {
    match snap.mapping
    case Missing =>
      outcome := Finished([MappingNotFound]);
    case Unreadable(reason) =>
      outcome := Finished([CannotReadMapping(reason)]);
    case Present(content) =>
      var categories := MR.ParseMapping(content);
      if |categories| == 0 {
        outcome := Finished([NoCategories]);
      } else {
        var errors, allSlugs, allArticleSlugs := CheckCategories(categories);
        var missing := CheckArticleFiles(allArticleSlugs, snap.articleFiles);
        var orphans := CheckOrphans(snap.articlesDir, allArticleSlugs);
        var icons := CheckIcons(categories, snap.icons);
        var headers := CheckFrontmatter(allArticleSlugs, snap.articleFiles);
        outcome := Finished(errors + missing + orphans + icons + headers);
      }
  }

  /** Check 1 as written: a missing, unreadable or empty mapping ends in an exception, so its message is never shown. */
  lemma EarlyFinishCrashes(snap: Snapshot)
    requires !snap.mapping.Present? || |MR.MappingOf(snap.mapping.content)| == 0
    ensures ValidateAsWritten(snap) == Crashed
    ensures Validate(snap).errors == [
      match snap.mapping
      case Missing => MappingNotFound
      case Unreadable(reason) => CannotReadMapping(reason)
      case Present(_) => NoCategories]
  {
  }

  /** The exception does not change the verdict: both versions exit with the same code, and they agree whenever the mapping yields categories. */
  lemma ExitCodesAgree(snap: Snapshot)
    ensures ExitCode(ValidateAsWritten(snap)) == ExitCode(Validate(snap))
    ensures snap.mapping.Present? && |MR.MappingOf(snap.mapping.content)| > 0 ==> ValidateAsWritten(snap) == Validate(snap)
  {
  }

  /** The run passes exactly when the mapping is present, yields categories, and none of checks 2-9 has anything to say. */
  lemma PassesIff(snap: Snapshot)
    ensures ExitCode(Validate(snap)) == 0 <==>
      snap.mapping.Present? && |MR.MappingOf(snap.mapping.content)| > 0 &&
      Checks(MR.MappingOf(snap.mapping.content), snap) == []
  {
  }
}
