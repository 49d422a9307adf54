/**
 * The catalog build of the migration (scripts/migrate-structure.mjs:125-162):
 * for every category, in order, the `.md` files of its directory become
 * articles; `categoryArticles` maps the category id to its articles,
 * `allArticles` keeps the first article seen for each slug, and `slugToCats`
 * lists, per slug, the category of every occurrence in encounter order.
 */
module Catalog {
  import opened Strings
  import Frontmatter
  import CategoriesYaml
  import Dedup
  import Body

  /** A category record the migration can use: its id and title are strings. */
  datatype Category = Category(id: string, title: string, description: string, logo: Option<string>, hidden: bool)

  const IdKey := "id"
  const TitleKey := "title"
  const LogoKey := "logo"

  /**
   * The category a parsed record stands for, or None when the script throws
   * on it: a missing or boolean `id` stops `join` (line 130), a missing or
   * boolean `title` stops `yamlEscape` (line 381), and so does a `description`
   * or `logo` read as the boolean `true` (lines 379, 384).
   */
  function CategoryOf(r: CategoriesYaml.Record): (c: Option<Category>)
    ensures c.Some? ==> IdKey in r && r[IdKey] == CategoriesYaml.Str(c.value.id)
    ensures c.Some? ==> TitleKey in r && r[TitleKey] == CategoriesYaml.Str(c.value.title)
    ensures c.Some? ==> (c.value.hidden <==> Frontmatter.HiddenKey in r && r[Frontmatter.HiddenKey] == CategoriesYaml.Flag(true))
  {
    if IdKey !in r || !r[IdKey].Str? || TitleKey !in r || !r[TitleKey].Str? then None
    else if Frontmatter.DescriptionKey in r && r[Frontmatter.DescriptionKey] == CategoriesYaml.Flag(true) then None
    else if LogoKey in r && r[LogoKey] == CategoriesYaml.Flag(true) then None
    else
      var description := if Frontmatter.DescriptionKey in r && r[Frontmatter.DescriptionKey].Str?
        then r[Frontmatter.DescriptionKey].s else "";
      var logo := if LogoKey in r && r[LogoKey].Str? && r[LogoKey].s != "" then Some(r[LogoKey].s) else None;
      var hidden := Frontmatter.HiddenKey in r && r[Frontmatter.HiddenKey] == CategoriesYaml.Flag(true);
      Some(Category(r[IdKey].s, r[TitleKey].s, description, logo, hidden))
  }

  /** All records as categories, or None when one of them would stop the script. */
  function Categories(records: seq<CategoriesYaml.Record>): (r: Option<seq<Category>>)
    ensures r.Some? <==> forall i :: 0 <= i < |records| ==> CategoryOf(records[i]).Some?
    ensures r.Some? ==> |r.value| == |records| && forall i :: 0 <= i < |records| ==> CategoryOf(records[i]) == Some(r.value[i])
  {
    if forall i :: 0 <= i < |records| ==> CategoryOf(records[i]).Some? then
      Some(seq(|records|, i requires 0 <= i < |records| => CategoryOf(records[i]).value))
    else None
  }

  /**
   * A file of a category directory: its name, its text, and its body (the
   * text after the header) as the image scanner splits it.
   */
  datatype SourceFile = SourceFile(name: string, raw: string, body: seq<Body.Segment>)

  /** The body segments are a faithful split of the file's body text. */
  predicate Tokenized(f: SourceFile) {
    Body.Render(f.body) == Frontmatter.Parse(f.raw).body
  }

  datatype Article = Article(slug: string, title: string, description: string, hidden: bool, body: seq<Body.Segment>)

  const MdSuffix := ".md"

  /** `basename(name, '.md')` for a directory entry. */
  function Stem(name: string): (r: string)
    ensures EndsWith(name, MdSuffix) ==> r + MdSuffix == name
  {
    if EndsWith(name, MdSuffix) then name[..|name| - |MdSuffix|] else name
  }

  /** `fields[key] || fallback`: a missing or empty field falls back. */
  function FieldOr(fields: map<string, string>, key: string, fallback: string): (r: string)
    ensures key in fields && fields[key] != "" ==> r == fields[key]
    ensures !(key in fields && fields[key] != "") ==> r == fallback
    ensures r == fallback || (key in fields && r == fields[key])
    ensures fallback != "" ==> r != ""
  {
    if key in fields && fields[key] != "" then fields[key] else fallback
  }

  /** The article the script builds from one file (lines 141-150). */
  function ToArticle(f: SourceFile): (r: Article)
    ensures var id := Frontmatter.Lookup(Frontmatter.Parse(f.raw).fields, IdKey);
      (Truthy(id) ==> r.slug == id.value)
      && (!Truthy(id) && EndsWith(f.name, MdSuffix) ==> r.slug + MdSuffix == f.name)
    ensures r.slug != "" ==> r.title != ""
    ensures r.hidden ==> Frontmatter.HiddenKey in Frontmatter.Parse(f.raw).fields
    ensures Tokenized(f) ==> Body.Render(r.body) == Frontmatter.Parse(f.raw).body
  {
    var fields := Frontmatter.Parse(f.raw).fields;
    var slug := FieldOr(fields, IdKey, Stem(f.name));
    Article(
      slug,
      FieldOr(fields, TitleKey, slug),
      FieldOr(fields, Frontmatter.DescriptionKey, ""),
      Frontmatter.HiddenKey in fields && fields[Frontmatter.HiddenKey] == Frontmatter.TrueText,
      f.body)
  }

  /** `readdirSync(catDir).filter(f => f.endsWith('.md'))` */
  function MdFiles(files: seq<SourceFile>): (r: seq<SourceFile>)
    ensures forall f :: f in r <==> f in files && EndsWith(f.name, MdSuffix)
    ensures |r| <= |files|
  {
    if |files| == 0 then []
    else
      var init, last := files[..|files| - 1], files[|files| - 1];
      assert files == init + [last];
      MdFiles(init) + (if EndsWith(last.name, MdSuffix) then [last] else [])
  }

  /** The listing of each category directory that exists, keyed by category id. */
  type Dirs = map<string, seq<SourceFile>>

  /** The articles built from a list of files, in order. */
  function ToArticles(files: seq<SourceFile>): (r: seq<Article>)
    ensures |r| == |files|
  {
    if |files| == 0 then [] else ToArticles(files[..|files| - 1]) + [ToArticle(files[|files| - 1])]
  }

  lemma ToArticlesPrefix(files: seq<SourceFile>, j: nat)
    requires j < |files|
    ensures ToArticles(files[..j + 1]) == ToArticles(files[..j]) + [ToArticle(files[j])]
  {
    assert files[..j + 1][..j] == files[..j];
  }

  /** The articles of one category; none when its directory is missing. */
  function ArticlesIn(dirs: Dirs, id: string): (r: seq<Article>)
    ensures id !in dirs ==> r == []
    ensures id in dirs ==> r == ToArticles(MdFiles(dirs[id]))
  {
    if id !in dirs then [] else ToArticles(MdFiles(dirs[id]))
  }

  /** One article met while walking the categories, with the category it was met in. */
  datatype Encounter = Encounter(article: Article, cat: string)

  function EncounterSlug(e: Encounter): string {
    e.article.slug
  }

  function CategoryId(c: Category): string {
    c.id
  }

  /** The articles of a category tagged with its id. */
  function Tag(arts: seq<Article>, id: string): (r: seq<Encounter>)
    ensures |r| == |arts|
  {
    if |arts| == 0 then [] else Tag(arts[..|arts| - 1], id) + [Encounter(arts[|arts| - 1], id)]
  }

  /** The encounters of one category, in file order. */
  function EncountersOf(c: Category, dirs: Dirs): seq<Encounter> {
    Tag(ArticlesIn(dirs, c.id), c.id)
  }

  /** All encounters, category after category. */
  function Encounters(cats: seq<Category>, dirs: Dirs): seq<Encounter> {
    if |cats| == 0 then []
    else Encounters(cats[..|cats| - 1], dirs) + EncountersOf(cats[|cats| - 1], dirs)
  }

  function Articles(enc: seq<Encounter>): (r: seq<Article>)
    ensures |r| == |enc| && forall k :: 0 <= k < |enc| ==> r[k] == enc[k].article
  {
    seq(|enc|, k requires 0 <= k < |enc| => enc[k].article)
  }

  /**
   * `allArticles`: one article per slug met, the first one met, with no slug
   * twice, in the order the slugs were first met.
   */
  function AllArticles(enc: seq<Encounter>): (r: seq<Article>)
    ensures Dedup.KeySet(r, (a: Article) => a.slug) == Dedup.KeySet(enc, EncounterSlug)
    ensures forall i, j :: 0 <= i < j < |r| ==> r[i].slug != r[j].slug
    ensures forall k :: 0 <= k < |r| ==> (r[k].slug in Dedup.KeySet(enc, EncounterSlug)
      && r[k] == Dedup.FirstWithKey(enc, EncounterSlug, r[k].slug).article)
  {
    var d := Dedup.DedupFirst(enc, EncounterSlug);
    Dedup.DedupKeepsFirst(enc, EncounterSlug);
    var r := Articles(d);
    assert forall k :: 0 <= k < |r| ==> r[k].slug == EncounterSlug(d[k]);
    assert forall k :: 0 <= k < |d| ==> d[k] in d;
    SlugsOfArticles(d);
    r
  }

  lemma SlugsOfArticles(d: seq<Encounter>)
    ensures Dedup.KeySet(Articles(d), (a: Article) => a.slug) == Dedup.KeySet(d, EncounterSlug)
  {
    var r := Articles(d);
    assert forall k :: 0 <= k < |r| ==> r[k].slug == EncounterSlug(d[k]);
  }

  /** The categories of the encounters with slug `s`, in encounter order. */
  function CatsOf(enc: seq<Encounter>, s: string): seq<string> {
    if |enc| == 0 then []
    else
      var last := enc[|enc| - 1];
      CatsOf(enc[..|enc| - 1], s) + (if last.article.slug == s then [last.cat] else [])
  }

  lemma {:induction false} CatsOfAbsent(enc: seq<Encounter>, s: string)
    requires s !in Dedup.KeySet(enc, EncounterSlug)
    ensures CatsOf(enc, s) == []
  {
    if |enc| > 0 {
      var init, last := enc[..|enc| - 1], enc[|enc| - 1];
      assert enc == init + [last];
      Dedup.KeySetSnoc(init, last, EncounterSlug);
      CatsOfAbsent(init, s);
    }
  }

  /** The number of articles with slug `s`. */
  function CountSlug(arts: seq<Article>, s: string): nat {
    if |arts| == 0 then 0
    else CountSlug(arts[..|arts| - 1], s) + (if arts[|arts| - 1].slug == s then 1 else 0)
  }

  /** `n` copies of `id`. */
  function Repeat(id: string, n: nat): (r: seq<string>)
    ensures |r| == n && forall k :: 0 <= k < n ==> r[k] == id
  {
    if n == 0 then [] else Repeat(id, n - 1) + [id]
  }

  /** Walking `a` then `b` lists the categories met in `a` first, then those met in `b`. */
  lemma {:induction false} CatsOfAppend(a: seq<Encounter>, b: seq<Encounter>, s: string)
    ensures CatsOf(a + b, s) == CatsOf(a, s) + CatsOf(b, s)
    decreases |b|
  {
    if |b| == 0 {
      assert a + b == a;
    } else {
      var b0 := b[..|b| - 1];
      assert (a + b)[..|a + b| - 1] == a + b0;
      CatsOfAppend(a, b0, s);
    }
  }

  /** Within one category, the category id is listed once per article with that slug. */
  lemma {:induction false} CatsOfTag(arts: seq<Article>, id: string, s: string)
    ensures CatsOf(Tag(arts, id), s) == Repeat(id, CountSlug(arts, s))
  {
    if |arts| > 0 {
      CatsOfTag(arts[..|arts| - 1], id, s);
      var t := Tag(arts, id);
      assert t[..|t| - 1] == Tag(arts[..|arts| - 1], id);
    }
  }

  /**
   * `slugToCats` in encounter order: after one more category, a slug's list is
   * its earlier list followed by that category's id, once per article of the
   * category with that slug.
   */
  lemma CatsOfNextCategory(cats: seq<Category>, c: Category, dirs: Dirs, s: string)
    ensures CatsOf(Encounters(cats + [c], dirs), s)
      == CatsOf(Encounters(cats, dirs), s) + Repeat(c.id, CountSlug(ArticlesIn(dirs, c.id), s))
  {
    EncountersSnoc(cats, c, dirs);
    CatsOfAppend(Encounters(cats, dirs), EncountersOf(c, dirs), s);
    CatsOfTag(ArticlesIn(dirs, c.id), c.id, s);
  }

  /** `slugToCats`, built by appending the category of each encounter to its slug's list. */
  function SlugCats(enc: seq<Encounter>): (m: map<string, seq<string>>)
    ensures forall s :: s in m <==> s in Dedup.KeySet(enc, EncounterSlug)
    ensures forall s :: s in m ==> m[s] == CatsOf(enc, s)
  {
    if |enc| == 0 then map[]
    else
      var init, last := enc[..|enc| - 1], enc[|enc| - 1];
      var m := SlugCats(init);
      assert enc == init + [last];
      Dedup.KeySetSnoc(init, last, EncounterSlug);
      var s := last.article.slug;
      assert s !in m ==> CatsOf(init, s) == [] by {
        if s !in m { CatsOfAbsent(init, s); }
      }
      m[s := (if s in m then m[s] else []) + [last.cat]]
  }

  /** Walking one more encounter appends it at the end. */
  lemma EncountersSnoc(cats: seq<Category>, c: Category, dirs: Dirs)
    ensures Encounters(cats + [c], dirs) == Encounters(cats, dirs) + EncountersOf(c, dirs)
  {
    assert (cats + [c])[..|cats|] == cats;
  }

  /** The loop state after walking the encounters `enc`. */
  ghost predicate Tracks(enc: seq<Encounter>, allArticles: seq<Article>, seen: set<string>, slugToCats: map<string, seq<string>>) {
    && allArticles == Articles(Dedup.DedupFirst(enc, EncounterSlug))
    && seen == Dedup.KeySet(enc, EncounterSlug)
    && slugToCats == SlugCats(enc)
  }

  /** An article whose slug is new is appended to `allArticles`; any other is dropped. */
  lemma AllArticlesStep(enc: seq<Encounter>, e: Encounter)
    ensures Articles(Dedup.DedupFirst(enc + [e], EncounterSlug)) ==
      if e.article.slug in Dedup.KeySet(enc, EncounterSlug) then Articles(Dedup.DedupFirst(enc, EncounterSlug))
      else Articles(Dedup.DedupFirst(enc, EncounterSlug)) + [e.article]
  {
    Dedup.DedupSnoc(enc, e, EncounterSlug);
    var d := Dedup.DedupFirst(enc, EncounterSlug);
    assert Articles(d + [e]) == Articles(d) + [e.article];
  }

  /** Every article appends its category to its slug's list, creating the list if needed. */
  lemma SlugCatsStep(enc: seq<Encounter>, e: Encounter)
    ensures var m, slug := SlugCats(enc), e.article.slug;
      SlugCats(enc + [e]) == m[slug := (if slug in m then m[slug] else []) + [e.cat]]
  {
    assert (enc + [e])[..|enc|] == enc;
  }

  /** One article of the inner loop (lines 141-157) keeps the state in step with the encounters. */
  lemma TracksStep(enc: seq<Encounter>, allArticles: seq<Article>, seen: set<string>, slugToCats: map<string, seq<string>>, e: Encounter)
    requires Tracks(enc, allArticles, seen, slugToCats)
    ensures var slug := e.article.slug;
      Tracks(enc + [e],
        if slug !in seen then allArticles + [e.article] else allArticles,
        seen + {slug},
        slugToCats[slug := (if slug in slugToCats then slugToCats[slug] else []) + [e.cat]])
  {
    AllArticlesStep(enc, e);
    SlugCatsStep(enc, e);
    Dedup.KeySetSnoc(enc, e, EncounterSlug);
  }

  lemma TagSnoc(enc: seq<Encounter>, arts: seq<Article>, art: Article, id: string)
    ensures enc + Tag(arts, id) + [Encounter(art, id)] == enc + Tag(arts + [art], id)
  {
    assert (arts + [art])[..|arts|] == arts;
  }

  /**
   * The loop over the `.md` files of one category directory (lines 140-158):
   * it returns their articles, and the state has walked their encounters.
   */
  method ReadArticles(id: string, mdFiles: seq<SourceFile>, ghost enc: seq<Encounter>,
      allIn: seq<Article>, seenIn: set<string>, slugToCatsIn: map<string, seq<string>>)
    returns (arts: seq<Article>, allArticles: seq<Article>, seen: set<string>, slugToCats: map<string, seq<string>>)
    requires Tracks(enc, allIn, seenIn, slugToCatsIn)
    ensures arts == ToArticles(mdFiles)
    ensures Tracks(enc + Tag(arts, id), allArticles, seen, slugToCats)
  {
    arts, allArticles, seen, slugToCats := [], allIn, seenIn, slugToCatsIn;
    ghost var walked := enc;
    assert enc + Tag(arts, id) == enc;
    for j := 0 to |mdFiles|
      invariant arts == ToArticles(mdFiles[..j])
      invariant walked == enc + Tag(arts, id)
      invariant Tracks(walked, allArticles, seen, slugToCats)
    {
      var art := ToArticle(mdFiles[j]);
      ghost var e := Encounter(art, id);
      TracksStep(walked, allArticles, seen, slugToCats, e);
      TagSnoc(enc, arts, art, id);
      ToArticlesPrefix(mdFiles, j);
      arts := arts + [art];
      if art.slug !in seen {
        allArticles := allArticles + [art];
        seen := seen + {art.slug};
      }
      slugToCats := slugToCats[art.slug := (if art.slug in slugToCats then slugToCats[art.slug] else []) + [id]];
      walked := walked + [e];
    }
    assert mdFiles[..|mdFiles|] == mdFiles;
  }

  /** `categoryArticles` holds one entry per category id of `cats`: that category's articles. */
  ghost predicate ByCategory(categoryArticles: map<string, seq<Article>>, cats: seq<Category>, dirs: Dirs) {
    && (forall id :: id in categoryArticles <==> id in Dedup.KeySet(cats, CategoryId))
    && (forall id :: id in categoryArticles ==> categoryArticles[id] == ArticlesIn(dirs, id))
  }

  lemma ByCategorySnoc(categoryArticles: map<string, seq<Article>>, cats: seq<Category>, c: Category, dirs: Dirs)
    requires ByCategory(categoryArticles, cats, dirs)
    ensures ByCategory(categoryArticles[c.id := ArticlesIn(dirs, c.id)], cats + [c], dirs)
  {
    Dedup.KeySetSnoc(cats, c, CategoryId);
    UpdateAgrees(categoryArticles, id => ArticlesIn(dirs, id), c.id);
  }

  /** Setting one more key to the value a function gives keeps a map in agreement with the function. */
  lemma UpdateAgrees<K, V>(m: map<K, V>, f: K -> V, k: K)
    requires forall x :: x in m ==> m[x] == f(x)
    ensures forall x :: x in m[k := f(k)] ==> m[k := f(k)][x] == f(x)
  {
  }

  /** The catalog loop of the migration script. */
  method BuildCatalog(categories: seq<Category>, dirs: Dirs)
    returns (categoryArticles: map<string, seq<Article>>, allArticles: seq<Article>, slugToCats: map<string, seq<string>>)
    ensures allArticles == AllArticles(Encounters(categories, dirs))
    ensures slugToCats == SlugCats(Encounters(categories, dirs))
    ensures forall id :: id in categoryArticles <==> id in Dedup.KeySet(categories, CategoryId)
    ensures forall id :: id in categoryArticles ==> categoryArticles[id] == ArticlesIn(dirs, id)
  {
    categoryArticles := map[];
    allArticles := [];
    slugToCats := map[];
    var seen: set<string> := {};
    for i := 0 to |categories|
      invariant Tracks(Encounters(categories[..i], dirs), allArticles, seen, slugToCats)
      invariant ByCategory(categoryArticles, categories[..i], dirs)
    {
      var cat := categories[i];
      assert categories[..i + 1] == categories[..i] + [cat];
      EncountersSnoc(categories[..i], cat, dirs);
      ByCategorySnoc(categoryArticles, categories[..i], cat, dirs);
      if cat.id !in dirs {
        categoryArticles := categoryArticles[cat.id := []];
        assert Encounters(categories[..i + 1], dirs) == Encounters(categories[..i], dirs);
        continue;
      }
      var arts;
      arts, allArticles, seen, slugToCats :=
        ReadArticles(cat.id, MdFiles(dirs[cat.id]), Encounters(categories[..i], dirs), allArticles, seen, slugToCats);
      categoryArticles := categoryArticles[cat.id := arts];
    }
    assert categories[..|categories|] == categories;
    assert Encounters(categories, dirs) == Encounters(categories[..|categories|], dirs);
  }
}
