/**
 * The mapping document the migration writes
 * (scripts/migrate-structure.mjs:376-405): a `categories:` line, then for
 * each category its name, slug, icon and description, `hideInProd: true`
 * when hidden, and its articles (or `[]`), each with slug, title and short
 * title; an empty line closes every category.
 */
module Mapping {
  import opened Strings
  import Frontmatter
  import ShortTitle
  import Catalog

  const CategoriesHeader: string := "categories:"
  const NameLead: string := "  - name: "
  const SlugLead: string := "    slug: "
  const IconLead: string := "    icon: "
  const DescriptionLead: string := "    description: "
  const HiddenLine: string := "    hideInProd: true"
  const ArticlesLine: string := "    articles:"
  const NoArticlesLine: string := "      []"
  const ArticleSlugLead: string := "      - slug: "
  const ArticleTitleLead: string := "        title: "
  const ShortTitleLead: string := "        short_title: "
  const DefaultIcon: string := "no-image.svg"

  /** `cat.logo ? basename(cat.logo) : 'no-image.svg'` */
  function IconFile(c: Catalog.Category): string {
    match c.logo
    case Some(logo) => Basename(logo)
    case None => DefaultIcon
  }

  /** `categoryArticles.get(cat.id) || []` */
  function ArticlesOf(categoryArticles: map<string, seq<Catalog.Article>>, id: string): seq<Catalog.Article> {
    if id in categoryArticles then categoryArticles[id] else []
  }

  /** The three lines of one article entry. */
  function ArticleLines(a: Catalog.Article): seq<string> {
    [ ArticleSlugLead + a.slug,
      ArticleTitleLead + Frontmatter.YamlEscape(a.title),
      ShortTitleLead + Frontmatter.YamlEscape(ShortTitle.ShortTitle(a.title)) ]
  }

  function ArticleListLines(arts: seq<Catalog.Article>): (r: seq<string>)
    ensures |r| == 3 * |arts|
  {
    if |arts| == 0 then []
    else ArticleListLines(arts[..|arts| - 1]) + ArticleLines(arts[|arts| - 1])
  }

  /** The four field lines of a category. */
  function FieldLines(c: Catalog.Category): seq<string> {
    [ NameLead + Frontmatter.YamlEscape(c.title),
      SlugLead + c.id,
      IconLead + Frontmatter.YamlEscape(IconFile(c)),
      DescriptionLead + Frontmatter.YamlEscape(c.description) ]
  }

  /** The lines of a category up to and including `articles:`. */
  function CategoryHead(c: Catalog.Category): seq<string> {
    FieldLines(c) + (if c.hidden then [HiddenLine] else []) + [ArticlesLine]
  }

  /** The article entries, or `[]` for a category without articles. */
  function ArticleBlock(arts: seq<Catalog.Article>): seq<string> {
    if |arts| == 0 then [NoArticlesLine] else ArticleListLines(arts)
  }

  /** All lines of one category, the closing empty line included. */
  function CategoryLines(c: Catalog.Category, arts: seq<Catalog.Article>): seq<string> {
    CategoryHead(c) + ArticleBlock(arts) + [""]
  }

  /** `mappingLines` */
  function MappingLines(cats: seq<Catalog.Category>, categoryArticles: map<string, seq<Catalog.Article>>): (r: seq<string>)
    ensures |r| > 0 && r[0] == CategoriesHeader
  {
    if |cats| == 0 then [CategoriesHeader]
    else
      var c := cats[|cats| - 1];
      MappingLines(cats[..|cats| - 1], categoryArticles) + CategoryLines(c, ArticlesOf(categoryArticles, c.id))
  }

  /** `mappingContent` */
  function MappingContent(cats: seq<Catalog.Category>, categoryArticles: map<string, seq<Catalog.Article>>): string {
    Join(MappingLines(cats, categoryArticles), '\n') + "\n"
  }

  lemma ArticleListSnoc(arts: seq<Catalog.Article>, j: nat)
    requires j < |arts|
    ensures ArticleListLines(arts[..j + 1]) == ArticleListLines(arts[..j]) + ArticleLines(arts[j])
  {
    assert arts[..j + 1][..j] == arts[..j];
  }

  /** The inner loop over a category's articles. */
  method AppendArticles(linesIn: seq<string>, arts: seq<Catalog.Article>) returns (lines: seq<string>)
    ensures lines == linesIn + ArticleListLines(arts)
  {
    lines := linesIn;
    for j := 0 to |arts|
      invariant lines == linesIn + ArticleListLines(arts[..j])
    {
      ArticleListSnoc(arts, j);
      AppendAssoc(linesIn, ArticleListLines(arts[..j]), ArticleLines(arts[j]));
      var art := arts[j];
      var shortTitle := ShortTitle.GenerateShortTitle(art.title);
      lines := lines + [
        ArticleSlugLead + art.slug,
        ArticleTitleLead + Frontmatter.YamlEscape(art.title),
        ShortTitleLead + Frontmatter.YamlEscape(shortTitle)];
    }
    assert arts[..|arts|] == arts;
  }

  lemma MappingLinesPrefix(cats: seq<Catalog.Category>, categoryArticles: map<string, seq<Catalog.Article>>, i: nat)
    requires i < |cats|
    ensures MappingLines(cats[..i + 1], categoryArticles) ==
      MappingLines(cats[..i], categoryArticles) + CategoryLines(cats[i], ArticlesOf(categoryArticles, cats[i].id))
  {
    assert cats[..i + 1][..i] == cats[..i];
  }

  /** The pushes from `- name:` through `articles:`. */
  method HeadLines(cat: Catalog.Category) returns (head: seq<string>)
    ensures head == CategoryHead(cat)
  {
    var iconFile := if cat.logo.Some? then Basename(cat.logo.value) else DefaultIcon;
    var nameLine := NameLead + Frontmatter.YamlEscape(cat.title);
    var slugLine := SlugLead + cat.id;
    var iconLine := IconLead + Frontmatter.YamlEscape(iconFile);
    var descriptionLine := DescriptionLead + Frontmatter.YamlEscape(cat.description);
    head := [nameLine, slugLine, iconLine, descriptionLine];
    assert iconFile == IconFile(cat);
    assert head == FieldLines(cat);
    ghost var fields := head;
    if cat.hidden {
      head := head + [HiddenLine];
    }
    head := head + [ArticlesLine];
    HeadShape(fields, cat.hidden, HiddenLine, ArticlesLine, head);
  }

  lemma HeadShape(fields: seq<string>, hidden: bool, h: string, a: string, head: seq<string>)
    requires head == (if hidden then fields + [h] else fields) + [a]
    ensures head == fields + (if hidden then [h] else []) + [a]
  {
    if !hidden {
      assert fields + [] == fields;
    }
  }

  /** The lines one category appends. */
  method AppendCategory(linesIn: seq<string>, cat: Catalog.Category, arts: seq<Catalog.Article>) returns (lines: seq<string>)
    ensures lines == linesIn + CategoryLines(cat, arts)
  {
    var head := HeadLines(cat);
    var body: seq<string>;
    if |arts| == 0 {
      body := [NoArticlesLine];
    } else {
      body := AppendArticles([], arts);
      assert body == ArticleListLines(arts);
    }
    assert body == ArticleBlock(arts);
    lines := linesIn + (head + body + [""]);
  }

  /** The loop over the categories (lines 378-403) and the final join. */
  method BuildMapping(categories: seq<Catalog.Category>, categoryArticles: map<string, seq<Catalog.Article>>)
    returns (mappingContent: string)
    ensures mappingContent == MappingContent(categories, categoryArticles)
  {
    var mappingLines := [CategoriesHeader];
    for i := 0 to |categories|
      invariant mappingLines == MappingLines(categories[..i], categoryArticles)
    {
      MappingLinesPrefix(categories, categoryArticles, i);
      var cat := categories[i];
      var arts := if cat.id in categoryArticles then categoryArticles[cat.id] else [];
      mappingLines := AppendCategory(mappingLines, cat, arts);
    }
    assert categories[..|categories|] == categories;
    mappingContent := Join(mappingLines, '\n') + "\n";
  }
}
