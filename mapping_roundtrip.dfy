/**
 * The mapping document the migration writes (scripts/migrate-structure.mjs:376-405)
 * read back by `parseMapping` of the structure validator
 * (scripts/validate-structure.mjs:37-112): every category comes back, in
 * order, with its slug, its name, icon and description as written between
 * their quotes, its hidden flag, and its articles in order with their titles
 * and short titles.
 */
module MappingRoundTrip {
  import opened Strings
  import Blocks
  import Frontmatter
  import ShortTitle
  import Catalog
  import Mapping
  import MR = MappingReader

  /** What the reader makes of the entry the migration writes for an article. */
  function EntryOf(a: Catalog.Article): MR.ArticleEntry {
    MR.ArticleEntry(a.slug, Some(Frontmatter.QuotedText(a.title)),
      Some(Frontmatter.QuotedText(ShortTitle.ShortTitle(a.title))))
  }

  function EntriesOf(arts: seq<Catalog.Article>): (r: seq<MR.ArticleEntry>)
    ensures |r| == |arts|
  {
    if |arts| == 0 then [] else EntriesOf(arts[..|arts| - 1]) + [EntryOf(arts[|arts| - 1])]
  }

  /** What the reader makes of the lines the migration writes for a category. */
  function CategoryEntryOf(c: Catalog.Category, arts: seq<Catalog.Article>): MR.CategoryEntry {
    MR.CategoryEntry(
      Frontmatter.QuotedText(c.title),
      Some(c.id),
      Some(Frontmatter.QuotedText(Mapping.IconFile(c))),
      Some(Frontmatter.QuotedText(c.description)),
      if c.hidden then Some(true) else None,
      EntriesOf(arts))
  }

  function ReadBack(cats: seq<Catalog.Category>, categoryArticles: map<string, seq<Catalog.Article>>): (r: seq<MR.CategoryEntry>)
    ensures |r| == |cats|
  {
    if |cats| == 0 then []
    else
      var c := cats[|cats| - 1];
      ReadBack(cats[..|cats| - 1], categoryArticles) + [CategoryEntryOf(c, Mapping.ArticlesOf(categoryArticles, c.id))]
  }

  /** An article the mapping can carry: a URL-safe slug and a one-line title. */
  predicate CleanArticle(a: Catalog.Article) {
    IsSlug(a.slug) && '\n' !in a.title
  }

  /** A category the mapping can carry: a URL-safe id and one-line texts. */
  predicate CleanCategory(c: Catalog.Category) {
    IsSlug(c.id) && '\n' !in c.title && '\n' !in c.description && '\n' !in Mapping.IconFile(c)
  }

  predicate CleanArticles(arts: seq<Catalog.Article>) {
    forall i :: 0 <= i < |arts| ==> CleanArticle(arts[i])
  }

  predicate Clean(cats: seq<Catalog.Category>, categoryArticles: map<string, seq<Catalog.Article>>) {
    forall i :: 0 <= i < |cats| ==>
      CleanCategory(cats[i]) && CleanArticles(Mapping.ArticlesOf(categoryArticles, cats[i].id))
  }

  // ---------------------------------------------------------------------
  // Reading one value back

  lemma KeyLine(full: string, lead: string, key: string, v: string)
    requires full == lead + key + ": "
    ensures full + v == lead + key + ":" + (" " + v)
  {
  }

  /** A slug-safe value comes out of trim and quote stripping unchanged. */
  lemma PlainValue(v: string)
    requires IsSlug(v)
    ensures StripQuotes(Trim(" " + v)) == v
  {
    SlugCharNotSpace(v[0]);
    SlugCharNotSpace(v[|v| - 1]);
    TrimAfterSpaces(" ", v);
  }

  /** A value written by `yamlEscape` comes out of trim and quote stripping as the text between its quotes. */
  lemma QuotedValue(s: string)
    ensures StripQuotes(Trim(" " + Frontmatter.YamlEscape(s))) == Frontmatter.QuotedText(s)
  {
    var y := Frontmatter.YamlEscape(s);
    assert y == "\"" + Frontmatter.QuotedText(s) + "\"";
    SlugCharNotSpace(y[0]);
    TrimAfterSpaces(" ", y);
    UnquoteDoubleQuoted(Frontmatter.QuotedText(s));
  }

  /** A slug-safe value behind `key: ` reads back unchanged. */
  lemma ReadPlain(full: string, lead: string, key: string, v: string)
    requires full == lead + key + ": " && key != "" && key[0] !in lead && IsSlug(v)
    ensures MR.ExtractValue(full + v, key) == v
  {
    KeyLine(full, lead, key, v);
    MR.ExtractAfter(lead, key, " " + v);
    PlainValue(v);
  }

  /** A value written by `yamlEscape` behind `key: ` reads back as the text between its quotes. */
  lemma ReadQuoted(full: string, lead: string, key: string, s: string)
    requires full == lead + key + ": " && key != "" && key[0] !in lead
    ensures MR.ExtractValue(full + Frontmatter.YamlEscape(s), key) == Frontmatter.QuotedText(s)
  {
    KeyLine(full, lead, key, Frontmatter.YamlEscape(s));
    MR.ExtractAfter(lead, key, " " + Frontmatter.YamlEscape(s));
    QuotedValue(s);
  }

  /** A line that starts with `pre` matches every pattern `pre` matches. */
  lemma LeadOf(line: string, pre: string, n: nat, text: string)
    requires MR.Lead(pre, n, text) && StartsWith(line, pre)
    ensures MR.Lead(line, n, text)
  {
    assert line[..|pre|] == pre;
    assert line[n..n + |text|] == pre[n..n + |text|];
  }

  // ---------------------------------------------------------------------
  // The line leads the migration writes, as the reader's patterns see them

  const DashLead: string := "  - "
  const Pad4: string := "    "
  const ArticleDashLead: string := "      - "
  const Pad8: string := "        "

  lemma NameLeadFacts()
    ensures MR.Lead(Mapping.NameLead, 2, MR.NameMark)
    ensures Mapping.NameLead == DashLead + MR.NameKey + ": " && MR.NameKey[0] !in DashLead
  {
  }

  lemma SlugLeadFacts()
    ensures MR.Lead(Mapping.SlugLead, 4, MR.SlugField)
    ensures Mapping.SlugLead == Pad4 + MR.SlugKey + ": " && MR.SlugKey[0] !in Pad4
  {
  }

  lemma IconLeadFacts()
    ensures MR.Lead(Mapping.IconLead, 4, MR.IconField)
    ensures Mapping.IconLead == Pad4 + MR.IconKey + ": " && MR.IconKey[0] !in Pad4
  {
  }

  lemma DescriptionLeadFacts()
    ensures MR.Lead(Mapping.DescriptionLead, 4, MR.DescriptionField)
    ensures Mapping.DescriptionLead == Pad4 + MR.DescriptionKey + ": " && MR.DescriptionKey[0] !in Pad4
  {
  }

  lemma HiddenLineFacts()
    ensures MR.Lead(Mapping.HiddenLine, 4, MR.HideField)
    ensures Mapping.HiddenLine == (Pad4 + MR.HideKey + ": ") + MR.TrueText && MR.HideKey[0] !in Pad4
    ensures IsSlug(MR.TrueText)
  {
    HiddenLineLead();
    HiddenLineSplit();
  }

  lemma HiddenLineLead()
    ensures MR.Lead(Mapping.HiddenLine, 4, MR.HideField)
  {
  }

  lemma HiddenLineSplit()
    ensures Mapping.HiddenLine == (Pad4 + MR.HideKey + ": ") + MR.TrueText && MR.HideKey[0] !in Pad4
  {
  }

  lemma ArticlesLineFacts()
    ensures MR.Lead(Mapping.ArticlesLine, 4, MR.ArticlesField)
    ensures Mapping.ArticlesLine == Pad4 + MR.ArticlesField
    ensures !EndsWith(MR.ArticlesField, MR.EmptyList)
    ensures !IsSpace(MR.ArticlesField[0]) && !IsSpace(MR.ArticlesField[|MR.ArticlesField| - 1])
    ensures forall i :: 0 <= i < |Pad4| ==> IsSpace(Pad4[i])
  {
  }

  lemma NoArticlesLineFacts()
    ensures IsSpace(Mapping.NoArticlesLine[4])
    ensures |Mapping.NoArticlesLine| < 6 + |MR.ArticleMark|
  {
  }

  lemma ArticleSlugLeadFacts()
    ensures MR.Lead(Mapping.ArticleSlugLead, 6, MR.ArticleMark)
    ensures Mapping.ArticleSlugLead == ArticleDashLead + MR.SlugKey + ": " && MR.SlugKey[0] !in ArticleDashLead
  {
  }

  lemma TitleLeadFacts()
    ensures MR.Lead(Mapping.ArticleTitleLead, 8, MR.TitleField)
    ensures Mapping.ArticleTitleLead == Pad8 + MR.TitleKey + ": " && MR.TitleKey[0] !in Pad8
  {
  }

  lemma ShortTitleLeadFacts()
    ensures MR.Lead(Mapping.ShortTitleLead, 8, MR.ShortTitleField)
    ensures Mapping.ShortTitleLead == Pad8 + MR.ShortTitleKey + ": " && MR.ShortTitleKey[0] !in Pad8
  {
  }

  // ---------------------------------------------------------------------
  // One line at a time

  lemma NameLineRead(c: Catalog.Category)
    ensures MR.IsNameLine(Mapping.FieldLines(c)[0])
    ensures MR.Start(Mapping.FieldLines(c)[0]) ==
      MR.Draft(MR.CategoryEntry(Frontmatter.QuotedText(c.title), None, None, None, None, []), None, false)
  {
    var y := Frontmatter.YamlEscape(c.title);
    NameLeadFacts();
    LeadOf(Mapping.NameLead + y, Mapping.NameLead, 2, MR.NameMark);
    ReadQuoted(Mapping.NameLead, DashLead, MR.NameKey, c.title);
  }

  lemma SlugLineRead(d: MR.Draft, id: string)
    requires !d.inArticles && IsSlug(id)
    ensures MR.Update(d, Mapping.SlugLead + id) == d.(cat := d.cat.(slug := Some(id)))
  {
    var line := Mapping.SlugLead + id;
    SlugLeadFacts();
    MR.FieldFacts();
    LeadOf(line, Mapping.SlugLead, 4, MR.SlugField);
    MR.NotSkipped(line, 4, MR.SlugField);
    ReadPlain(Mapping.SlugLead, Pad4, MR.SlugKey, id);
  }

  lemma IconLineRead(d: MR.Draft, f: string)
    ensures MR.Update(d, Mapping.IconLead + Frontmatter.YamlEscape(f)) ==
      d.(cat := d.cat.(icon := Some(Frontmatter.QuotedText(f))))
  {
    var line := Mapping.IconLead + Frontmatter.YamlEscape(f);
    IconLeadFacts();
    MR.FieldFacts();
    LeadOf(line, Mapping.IconLead, 4, MR.IconField);
    MR.NotSkipped(line, 4, MR.IconField);
    MR.LeadsDiffer(line, 4, MR.IconField, MR.SlugField);
    ReadQuoted(Mapping.IconLead, Pad4, MR.IconKey, f);
  }

  lemma DescriptionLineRead(d: MR.Draft, s: string)
    ensures MR.Update(d, Mapping.DescriptionLead + Frontmatter.YamlEscape(s)) ==
      d.(cat := d.cat.(description := Some(Frontmatter.QuotedText(s))))
  {
    var line := Mapping.DescriptionLead + Frontmatter.YamlEscape(s);
    DescriptionLeadFacts();
    MR.FieldFacts();
    LeadOf(line, Mapping.DescriptionLead, 4, MR.DescriptionField);
    MR.NotSkipped(line, 4, MR.DescriptionField);
    MR.LeadsDiffer(line, 4, MR.DescriptionField, MR.SlugField);
    MR.LeadsDiffer(line, 4, MR.DescriptionField, MR.IconField);
    ReadQuoted(Mapping.DescriptionLead, Pad4, MR.DescriptionKey, s);
  }

  lemma HiddenLineRead(d: MR.Draft)
    ensures MR.Update(d, Mapping.HiddenLine) == d.(cat := d.cat.(hideInProd := Some(true)))
  {
    var line := Mapping.HiddenLine;
    HiddenLineFacts();
    MR.FieldFacts();
    MR.NotSkipped(line, 4, MR.HideField);
    MR.LeadsDiffer(line, 4, MR.HideField, MR.SlugField);
    MR.LeadsDiffer(line, 4, MR.HideField, MR.IconField);
    MR.LeadsDiffer(line, 4, MR.HideField, MR.DescriptionField);
    ReadPlain(Pad4 + MR.HideKey + ": ", Pad4, MR.HideKey, MR.TrueText);
  }

  lemma ArticlesLineRead(d: MR.Draft)
    ensures MR.Update(d, Mapping.ArticlesLine) == d.(inArticles := true)
  {
    ArticlesLineFacts();
    MR.ArticlesLine(d, Mapping.ArticlesLine);
    TrimAfterSpaces(Pad4, MR.ArticlesField);
  }

  lemma NoArticlesLineRead(d: MR.Draft)
    ensures MR.Update(d, Mapping.NoArticlesLine) == d
  {
    var line := Mapping.NoArticlesLine;
    NoArticlesLineFacts();
    MR.FieldFacts();
    MR.NotShallower(line, 4, MR.SlugField);
    MR.NotShallower(line, 4, MR.IconField);
    MR.NotShallower(line, 4, MR.DescriptionField);
    MR.NotShallower(line, 4, MR.HideField);
    MR.NotShallower(line, 4, MR.ArticlesField);
    MR.NoDeepLead(d, line);
  }

  lemma BlankLineRead(d: MR.Draft)
    ensures MR.Update(d, "") == d
  {
  }

  lemma ArticleSlugLineRead(d: MR.Draft, slug: string)
    requires d.inArticles && IsSlug(slug)
    ensures MR.Update(d, Mapping.ArticleSlugLead + slug) == MR.Draft(MR.Flush(d), Some(MR.ArticleEntry(slug, None, None)), true)
  {
    var line := Mapping.ArticleSlugLead + slug;
    ArticleSlugLeadFacts();
    LeadOf(line, Mapping.ArticleSlugLead, 6, MR.ArticleMark);
    MR.ArticleLineIsArticle(d, line);
    ReadPlain(Mapping.ArticleSlugLead, ArticleDashLead, MR.SlugKey, slug);
  }

  /** A line indented by eight is none of the category's fields and opens no article entry. */
  lemma DeepLine(line: string, pre: string, t: string)
    requires MR.Lead(pre, 8, t) && StartsWith(line, pre) && |t| > 0 && !IsSpace(t[0]) && t[0] != '#'
    ensures MR.Lead(line, 8, t) && !MR.Skipped(line)
    ensures !MR.Lead(line, 4, MR.SlugField) && !MR.Lead(line, 4, MR.IconField)
    ensures !MR.Lead(line, 4, MR.DescriptionField) && !MR.Lead(line, 4, MR.HideField)
    ensures !MR.Lead(line, 4, MR.ArticlesField) && !MR.Lead(line, 6, MR.ArticleMark)
  {
    LeadOf(line, pre, 8, t);
    MR.NotSkipped(line, 8, t);
    MR.FieldFacts();
    MR.NotShallower(line, 4, MR.SlugField);
    MR.NotShallower(line, 4, MR.IconField);
    MR.NotShallower(line, 4, MR.DescriptionField);
    MR.NotShallower(line, 4, MR.HideField);
    MR.NotShallower(line, 4, MR.ArticlesField);
    MR.NotShallower(line, 6, MR.ArticleMark);
  }

  lemma TitleLineRead(d: MR.Draft, s: string)
    requires d.inArticles && d.pending.Some?
    ensures MR.Update(d, Mapping.ArticleTitleLead + Frontmatter.YamlEscape(s)) ==
      d.(pending := Some(d.pending.value.(title := Some(Frontmatter.QuotedText(s)))))
  {
    var line := Mapping.ArticleTitleLead + Frontmatter.YamlEscape(s);
    TitleLeadFacts();
    MR.FieldFacts();
    DeepLine(line, Mapping.ArticleTitleLead, MR.TitleField);
    ReadQuoted(Mapping.ArticleTitleLead, Pad8, MR.TitleKey, s);
  }

  lemma ShortTitleLineRead(d: MR.Draft, s: string)
    requires d.inArticles && d.pending.Some?
    ensures MR.Update(d, Mapping.ShortTitleLead + Frontmatter.YamlEscape(s)) ==
      d.(pending := Some(d.pending.value.(shortTitle := Some(Frontmatter.QuotedText(s)))))
  {
    var line := Mapping.ShortTitleLead + Frontmatter.YamlEscape(s);
    ShortTitleLeadFacts();
    MR.FieldFacts();
    DeepLine(line, Mapping.ShortTitleLead, MR.ShortTitleField);
    MR.LeadsDiffer(line, 8, MR.ShortTitleField, MR.TitleField);
    ReadQuoted(Mapping.ShortTitleLead, Pad8, MR.ShortTitleKey, s);
  }

  // ---------------------------------------------------------------------
  // Reading one category back

  /** The three lines of an article entry close the previous entry and open this one. */
  lemma EntryRead(d: MR.Draft, slug: string, title: string, short: string, lines: seq<string>)
    requires d.inArticles && IsSlug(slug)
    requires lines == [Mapping.ArticleSlugLead + slug, Mapping.ArticleTitleLead + Frontmatter.YamlEscape(title),
                       Mapping.ShortTitleLead + Frontmatter.YamlEscape(short)]
    ensures Blocks.UpdateAll(MR.Reader(), d, lines) ==
      MR.Draft(MR.Flush(d), Some(MR.ArticleEntry(slug, Some(Frontmatter.QuotedText(title)), Some(Frontmatter.QuotedText(short)))), true)
  {
    var d1 := MR.Draft(MR.Flush(d), Some(MR.ArticleEntry(slug, None, None)), true);
    var d2 := d1.(pending := Some(d1.pending.value.(title := Some(Frontmatter.QuotedText(title)))));
    ArticleSlugLineRead(d, slug);
    TitleLineRead(d1, title);
    ShortTitleLineRead(d2, short);
    Blocks.UpdateAllThree(MR.Reader(), d, lines[0], lines[1], lines[2]);
  }

  lemma ArticleRead(d: MR.Draft, a: Catalog.Article)
    requires d.inArticles && IsSlug(a.slug)
    ensures Blocks.UpdateAll(MR.Reader(), d, Mapping.ArticleLines(a)) ==
      MR.Draft(MR.Flush(d), Some(EntryOf(a)), true)
  {
    EntryRead(d, a.slug, a.title, ShortTitle.ShortTitle(a.title), Mapping.ArticleLines(a));
  }

  /** The entries of an article list are collected in order. */
  lemma {:induction false} ListRead(d: MR.Draft, arts: seq<Catalog.Article>)
    requires d.inArticles && forall i :: 0 <= i < |arts| ==> IsSlug(arts[i].slug)
    ensures Blocks.UpdateAll(MR.Reader(), d, Mapping.ArticleListLines(arts)).inArticles
    ensures MR.Flush(Blocks.UpdateAll(MR.Reader(), d, Mapping.ArticleListLines(arts))) ==
      MR.Flush(d).(articles := MR.Flush(d).articles + EntriesOf(arts))
  {
    if |arts| == 0 {
      assert MR.Flush(d).articles + EntriesOf(arts) == MR.Flush(d).articles;
    } else {
      var init := arts[..|arts| - 1];
      var last := arts[|arts| - 1];
      ListRead(d, init);
      var g := MR.Reader();
      Blocks.UpdateAllAppend(g, d, Mapping.ArticleListLines(init), Mapping.ArticleLines(last));
      var e := Blocks.UpdateAll(g, d, Mapping.ArticleListLines(init));
      ArticleRead(e, last);
      AppendAssoc(MR.Flush(d).articles, EntriesOf(init), [EntryOf(last)]);
    }
  }

  /** The slug, icon and description lines after the name line. */
  lemma FieldsRead(c: Catalog.Category)
    requires IsSlug(c.id)
    ensures Blocks.UpdateAll(MR.Reader(), MR.Start(Mapping.FieldLines(c)[0]), Mapping.FieldLines(c)[1..]) ==
      MR.Draft(CategoryEntryOf(c, []).(hideInProd := None), None, false)
  {
    var f := Mapping.FieldLines(c);
    NameLineRead(c);
    var d0 := MR.Start(f[0]);
    SlugLineRead(d0, c.id);
    var d1 := d0.(cat := d0.cat.(slug := Some(c.id)));
    IconLineRead(d1, Mapping.IconFile(c));
    var d2 := d1.(cat := d1.cat.(icon := Some(Frontmatter.QuotedText(Mapping.IconFile(c)))));
    DescriptionLineRead(d2, c.description);
    Blocks.UpdateAllThree(MR.Reader(), d0, f[1], f[2], f[3]);
    assert f[1..] == [f[1], f[2], f[3]];
  }

  /** `hideInProd: true`, written only for a hidden category. */
  lemma HiddenRead(d: MR.Draft, hidden: bool)
    ensures Blocks.UpdateAll(MR.Reader(), d, if hidden then [Mapping.HiddenLine] else []) ==
      if hidden then d.(cat := d.cat.(hideInProd := Some(true))) else d
  {
    if hidden {
      HiddenLineRead(d);
      Blocks.UpdateAllOne(MR.Reader(), d, Mapping.HiddenLine);
    }
  }

  /** The lines of a category head after the name, through `articles:`. */
  lemma HeadRead(c: Catalog.Category)
    requires IsSlug(c.id)
    ensures Blocks.UpdateAll(MR.Reader(), MR.Start(Mapping.FieldLines(c)[0]), Mapping.CategoryHead(c)[1..]) ==
      MR.Draft(CategoryEntryOf(c, []), None, true)
  {
    var g := MR.Reader();
    var f := Mapping.FieldLines(c);
    var d0 := MR.Start(f[0]);
    var hid := if c.hidden then [Mapping.HiddenLine] else [];
    FieldsRead(c);
    var d3 := MR.Draft(CategoryEntryOf(c, []).(hideInProd := None), None, false);
    HiddenRead(d3, c.hidden);
    var d4 := MR.Draft(CategoryEntryOf(c, []), None, false);
    Blocks.UpdateAllAppend(g, d0, f[1..], hid);
    ArticlesLineRead(d4);
    Blocks.UpdateAllSnoc(g, d0, f[1..] + hid, Mapping.ArticlesLine);
    DropFirst(f, hid + [Mapping.ArticlesLine]);
    AppendAssoc(f, hid, [Mapping.ArticlesLine]);
    AppendAssoc(f[1..], hid, [Mapping.ArticlesLine]);
  }

  /** The article block and the closing empty line add the category's entries. */
  lemma BlockRead(d: MR.Draft, arts: seq<Catalog.Article>)
    requires d.inArticles && d.pending.None?
    requires forall i :: 0 <= i < |arts| ==> IsSlug(arts[i].slug)
    ensures MR.Flush(Blocks.UpdateAll(MR.Reader(), d, Mapping.ArticleBlock(arts) + [""])) ==
      d.cat.(articles := d.cat.articles + EntriesOf(arts))
  {
    var g := MR.Reader();
    var e := Blocks.UpdateAll(g, d, Mapping.ArticleBlock(arts));
    if |arts| == 0 {
      NoArticlesLineRead(d);
      Blocks.UpdateAllOne(g, d, Mapping.NoArticlesLine);
      assert d.cat.articles + EntriesOf(arts) == d.cat.articles;
    } else {
      ListRead(d, arts);
    }
    BlankLineRead(e);
    Blocks.UpdateAllSnoc(g, d, Mapping.ArticleBlock(arts), "");
  }

  /** The head of a category brings the reader into its article list. */
  lemma BodyRead(c: Catalog.Category, rest: seq<string>)
    requires IsSlug(c.id)
    ensures Blocks.UpdateAll(MR.Reader(), MR.Start(Mapping.FieldLines(c)[0]), Mapping.CategoryHead(c)[1..] + rest) ==
      Blocks.UpdateAll(MR.Reader(), MR.Draft(CategoryEntryOf(c, []), None, true), rest)
  {
    HeadRead(c);
    Blocks.UpdateAllAppend(MR.Reader(), MR.Start(Mapping.FieldLines(c)[0]), Mapping.CategoryHead(c)[1..], rest);
  }

  /** The lines after a category's name line read back as that category. */
  lemma CategoryRead(c: Catalog.Category, arts: seq<Catalog.Article>)
    requires IsSlug(c.id) && forall i :: 0 <= i < |arts| ==> IsSlug(arts[i].slug)
    ensures Blocks.Block(MR.Reader(), Mapping.CategoryLines(c, arts)[0], Mapping.CategoryLines(c, arts)[1..]) ==
      CategoryEntryOf(c, arts)
  {
    var head := Mapping.CategoryHead(c);
    var block := Mapping.ArticleBlock(arts) + [""];
    DropFirst(head, block);
    AppendAssoc(head, Mapping.ArticleBlock(arts), [""]);
    BodyRead(c, block);
    BlockRead(MR.Draft(CategoryEntryOf(c, []), None, true), arts);
  }

  // ---------------------------------------------------------------------
  // The whole document

  /** A line whose third character is a space cannot be a `- name:` line. */
  predicate Indented(line: string) {
    |line| > 2 && line[2] == ' '
  }

  predicate NoNames(lines: seq<string>) {
    forall i :: 0 <= i < |lines| ==> !MR.IsNameLine(lines[i])
  }

  predicate OneLine(lines: seq<string>) {
    forall i :: 0 <= i < |lines| ==> '\n' !in lines[i]
  }

  lemma NoNamesAppend(a: seq<string>, b: seq<string>)
    requires NoNames(a) && NoNames(b)
    ensures NoNames(a + b)
  {
    forall i | 0 <= i < |a + b| ensures !MR.IsNameLine((a + b)[i]) {
      if i < |a| {
        assert (a + b)[i] == a[i];
      } else {
        assert (a + b)[i] == b[i - |a|];
      }
    }
  }

  lemma OneLineAppend(a: seq<string>, b: seq<string>)
    requires OneLine(a) && OneLine(b)
    ensures OneLine(a + b)
  {
    forall i | 0 <= i < |a + b| ensures '\n' !in (a + b)[i] {
      if i < |a| {
        assert (a + b)[i] == a[i];
      } else {
        assert (a + b)[i] == b[i - |a|];
      }
    }
  }

  lemma IndentFacts()
    ensures Indented(Mapping.SlugLead) && Indented(Mapping.IconLead) && Indented(Mapping.DescriptionLead)
    ensures Indented(Mapping.HiddenLine) && Indented(Mapping.ArticlesLine) && Indented(Mapping.NoArticlesLine)
    ensures Indented(Mapping.ArticleSlugLead) && Indented(Mapping.ArticleTitleLead) && Indented(Mapping.ShortTitleLead)
    ensures IsSpace(' ') && |MR.NameMark| > 0 && !IsSpace(MR.NameMark[0])
  {
  }

  lemma NewlineFacts()
    ensures '\n' !in Mapping.NameLead && '\n' !in Mapping.SlugLead && '\n' !in Mapping.IconLead
    ensures '\n' !in Mapping.DescriptionLead && '\n' !in Mapping.HiddenLine && '\n' !in Mapping.ArticlesLine
    ensures '\n' !in Mapping.NoArticlesLine && '\n' !in Mapping.ArticleSlugLead
    ensures '\n' !in Mapping.ArticleTitleLead && '\n' !in Mapping.ShortTitleLead
  {
    CategoryLeadsOneLine();
    ArticleLeadsOneLine();
  }

  lemma CategoryLeadsOneLine()
    ensures '\n' !in Mapping.NameLead && '\n' !in Mapping.SlugLead && '\n' !in Mapping.IconLead
    ensures '\n' !in Mapping.DescriptionLead && '\n' !in Mapping.HiddenLine && '\n' !in Mapping.ArticlesLine
  {
  }

  lemma ArticleLeadsOneLine()
    ensures '\n' !in Mapping.NoArticlesLine && '\n' !in Mapping.ArticleSlugLead
    ensures '\n' !in Mapping.ArticleTitleLead && '\n' !in Mapping.ShortTitleLead
  {
  }

  lemma IndentedLine(pre: string, v: string)
    requires Indented(pre) && IsSpace(' ') && |MR.NameMark| > 0 && !IsSpace(MR.NameMark[0])
    ensures !MR.IsNameLine(pre + v)
  {
    assert (pre + v)[2] == ' ';
    MR.NotShallower(pre + v, 2, MR.NameMark);
  }

  lemma SlugOneLine(s: string)
    requires IsSlug(s)
    ensures '\n' !in s
  {
  }

  lemma NoNamesThree(x: string, y: string, z: string)
    requires !MR.IsNameLine(x) && !MR.IsNameLine(y) && !MR.IsNameLine(z)
    ensures NoNames([x, y, z])
  {
  }

  lemma OneLineThree(x: string, y: string, z: string)
    requires '\n' !in x && '\n' !in y && '\n' !in z
    ensures OneLine([x, y, z])
  {
  }

  lemma OneLineCons(x: string, rest: seq<string>)
    requires '\n' !in x && OneLine(rest)
    ensures OneLine([x] + rest)
  {
    OneLineAppend([x], rest);
  }

  lemma NoNamesOne(x: string)
    requires !MR.IsNameLine(x)
    ensures NoNames([x])
  {
  }

  lemma OneLineOne(x: string)
    requires '\n' !in x
    ensures OneLine([x])
  {
  }

  /** The three lines of an article entry: no name line, no line break. */
  lemma ArticleLinesClean(a: Catalog.Article)
    requires CleanArticle(a)
    ensures NoNames(Mapping.ArticleLines(a)) && OneLine(Mapping.ArticleLines(a))
  {
    var l := Mapping.ArticleLines(a);
    IndentFacts();
    NewlineFacts();
    IndentedLine(Mapping.ArticleSlugLead, a.slug);
    IndentedLine(Mapping.ArticleTitleLead, Frontmatter.YamlEscape(a.title));
    IndentedLine(Mapping.ShortTitleLead, Frontmatter.YamlEscape(ShortTitle.ShortTitle(a.title)));
    NoNamesThree(l[0], l[1], l[2]);
    SlugOneLine(a.slug);
    Frontmatter.YamlEscapeOneLine(a.title);
    ShortTitle.ShortTitleOneLine(a.title);
    Frontmatter.YamlEscapeOneLine(ShortTitle.ShortTitle(a.title));
    OneLineThree(l[0], l[1], l[2]);
  }

  lemma {:induction false} ListClean(arts: seq<Catalog.Article>)
    requires CleanArticles(arts)
    ensures NoNames(Mapping.ArticleListLines(arts)) && OneLine(Mapping.ArticleListLines(arts))
  {
    if |arts| > 0 {
      var init := arts[..|arts| - 1];
      assert CleanArticles(init) by {
        forall i | 0 <= i < |init| ensures CleanArticle(init[i]) {
          assert init[i] == arts[i];
        }
      }
      ListClean(init);
      ArticleLinesClean(arts[|arts| - 1]);
      NoNamesAppend(Mapping.ArticleListLines(init), Mapping.ArticleLines(arts[|arts| - 1]));
      OneLineAppend(Mapping.ArticleListLines(init), Mapping.ArticleLines(arts[|arts| - 1]));
    }
  }

  /** The field lines of a category: only the first is a name line. */
  lemma FieldsNoNames(c: Catalog.Category)
    ensures MR.IsNameLine(Mapping.FieldLines(c)[0]) && NoNames(Mapping.FieldLines(c)[1..])
  {
    NameLineRead(c);
    var slug, icon, description := SlugLine(c), IconLine(c), DescriptionLine(c);
    FieldsAre(c);
    NoNamesAt(Mapping.SlugLead, c.id);
    NoNamesAt(Mapping.IconLead, Frontmatter.YamlEscape(Mapping.IconFile(c)));
    NoNamesAt(Mapping.DescriptionLead, Frontmatter.YamlEscape(c.description));
    NoNamesThree(slug, icon, description);
    FourTail(Mapping.FieldLines(c), NameLine(c), slug, icon, description);
  }

  /** The field lines of a clean category hold no line break. */
  lemma FieldsOneLine(c: Catalog.Category)
    requires CleanCategory(c)
    ensures OneLine(Mapping.FieldLines(c))
  {
    var name, slug, icon, description := NameLine(c), SlugLine(c), IconLine(c), DescriptionLine(c);
    FieldsAre(c);
    CategoryLeadsOneLine();
    SlugOneLine(c.id);
    Frontmatter.YamlEscapeOneLine(c.title);
    Frontmatter.YamlEscapeOneLine(Mapping.IconFile(c));
    Frontmatter.YamlEscapeOneLine(c.description);
    JoinOneLine(Mapping.NameLead, Frontmatter.YamlEscape(c.title));
    JoinOneLine(Mapping.SlugLead, c.id);
    JoinOneLine(Mapping.IconLead, Frontmatter.YamlEscape(Mapping.IconFile(c)));
    JoinOneLine(Mapping.DescriptionLead, Frontmatter.YamlEscape(c.description));
    OneLineThree(slug, icon, description);
    FourTail(Mapping.FieldLines(c), name, slug, icon, description);
    OneLineCons(name, [slug, icon, description]);
  }

  function NameLine(c: Catalog.Category): string { Mapping.NameLead + Frontmatter.YamlEscape(c.title) }
  function SlugLine(c: Catalog.Category): string { Mapping.SlugLead + c.id }
  function IconLine(c: Catalog.Category): string { Mapping.IconLead + Frontmatter.YamlEscape(Mapping.IconFile(c)) }
  function DescriptionLine(c: Catalog.Category): string { Mapping.DescriptionLead + Frontmatter.YamlEscape(c.description) }

  lemma FieldsAre(c: Catalog.Category)
    ensures Mapping.FieldLines(c) == [NameLine(c), SlugLine(c), IconLine(c), DescriptionLine(c)]
  {
  }

  /** Four lines split into the first and the other three. */
  lemma FourTail<T>(f: seq<T>, a: T, b: T, c: T, d: T)
    requires f == [a, b, c, d]
    ensures f == [a] + [b, c, d] && f[1..] == [b, c, d]
  {
  }

  /** An indented lead followed by any value is not a name line. */
  lemma NoNamesAt(pre: string, v: string)
    requires pre == Mapping.SlugLead || pre == Mapping.IconLead || pre == Mapping.DescriptionLead
    ensures !MR.IsNameLine(pre + v)
  {
    IndentFacts();
    IndentedLine(pre, v);
  }

  lemma JoinOneLine(a: string, b: string)
    requires '\n' !in a && '\n' !in b
    ensures '\n' !in a + b
  {
  }

  /** `hideInProd: true` when hidden, then `articles:`. */
  lemma FlagsClean(hidden: bool)
    ensures NoNames((if hidden then [Mapping.HiddenLine] else []) + [Mapping.ArticlesLine])
    ensures OneLine((if hidden then [Mapping.HiddenLine] else []) + [Mapping.ArticlesLine])
  {
    IndentFacts();
    NewlineFacts();
    IndentedLine(Mapping.HiddenLine, "");
    IndentedLine(Mapping.ArticlesLine, "");
    assert Mapping.HiddenLine + "" == Mapping.HiddenLine && Mapping.ArticlesLine + "" == Mapping.ArticlesLine;
    var hid := if hidden then [Mapping.HiddenLine] else [];
    if hidden {
      NoNamesOne(Mapping.HiddenLine);
      OneLineOne(Mapping.HiddenLine);
    }
    NoNamesOne(Mapping.ArticlesLine);
    OneLineOne(Mapping.ArticlesLine);
    NoNamesAppend(hid, [Mapping.ArticlesLine]);
    OneLineAppend(hid, [Mapping.ArticlesLine]);
  }

  /** The head of a category: only its first line is a name line. */
  lemma HeadClean(c: Catalog.Category)
    requires CleanCategory(c)
    ensures MR.IsNameLine(Mapping.CategoryHead(c)[0])
    ensures NoNames(Mapping.CategoryHead(c)[1..]) && OneLine(Mapping.CategoryHead(c))
  {
    var f := Mapping.FieldLines(c);
    var rest := (if c.hidden then [Mapping.HiddenLine] else []) + [Mapping.ArticlesLine];
    FieldsNoNames(c);
    FieldsOneLine(c);
    FlagsClean(c.hidden);
    NoNamesAppend(f[1..], rest);
    OneLineAppend(f, rest);
    DropFirst(f, rest);
    AppendAssoc(f, if c.hidden then [Mapping.HiddenLine] else [], [Mapping.ArticlesLine]);
  }

  /** The article block and the closing empty line. */
  lemma BlockClean(arts: seq<Catalog.Article>)
    requires CleanArticles(arts)
    ensures NoNames(Mapping.ArticleBlock(arts) + [""]) && OneLine(Mapping.ArticleBlock(arts) + [""])
  {
    if |arts| == 0 {
      IndentFacts();
      NewlineFacts();
      IndentedLine(Mapping.NoArticlesLine, "");
      assert Mapping.NoArticlesLine + "" == Mapping.NoArticlesLine;
      NoNamesOne(Mapping.NoArticlesLine);
      OneLineOne(Mapping.NoArticlesLine);
    } else {
      ListClean(arts);
    }
    NoNamesOne("");
    OneLineOne("");
    NoNamesAppend(Mapping.ArticleBlock(arts), [""]);
    OneLineAppend(Mapping.ArticleBlock(arts), [""]);
  }

  lemma CategoryClean(c: Catalog.Category, arts: seq<Catalog.Article>)
    requires CleanCategory(c) && CleanArticles(arts)
    ensures MR.IsNameLine(Mapping.CategoryLines(c, arts)[0])
    ensures NoNames(Mapping.CategoryLines(c, arts)[1..]) && OneLine(Mapping.CategoryLines(c, arts))
  {
    var head := Mapping.CategoryHead(c);
    var block := Mapping.ArticleBlock(arts) + [""];
    HeadClean(c);
    BlockClean(arts);
    AppendAssoc(head, Mapping.ArticleBlock(arts), [""]);
    DropFirst(head, block);
    NoNamesAppend(head[1..], block);
    OneLineAppend(head, block);
  }

  lemma HeaderSkipped()
    ensures MR.Skipped(Mapping.CategoriesHeader)
  {
    assert Mapping.CategoriesHeader == MR.TopKey;
    assert StartsWith(Mapping.CategoriesHeader, MR.TopKey);
  }

  lemma HeaderOneLine()
    ensures OneLine([Mapping.CategoriesHeader])
  {
  }

  /** The `categories:` line opens no category. */
  lemma HeaderRead()
    ensures MR.ReadLines([Mapping.CategoriesHeader]) == []
  {
    HeaderSkipped();
    assert Blocks.NoMarker(MR.Reader(), [Mapping.CategoriesHeader]);
    Blocks.ParseNoMarker(MR.Reader(), [Mapping.CategoriesHeader]);
  }

  /** The empty string after the final line break changes nothing. */
  lemma TrailingBlank(lines: seq<string>)
    ensures MR.ReadLines(lines + [""]) == MR.ReadLines(lines)
  {
    var g := MR.Reader();
    var s := Blocks.Run(g, Blocks.State([], None), lines);
    Blocks.RunAppend(g, Blocks.State([], None), lines, [""]);
    assert [""][..0] == [];
    if s.cur.Some? {
      BlankLineRead(s.cur.value);
    }
  }

  /** One more category written after `before` is one more category read. */
  lemma CategoryStep(before: seq<string>, c: Catalog.Category, arts: seq<Catalog.Article>)
    requires CleanCategory(c) && CleanArticles(arts)
    ensures MR.ReadLines(before + Mapping.CategoryLines(c, arts)) == MR.ReadLines(before) + [CategoryEntryOf(c, arts)]
    ensures OneLine(before) ==> OneLine(before + Mapping.CategoryLines(c, arts))
  {
    var lines := Mapping.CategoryLines(c, arts);
    CategoryClean(c, arts);
    CategoryRead(c, arts);
    ConsFirst(lines);
    AppendAssoc(before, [lines[0]], lines[1..]);
    MR.CategoryOwnLines(before, lines[0], lines[1..]);
    if OneLine(before) {
      OneLineAppend(before, lines);
    }
  }

  /** The lines of the mapping read back as the categories they were written from. */
  lemma {:induction false} LinesRead(cats: seq<Catalog.Category>, categoryArticles: map<string, seq<Catalog.Article>>)
    requires Clean(cats, categoryArticles)
    ensures MR.ReadLines(Mapping.MappingLines(cats, categoryArticles)) == ReadBack(cats, categoryArticles)
    ensures OneLine(Mapping.MappingLines(cats, categoryArticles))
  {
    if |cats| == 0 {
      HeaderRead();
      HeaderOneLine();
    } else {
      var init := cats[..|cats| - 1];
      var c := cats[|cats| - 1];
      var arts := Mapping.ArticlesOf(categoryArticles, c.id);
      assert Clean(init, categoryArticles) by {
        forall i | 0 <= i < |init|
          ensures CleanCategory(init[i]) && CleanArticles(Mapping.ArticlesOf(categoryArticles, init[i].id))
        {
          assert init[i] == cats[i];
        }
      }
      LinesRead(init, categoryArticles);
      CategoryStep(Mapping.MappingLines(init, categoryArticles), c, arts);
    }
  }

  /**
   * The round trip: the categories `parseMapping` reads from the mapping the
   * migration writes are the migrated categories, in order, each with its
   * articles in order.
   */
  lemma MappingRoundTrip(cats: seq<Catalog.Category>, categoryArticles: map<string, seq<Catalog.Article>>)
    requires Clean(cats, categoryArticles)
    ensures MR.MappingOf(Mapping.MappingContent(cats, categoryArticles)) == ReadBack(cats, categoryArticles)
  {
    var lines := Mapping.MappingLines(cats, categoryArticles);
    LinesRead(cats, categoryArticles);
    WrittenLines(lines);
    TrailingBlank(lines);
  }
}
