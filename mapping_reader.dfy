/**
 * `parseMapping` and `extractValue` of the structure validator
 * (scripts/validate-structure.mjs:37-112): a line-driven reader of the
 * mapping document. A `  - name:` line closes the open category and opens a
 * new one; the category's field lines set its fields; inside its `articles:`
 * list a `      - slug:` line closes the open article entry and opens
 * another, and the `title:` / `short_title:` lines fill the open entry. Blank
 * lines, comment lines and the `categories:` line are skipped.
 */
module MappingReader {
  import opened Strings
  import Blocks

  /** An article entry: its slug is read from the line that opens it. */
  datatype ArticleEntry = ArticleEntry(slug: string, title: Option<string>, shortTitle: Option<string>)

  /** A category entry: `name` is read from the line that opens it; every other field only when its line is met. */
  datatype CategoryEntry = CategoryEntry(
    name: string,
    slug: Option<string>,
    icon: Option<string>,
    description: Option<string>,
    hideInProd: Option<bool>,
    articles: seq<ArticleEntry>)

  /** The open category with the open article entry (`currentArticle`) and the `inArticles` flag. */
  datatype Draft = Draft(cat: CategoryEntry, pending: Option<ArticleEntry>, inArticles: bool)

  const TopKey: string := "categories:"
  const Comment: string := "#"
  const EmptyList: string := "[]"
  const TrueText: string := "true"

  const NameKey: string := "name"
  const SlugKey: string := "slug"
  const IconKey: string := "icon"
  const DescriptionKey: string := "description"
  const HideKey: string := "hideInProd"
  const TitleKey: string := "title"
  const ShortTitleKey: string := "short_title"

  const NameMark: string := "- name:"
  const SlugField: string := "slug:"
  const IconField: string := "icon:"
  const DescriptionField: string := "description:"
  const HideField: string := "hideInProd:"
  const ArticlesField: string := "articles:"
  const ArticleMark: string := "- slug:"
  const TitleField: string := "title:"
  const ShortTitleField: string := "short_title:"

  /** `line.match(/^\s{n}text/)`: exactly `n` white-space characters, then `text`. */
  predicate Lead(line: string, n: nat, text: string) {
    n + |text| <= |line| && (forall i :: 0 <= i < n ==> IsSpace(line[i])) && line[n..n + |text|] == text
  }

  /** `extractValue(line, key)`: the trimmed text after the first `key:`, one outer quote pair removed. */
  function ExtractValue(line: string, key: string): (r: string)
    ensures r != "" ==> exists j: nat :: OccursAt(line, key + ":", j) && j + |key| + 1 + |r| <= |line|
  {
    match FindSub(line, key + ":")
    case None => ""
    case Some(idx) => StripQuotes(Trim(line[idx + |key| + 1..]))
  }

  /** Empty lines, comment lines and the top-level key. */
  predicate Skipped(line: string) {
    var t := Trim(line);
    t == "" || StartsWith(t, Comment) || StartsWith(line, TopKey)
  }

  /** `/^\s{2}- name:/` */
  predicate IsNameLine(line: string) {
    Lead(line, 2, NameMark)
  }

  predicate Opens(line: string) {
    !Skipped(line) && IsNameLine(line)
  }

  /** `currentCat = { articles: [] }; inArticles = false; currentCat.name = …` */
  function Start(line: string): Draft {
    Draft(CategoryEntry(ExtractValue(line, NameKey), None, None, None, None, []), None, false)
  }

  /** The open category with its open article entry, if any, pushed onto its list. */
  function Flush(d: Draft): CategoryEntry {
    match d.pending
    case None => d.cat
    case Some(a) => d.cat.(articles := d.cat.articles + [a])
  }

  /** The field branches (lines 65-92) on a line that is neither skipped nor a name line. */
  function Field(d: Draft, line: string): Draft {
    if Lead(line, 4, SlugField) && !d.inArticles then
      d.(cat := d.cat.(slug := Some(ExtractValue(line, SlugKey))))
    else if Lead(line, 4, IconField) then
      d.(cat := d.cat.(icon := Some(ExtractValue(line, IconKey))))
    else if Lead(line, 4, DescriptionField) then
      d.(cat := d.cat.(description := Some(ExtractValue(line, DescriptionKey))))
    else if Lead(line, 4, HideField) then
      d.(cat := d.cat.(hideInProd := Some(ExtractValue(line, HideKey) == TrueText)))
    else if Lead(line, 4, ArticlesField) then
      d.(inArticles := !EndsWith(Trim(line), EmptyList))
    else if d.inArticles && Lead(line, 6, ArticleMark) then
      Draft(Flush(d), Some(ArticleEntry(ExtractValue(line, SlugKey), None, None)), true)
    else if d.inArticles && d.pending.Some? then
      if Lead(line, 8, TitleField) then
        d.(pending := Some(d.pending.value.(title := Some(ExtractValue(line, TitleKey)))))
      else if Lead(line, 8, ShortTitleField) then
        d.(pending := Some(d.pending.value.(shortTitle := Some(ExtractValue(line, ShortTitleKey)))))
      else d
    else d
  }

  function Update(d: Draft, line: string): Draft {
    if Skipped(line) then d else Field(d, line)
  }

  function Reader(): Blocks.Grammar<Draft, CategoryEntry> {
    Blocks.Grammar(Opens, Start, Update, Flush)
  }

  /** The categories read from a list of lines. */
  function ReadLines(lines: seq<string>): seq<CategoryEntry> {
    Blocks.Parse(Reader(), lines)
  }

  /** `parseMapping(content)` */
  function MappingOf(content: string): seq<CategoryEntry> {
    ReadLines(Split(content, '\n'))
  }

  /** The locals of `parseMapping`, updated line by line. */
  class MappingParser {
    var categories: seq<CategoryEntry>
    var currentCat: Option<CategoryEntry>
    var currentArticle: Option<ArticleEntry>
    var inArticles: bool

    /** An article entry is only open inside a category. */
    predicate Valid()
      reads this
    {
      currentCat.None? ==> currentArticle.None?
    }

    /** The reader state the locals stand for. */
    function State(): Blocks.State<Draft, CategoryEntry>
      reads this
    {
      Blocks.State(categories, if currentCat.Some? then Some(Draft(currentCat.value, currentArticle, inArticles)) else None)
    }

    constructor ()
      ensures Valid() && State() == Blocks.State([], None)
    {
      categories := [];
      currentCat := None;
      currentArticle := None;
      inArticles := false;
    }

    /** The body of the `for (const line of …)` loop (lines 44-92). */
    method Feed(line: string)
      requires Valid()
      modifies this
      ensures Valid() && State() == Blocks.Step(Reader(), old(State()), line)
    {
      if Opens(line) {
        Blocks.StepOpens(Reader(), State(), line);
      } else {
        Blocks.StepExtends(Reader(), State(), line);
      }
      var t := Trim(line);
      if t == "" || StartsWith(t, Comment) {
        return;
      }
      if StartsWith(line, TopKey) {
        return;
      }
      if IsNameLine(line) {
        if currentArticle.Some? && currentCat.Some? {
          currentCat := Some(currentCat.value.(articles := currentCat.value.articles + [currentArticle.value]));
          currentArticle := None;
        }
        if currentCat.Some? {
          categories := categories + [currentCat.value];
        }
        currentCat := Some(CategoryEntry(ExtractValue(line, NameKey), None, None, None, None, []));
        inArticles := false;
        return;
      }
      if currentCat.None? {
        return;
      }
      var cat := currentCat.value;
      if Lead(line, 4, SlugField) && !inArticles {
        currentCat := Some(cat.(slug := Some(ExtractValue(line, SlugKey))));
      } else if Lead(line, 4, IconField) {
        currentCat := Some(cat.(icon := Some(ExtractValue(line, IconKey))));
      } else if Lead(line, 4, DescriptionField) {
        currentCat := Some(cat.(description := Some(ExtractValue(line, DescriptionKey))));
      } else if Lead(line, 4, HideField) {
        currentCat := Some(cat.(hideInProd := Some(ExtractValue(line, HideKey) == TrueText)));
      } else if Lead(line, 4, ArticlesField) {
        inArticles := true;
        if EndsWith(t, EmptyList) {
          inArticles := false;
        }
      } else if inArticles && Lead(line, 6, ArticleMark) {
        if currentArticle.Some? {
          currentCat := Some(cat.(articles := cat.articles + [currentArticle.value]));
        }
        currentArticle := Some(ArticleEntry(ExtractValue(line, SlugKey), None, None));
      } else if inArticles && currentArticle.Some? {
        var art := currentArticle.value;
        if Lead(line, 8, TitleField) {
          currentArticle := Some(art.(title := Some(ExtractValue(line, TitleKey))));
        } else if Lead(line, 8, ShortTitleField) {
          currentArticle := Some(art.(shortTitle := Some(ExtractValue(line, ShortTitleKey))));
        }
      }
    }

    /** "Push last items" (lines 95-101). */
    method Finish() returns (result: seq<CategoryEntry>)
      requires Valid()
      modifies this
      ensures result == Blocks.Finish(Reader(), old(State()))
      ensures categories == result && currentCat.None?
    {
      if currentArticle.Some? && currentCat.Some? {
        currentCat := Some(currentCat.value.(articles := currentCat.value.articles + [currentArticle.value]));
      }
      if currentCat.Some? {
        categories := categories + [currentCat.value];
      }
      currentCat := None;
      currentArticle := None;
      result := categories;
    }
  }

  lemma RunSnoc(lines: seq<string>, i: nat)
    requires i < |lines|
    ensures Blocks.Run(Reader(), Blocks.State([], None), lines[..i + 1])
      == Blocks.Step(Reader(), Blocks.Run(Reader(), Blocks.State([], None), lines[..i]), lines[i])
  {
    Blocks.RunSnoc(Reader(), Blocks.State([], None), lines, i);
  }

  /** `parseMapping(content)` */
  method ParseMapping(content: string) returns (categories: seq<CategoryEntry>)
    ensures categories == MappingOf(content)
  {
    var parser := new MappingParser();
    var lines := Split(content, '\n');
    for i := 0 to |lines|
      invariant parser.Valid()
      invariant parser.State() == Blocks.Run(Reader(), Blocks.State([], None), lines[..i])
    {
      RunSnoc(lines, i);
      parser.Feed(lines[i]);
    }
    assert lines[..|lines|] == lines;
    categories := parser.Finish();
  }

  // ---------------------------------------------------------------------
  // extractValue

  /** Without `key:` anywhere in the line the value is empty. */
  lemma ExtractAbsent(line: string, key: string)
    requires forall j: nat :: !OccursAt(line, key + ":", j)
    ensures ExtractValue(line, key) == ""
  {
  }

  /**
   * With `key:` behind a lead that cannot hold its first character, the
   * value is the rest of the line, trimmed, with one outer quote pair removed.
   */
  lemma ExtractAfter(lead: string, key: string, v: string)
    requires key != "" && key[0] !in lead
    ensures ExtractValue(lead + key + ":" + v, key) == StripQuotes(Trim(v))
  {
    var line, p := lead + key + ":" + v, key + ":";
    assert line == lead + p + v;
    assert OccursAt(line, p, |lead|) by {
      assert line[|lead|..|lead| + |p|] == p;
    }
    forall j: nat | j < |lead| ensures !OccursAt(line, p, j) {
      assert line[j] == lead[j];
    }
    FindSubAt(line, p, |lead|);
    assert line[|lead| + |key| + 1..] == v;
  }

  // ---------------------------------------------------------------------
  // Categories

  /** A name line is never skipped, so the name lines are exactly the lines that open categories. */
  lemma OpensIsNameLine(line: string)
    ensures Opens(line) <==> IsNameLine(line)
  {
    if IsNameLine(line) {
      assert line[2] == NameMark[0];
      TrimLead(line, 2);
      assert !StartsWith(line, TopKey) by {
        assert line[0] != TopKey[0];
      }
    }
  }

  /** The number of lines matching `/^\s{2}- name:/`. */
  function NameLineCount(lines: seq<string>): nat {
    if |lines| == 0 then 0
    else NameLineCount(lines[..|lines| - 1]) + (if IsNameLine(lines[|lines| - 1]) then 1 else 0)
  }

  lemma {:induction false} MarkersAreNameLines(lines: seq<string>)
    ensures Blocks.CountMarkers(Reader(), lines) == NameLineCount(lines)
  {
    if |lines| > 0 {
      MarkersAreNameLines(lines[..|lines| - 1]);
      OpensIsNameLine(lines[|lines| - 1]);
    }
  }

  /** One category per name line. */
  lemma CategoryCount(content: string)
    ensures |MappingOf(content)| == NameLineCount(Split(content, '\n'))
  {
    Blocks.ParseCount(Reader(), Split(content, '\n'));
    MarkersAreNameLines(Split(content, '\n'));
  }

  /**
   * A name line and the lines up to the next one form exactly one category,
   * after the categories of the earlier lines: a category is read from its
   * own lines only.
   */
  lemma CategoryOwnLines(before: seq<string>, head: string, body: seq<string>)
    requires IsNameLine(head)
    requires forall i :: 0 <= i < |body| ==> !IsNameLine(body[i])
    ensures ReadLines(before + [head] + body) == ReadLines(before) + [Blocks.Block(Reader(), head, body)]
  {
    OpensIsNameLine(head);
    forall i | 0 <= i < |body| ensures !Reader().opens(body[i]) {
      OpensIsNameLine(body[i]);
    }
    Blocks.ParseBlock(Reader(), before, head, body);
  }

  // ---------------------------------------------------------------------
  // Article entries

  /** The slugs of a list of article entries. */
  function SlugsOf(arts: seq<ArticleEntry>): (r: seq<string>)
    ensures |r| == |arts| && forall i :: 0 <= i < |arts| ==> r[i] == arts[i].slug
  {
    seq(|arts|, i requires 0 <= i < |arts| => arts[i].slug)
  }

  lemma SlugsSnoc(arts: seq<ArticleEntry>, a: ArticleEntry)
    ensures SlugsOf(arts + [a]) == SlugsOf(arts) + [a.slug]
  {
  }

  /** A `- slug:` line read while inside an articles list. */
  predicate OpensArticle(d: Draft, line: string) {
    d.inArticles && Lead(line, 6, ArticleMark)
  }

  /** The values of the `- slug:` lines among `lines` that are read inside an articles list, in order. */
  function SlugLines(d: Draft, lines: seq<string>): seq<string> {
    if |lines| == 0 then []
    else
      var init, last := lines[..|lines| - 1], lines[|lines| - 1];
      SlugLines(d, init)
        + if OpensArticle(Blocks.UpdateAll(Reader(), d, init), last) then [ExtractValue(last, SlugKey)] else []
  }

  /** Two texts with different first characters cannot both follow the same indentation. */
  lemma LeadsDiffer(line: string, n: nat, t: string, u: string)
    requires Lead(line, n, t) && |t| > 0 && |u| > 0 && t[0] != u[0]
    ensures !Lead(line, n, u)
  {
    assert line[n] == line[n..n + |t|][0];
  }

  /** A text that starts with a non-space character does not follow a longer indentation. */
  lemma DeeperLead(line: string, n: nat, m: nat, u: string)
    requires n < m && Lead(line, m, u) && |u| > 0
    ensures IsSpace(line[n])
  {
  }

  /** After `m` white-space characters, no text that starts with a letter can follow `n < m` of them. */
  lemma NotShallower(line: string, n: nat, t: string)
    requires n < |line| && IsSpace(line[n]) && |t| > 0 && !IsSpace(t[0])
    ensures !Lead(line, n, t)
  {
  }

  /** A line too short for the article patterns changes no article entry. */
  lemma NoDeepLead(d: Draft, line: string)
    requires |line| < 6 + |ArticleMark|
    ensures !Lead(line, 6, ArticleMark) && !Lead(line, 8, TitleField) && !Lead(line, 8, ShortTitleField)
  {
  }

  /** An indented line whose text starts with neither white space nor `#` is read. */
  lemma NotSkipped(line: string, n: nat, t: string)
    requires 0 < n && Lead(line, n, t) && |t| > 0 && !IsSpace(t[0]) && t[0] != '#'
    ensures !Skipped(line)
  {
    assert line[n] == line[n..n + |t|][0];
    TrimLead(line, n);
    assert !StartsWith(line, TopKey) by {
      assert line[0] != TopKey[0];
    }
  }

  /** The first characters of the field patterns: none is white space, and they tell the fields apart. */
  lemma FieldFacts()
    ensures !IsSpace(SlugField[0]) && !IsSpace(IconField[0]) && !IsSpace(DescriptionField[0])
    ensures !IsSpace(HideField[0]) && !IsSpace(ArticlesField[0]) && !IsSpace(ArticleMark[0])
    ensures !IsSpace(TitleField[0]) && !IsSpace(ShortTitleField[0])
    ensures SlugField[0] != IconField[0] && SlugField[0] != DescriptionField[0]
    ensures IconField[0] != DescriptionField[0] && HideField[0] != SlugField[0]
    ensures HideField[0] != IconField[0] && HideField[0] != DescriptionField[0]
    ensures ShortTitleField[0] != TitleField[0]
  {
  }

  /** An article line is never skipped and never taken for a category field. */
  lemma ArticleLineIsArticle(d: Draft, line: string)
    requires OpensArticle(d, line)
    ensures Update(d, line) == Draft(Flush(d), Some(ArticleEntry(ExtractValue(line, SlugKey), None, None)), true)
  {
    FieldFacts();
    NotSkipped(line, 6, ArticleMark);
    NotShallower(line, 4, SlugField);
    NotShallower(line, 4, IconField);
    NotShallower(line, 4, DescriptionField);
    NotShallower(line, 4, HideField);
    NotShallower(line, 4, ArticlesField);
  }

  /** Any other line leaves the entries of the open category alone, and the open entry's slug with them. */
  lemma UpdateKeepsEntries(d: Draft, line: string)
    requires !OpensArticle(d, line)
    ensures Update(d, line).cat.articles == d.cat.articles
    ensures Update(d, line).pending.Some? <==> d.pending.Some?
    ensures d.pending.Some? ==> Update(d, line).pending.value.slug == d.pending.value.slug
  {
    var e := Field(d, line);
    if Lead(line, 4, SlugField) && !d.inArticles {
    } else if Lead(line, 4, IconField) || Lead(line, 4, DescriptionField) || Lead(line, 4, HideField) {
    } else if Lead(line, 4, ArticlesField) {
    } else if d.inArticles && d.pending.Some? {
      assert e.cat == d.cat;
    } else {
      assert e == d;
    }
  }

  /**
   * One line changes the slugs of the open category's entries (the open one
   * last) only by appending the slug of a `- slug:` line read inside the
   * articles list: no entry is dropped, reordered or renamed.
   */
  lemma UpdateCollects(d: Draft, line: string)
    ensures SlugsOf(Flush(Update(d, line)).articles) ==
      SlugsOf(Flush(d).articles) + if OpensArticle(d, line) then [ExtractValue(line, SlugKey)] else []
  {
    var e := Update(d, line);
    if OpensArticle(d, line) {
      ArticleLineIsArticle(d, line);
      SlugsSnoc(Flush(d).articles, ArticleEntry(ExtractValue(line, SlugKey), None, None));
    } else {
      UpdateKeepsEntries(d, line);
      if d.pending.Some? {
        SlugsSnoc(d.cat.articles, d.pending.value);
        SlugsSnoc(e.cat.articles, e.pending.value);
      }
    }
  }

  lemma {:induction false} CollectsAll(d: Draft, lines: seq<string>)
    ensures SlugsOf(Flush(Blocks.UpdateAll(Reader(), d, lines)).articles) == SlugsOf(Flush(d).articles) + SlugLines(d, lines)
  {
    if |lines| > 0 {
      var init, last := lines[..|lines| - 1], lines[|lines| - 1];
      CollectsAll(d, init);
      UpdateCollects(Blocks.UpdateAll(Reader(), d, init), last);
    }
  }

  /**
   * The article entries of a category are exactly the `- slug:` lines read
   * inside its articles list, in order: the open entry is pushed before the
   * next one starts and when the category closes, so none is lost.
   */
  lemma CategoryArticles(head: string, body: seq<string>)
    ensures SlugsOf(Blocks.Block(Reader(), head, body).articles) == SlugLines(Start(head), body)
  {
    CollectsAll(Start(head), body);
  }

  /** `articles:` opens the list, unless the line ends with `[]`; nothing else changes. */
  lemma ArticlesLine(d: Draft, line: string)
    requires Lead(line, 4, ArticlesField)
    ensures Update(d, line) == d.(inArticles := !EndsWith(Trim(line), EmptyList))
  {
    NotSkipped(line, 4, ArticlesField);
    LeadsDiffer(line, 4, ArticlesField, SlugField);
    LeadsDiffer(line, 4, ArticlesField, IconField);
    LeadsDiffer(line, 4, ArticlesField, DescriptionField);
    LeadsDiffer(line, 4, ArticlesField, HideField);
  }

  /** Outside an articles list, the article lines change nothing. */
  lemma OutsideListIgnored(d: Draft, line: string)
    requires !d.inArticles
    requires Lead(line, 6, ArticleMark) || Lead(line, 8, TitleField) || Lead(line, 8, ShortTitleField)
    ensures Update(d, line) == d
  {
    NotShallower(line, 4, SlugField);
    NotShallower(line, 4, IconField);
    NotShallower(line, 4, DescriptionField);
    NotShallower(line, 4, HideField);
    NotShallower(line, 4, ArticlesField);
  }

  /** Inside an articles list, a `slug:` line at the category's indentation is not the category's slug. */
  lemma SlugInsideListIgnored(d: Draft, line: string)
    requires d.inArticles && Lead(line, 4, SlugField)
    ensures Update(d, line) == d
  {
    LeadsDiffer(line, 4, SlugField, IconField);
    LeadsDiffer(line, 4, SlugField, DescriptionField);
    LeadsDiffer(line, 4, SlugField, HideField);
    LeadsDiffer(line, 4, SlugField, ArticlesField);
    NotSkipped(line, 4, SlugField);
    assert line[4] == line[4..4 + |SlugField|][0];
    assert !IsSpace(line[4]);
  }
}
