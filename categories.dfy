/**
 * The flat `categories.yaml` reader of the migration
 * (scripts/migrate-structure.mjs:88-116): a line starting with `- ` opens a
 * new category record and may carry its first `key: value`; an indented line
 * (`^\s+\w`) adds a field to the open record, with `true`/`false` turned into
 * booleans; every other line is ignored.
 */
module CategoriesYaml {
  import opened Strings
  import Frontmatter
  import Blocks

  /** A field value: a string, or a boolean converted from an indented line. */
  datatype Scalar = Str(s: string) | Flag(b: bool)

  type Record = map<string, Scalar>

  /** `line.startsWith('- ')` */
  predicate IsItemLine(line: string) {
    StartsWith(line, "- ")
  }

  /** `line.match(/^\s+\w/)`: at least one white-space character, then a word character. */
  predicate IsFieldLine(line: string) {
    var t := TrimStart(line);
    |t| < |line| && |t| > 0 && IsWordChar(t[0])
  }

  /** A value read from an indented line. */
  function Typed(v: string): (r: Scalar)
    ensures r.Flag? <==> (v == "true" || v == "false")
    ensures r.Flag? ==> (r.b <==> v == "true")
    ensures r.Str? ==> r.s == v
  {
    if v == "true" then Flag(true) else if v == "false" then Flag(false) else Str(v)
  }

  /** The record an item line opens: its own `key: value`, if it has one, kept as a string. */
  function ItemStart(line: string): (r: Record)
    ensures forall k :: k in r ==> r[k].Str?
    ensures |r| <= 1
  {
    var rest := if |line| >= 2 then line[2..] else "";
    StringField(Frontmatter.ParseLine(rest))
  }

  /** The record holding one parsed `key: value` as a string, or no field. */
  function StringField(kv: Option<(string, string)>): (r: Record)
    ensures forall k :: k in r ==> r[k].Str?
    ensures |r| <= 1
    ensures kv.Some? ==> kv.value.0 in r && r[kv.value.0] == Str(kv.value.1)
  {
    match kv
    case None => map[]
    case Some(kv) => map[kv.0 := Str(kv.1)]
  }

  /** An indented line sets one field of the open record; other lines change nothing. */
  function FieldUpdate(r: Record, line: string): Record {
    if IsFieldLine(line) then
      match Frontmatter.ParseLine(Trim(line))
      case None => r
      case Some(kv) => r[kv.0 := Typed(kv.1)]
    else r
  }

  function Keep(r: Record): Record {
    r
  }

  function Grammar(): Blocks.Grammar<Record, Record> {
    Blocks.Grammar(IsItemLine, ItemStart, FieldUpdate, Keep)
  }

  /** The `categories` array the reader builds from the file text. */
  function ParseCategories(raw: string): seq<Record> {
    Blocks.Parse(Grammar(), Split(raw, '\n'))
  }

  /** The reader loop over the lines of `categories.yaml`. */
  method ReadCategories(raw: string) returns (categories: seq<Record>)
    ensures categories == ParseCategories(raw)
  {
    var lines := Split(raw, '\n');
    categories := [];
    var current: Option<Record> := None;
    var i := 0;
    while i < |lines|
      invariant 0 <= i <= |lines|
      invariant Blocks.State(categories, current) == Blocks.Run(Grammar(), Blocks.State([], None), lines[..i])
    {
      var line := lines[i];
      var g := Grammar();
      ghost var before := Blocks.State(categories, current);
      Blocks.RunSnoc(g, Blocks.State([], None), lines, i);
      if IsItemLine(line) {
        Blocks.StepOpens(g, before, line);
        if current.Some? {
          categories := categories + [current.value];
        }
        current := Some(ItemStart(line));
      } else {
        Blocks.StepExtends(g, before, line);
        if current.Some? && IsFieldLine(line) {
          current := Some(FieldUpdate(current.value, line));
        }
      }
      i := i + 1;
    }
    assert lines[..i] == lines;
    if current.Some? {
      categories := categories + [current.value];
    }
  }

  /** One category per line starting with `- `. */
  lemma CategoryCount(raw: string)
    ensures |ParseCategories(raw)| == Blocks.CountMarkers(Grammar(), Split(raw, '\n'))
  {
    Blocks.ParseCount(Grammar(), Split(raw, '\n'));
  }

  /** Each category holds exactly the fields of its own `- ` line and of the lines up to the next one. */
  lemma CategoryOwnLines(before: seq<string>, item: string, fields: seq<string>)
    requires IsItemLine(item) && forall i :: 0 <= i < |fields| ==> !IsItemLine(fields[i])
    ensures Blocks.Parse(Grammar(), before + [item] + fields)
      == Blocks.Parse(Grammar(), before) + [Blocks.UpdateAll(Grammar(), ItemStart(item), fields)]
  {
    Blocks.ParseBlock(Grammar(), before, item, fields);
  }

  /** `- hideInProd: true` on the item line stays the string `"true"`. */
  lemma ItemLineNotConverted()
    ensures ItemStart("- " + Frontmatter.HiddenLineText)
      == map[Frontmatter.HiddenKey := Str(Frontmatter.TrueText)]
  {
    var line := "- " + Frontmatter.HiddenLineText;
    assert line[2..] == Frontmatter.HiddenLineText;
    Frontmatter.HiddenLine();
  }

  lemma IndentedHiddenLine()
    ensures IsFieldLine("  " + Frontmatter.HiddenLineText)
    ensures Trim("  " + Frontmatter.HiddenLineText) == Frontmatter.HiddenLineText
  {
    var x := Frontmatter.HiddenLineText;
    Frontmatter.HiddenLineFacts();
    assert x[|x| - 1] == 'e';
    TrimStartAfterSpaces("  ", x);
    TrimAfterSpaces("  ", x);
  }

  /** The same field on an indented line becomes the boolean `true`. */
  lemma FieldLineConverted(r: Record)
    ensures FieldUpdate(r, "  " + Frontmatter.HiddenLineText) == r[Frontmatter.HiddenKey := Flag(true)]
  {
    IndentedHiddenLine();
    Frontmatter.HiddenLine();
    FieldUpdateAt(r, "  " + Frontmatter.HiddenLineText, Frontmatter.HiddenKey, Frontmatter.TrueText);
    assert Typed(Frontmatter.TrueText) == Flag(true);
  }

  /** An indented line that parses to `key: value` sets that field to the typed value. */
  lemma FieldUpdateAt(r: Record, line: string, k: string, v: string)
    requires IsFieldLine(line) && Frontmatter.ParseLine(Trim(line)) == Some((k, v))
    ensures FieldUpdate(r, line) == r[k := Typed(v)]
  {
    var p := Frontmatter.ParseLine(Trim(line));
    assert p.value.0 == k && p.value.1 == v;
  }
}
