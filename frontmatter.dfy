/**
 * The article header ("frontmatter") as all the scripts read it, and the
 * quoting rule the migration uses to write YAML scalars.
 *
 * The header regex `^---\n([\s\S]*?)\n---` matches when the text starts with
 * `---` and a newline and some later `\n---` follows; the lazy group ends at
 * the FIRST such `\n---` found at index 4 or later. Inside the header each
 * line with a `:` contributes a key and a value; later keys overwrite
 * earlier ones; values lose one matching pair of outer quotes and are never
 * unescaped.
 */
module Frontmatter {
  import opened Strings

  datatype Parsed = Parsed(fields: map<string, string>, body: string)

  const Open: string := "---\n"
  const Close: string := "\n---"
  const DescriptionKey: string := "description"
  const HiddenKey: string := "hideInProd"
  const TrueText: string := "true"

  /** Where the header text ends, counted from index 4, or `None` when the header regex does not match. */
  function HeaderEnd(content: string): (r: Option<nat>)
    ensures r.Some? ==> StartsWith(content, Open) && 4 + r.value + 4 <= |content|
    ensures r.Some? ==> content[4 + r.value..4 + r.value + 4] == Close
  {
    if StartsWith(content, Open) then
      var k := FindSub(content[4..], Close);
      if k.Some? then
        assert content[4..][k.value..k.value + 4] == content[4 + k.value..4 + k.value + 4];
        k
      else None
    else None
  }

  /** One header line: `None` without a `:`; otherwise the trimmed key before the first `:` and the trimmed, unquoted value after it. */
  function ParseLine(line: string): Option<(string, string)> {
    match Find(line, ':')
    case None => None
    case Some(i) => Some((Trim(line[..i]), StripQuotes(Trim(line[i + 1..]))))
  }

  /** `fields[key] = value` applied for each parsed line in order; lines without a `:` are skipped. */
  function Assign(entries: seq<Option<(string, string)>>): map<string, string> {
    if |entries| == 0 then map[]
    else
      match entries[|entries| - 1]
      case None => Assign(entries[..|entries| - 1])
      case Some(kv) => Assign(entries[..|entries| - 1])[kv.0 := kv.1]
  }

  /** Entry `i` sets key `k` to `v` and no later entry names `k` again. */
  predicate LastSetter(entries: seq<Option<(string, string)>>, k: string, v: string, i: nat) {
    i < |entries| && entries[i] == Some((k, v))
    && forall j :: i < j < |entries| ==> !(entries[j].Some? && entries[j].value.0 == k)
  }

  /** A field exists exactly for the keys some entry names. */
  lemma {:induction false} AssignDomain(entries: seq<Option<(string, string)>>, k: string)
    ensures k in Assign(entries) <==>
      exists i :: 0 <= i < |entries| && entries[i].Some? && entries[i].value.0 == k
  {
    if |entries| > 0 {
      var init := entries[..|entries| - 1];
      AssignDomain(init, k);
      assert forall i :: 0 <= i < |init| ==> init[i] == entries[i];
    }
  }

  /** Each field holds the value of the LAST entry that names its key. */
  lemma {:induction false} AssignLastWins(entries: seq<Option<(string, string)>>, k: string)
    requires k in Assign(entries)
    ensures exists i: nat :: LastSetter(entries, k, Assign(entries)[k], i)
  {
    var init, last := entries[..|entries| - 1], entries[|entries| - 1];
    var n := |entries| - 1;
    if last.Some? && last.value.0 == k {
      assert LastSetter(entries, k, Assign(entries)[k], n);
    } else {
      assert Assign(entries)[k] == Assign(init)[k];
      AssignLastWins(init, k);
      var i: nat :| LastSetter(init, k, Assign(init)[k], i);
      forall j | i < j < |entries| ensures !(entries[j].Some? && entries[j].value.0 == k) {
        if j < n { assert entries[j] == init[j]; }
      }
      assert entries[i] == init[i];
      assert LastSetter(entries, k, Assign(entries)[k], i);
    }
  }

  /** The header lines, each parsed. */
  function Entries(lines: seq<string>): (r: seq<Option<(string, string)>>)
    ensures |r| == |lines| && forall i :: 0 <= i < |lines| ==> r[i] == ParseLine(lines[i])
  {
    seq(|lines|, i requires 0 <= i < |lines| => ParseLine(lines[i]))
  }

  /** The `fields` object after the header loop has run over `lines` in order. */
  function ParseFields(lines: seq<string>): map<string, string> {
    Assign(Entries(lines))
  }

  /** `parseFrontmatter` of the migration script: no header means no fields and the whole text as body. */
  function Parse(content: string): (r: Parsed)
    ensures HeaderEnd(content).None? ==> r == Parsed(map[], content)
    ensures HeaderEnd(content).Some? ==>
      content == Open + content[4..4 + HeaderEnd(content).value] + Close + r.body
  {
    match HeaderEnd(content)
    case None => Parsed(map[], content)
    case Some(k) =>
      assert content == content[..4] + content[4..4 + k] + content[4 + k..4 + k + 4] + content[4 + k + 4..];
      Parsed(ParseFields(Split(content[4..4 + k], '\n')), content[4 + k + 4..])
  }

  /** `parseFrontmatter` of the validators: `null` (here `None`) without a header, the fields otherwise. */
  function ParseOrNull(content: string): (r: Option<map<string, string>>)
    ensures r.None? <==> HeaderEnd(content).None?
    ensures r.Some? ==> r.value == Parse(content).fields
    ensures !StartsWith(content, Open) ==> r.None?
  {
    if HeaderEnd(content).None? then None else Some(Parse(content).fields)
  }

  /** `fields[key]`: the field's value, or `undefined`. */
  function Lookup(fields: map<string, string>, key: string): Option<string> {
    if key in fields then Some(fields[key]) else None
  }

  // ---------------------------------------------------------------------
  // yamlEscape

  /** One of the characters of `/[:#\[\]{}|>&*!%@`,?]/`. */
  predicate IsSpecial(c: char) {
    c in ":#[]{}|>&*!%@`,?"
  }

  /** The condition under which `yamlEscape` escapes before quoting. */
  predicate NeedsEscape(s: string) {
    (exists i :: 0 <= i < |s| && IsSpecial(s[i])) || s != Trim(s) || s == ""
  }

  /** `str.replace(/\\/g, '\\\\').replace(/"/g, '\\"')`: a backslash before every `\` and `"`. */
  function Escape(s: string): string {
    if |s| == 0 then ""
    else (if s[0] == '\\' || s[0] == '"' then ['\\', s[0]] else [s[0]]) + Escape(s[1..])
  }

  /** Escaping adds only backslashes: every other character occurs in the result exactly when it occurs in the input. */
  lemma {:induction false} EscapeMembers(s: string, c: char)
    requires c != '\\'
    ensures c in Escape(s) <==> c in s
  {
    if |s| > 0 {
      EscapeMembers(s[1..], c);
      assert s == [s[0]] + s[1..];
    }
  }

  /** A reader that undoes `Escape` (the scripts themselves never do this). */
  function Unescape(t: string): string {
    if |t| == 0 then ""
    else if t[0] == '\\' && |t| >= 2 then [t[1]] + Unescape(t[2..])
    else [t[0]] + Unescape(t[1..])
  }

  lemma {:induction false} UnescapeEscape(s: string)
    ensures Unescape(Escape(s)) == s
  {
    if |s| > 0 {
      UnescapeEscape(s[1..]);
      var e := Escape(s[1..]);
      if s[0] == '\\' || s[0] == '"' {
        assert (['\\', s[0]] + e)[2..] == e;
      } else {
        assert ([s[0]] + e)[1..] == e;
      }
    }
  }

  /** Escaping leaves a string without `\` and `"` as it is. */
  lemma {:induction false} EscapePlain(s: string)
    ensures ('\\' !in s && '"' !in s) ==> Escape(s) == s
  {
    if |s| > 0 && '\\' !in s && '"' !in s {
      assert '\\' !in s[1..] && '"' !in s[1..];
      EscapePlain(s[1..]);
    }
  }

  /** What `yamlEscape` puts between its two quotes. */
  function QuotedText(s: string): string {
    if NeedsEscape(s) then Escape(s) else s
  }

  /** `yamlEscape(str)`: always a double-quoted scalar; the text inside is `str`, escaped only when it needs quoting. */
  function YamlEscape(s: string): (r: string)
    ensures |r| >= 2 && r[0] == '"' && r[|r| - 1] == '"'
    ensures !NeedsEscape(s) ==> r[1..|r| - 1] == s
    ensures NeedsEscape(s) ==> Unescape(r[1..|r| - 1]) == s
    ensures ('\\' !in s && '"' !in s) ==> r == "\"" + s + "\""
  {
    UnescapeEscape(s);
    EscapePlain(s);
    var r := "\"" + QuotedText(s) + "\"";
    assert r[1..|r| - 1] == QuotedText(s);
    r
  }

  // ---------------------------------------------------------------------
  // The header the migration writes into `article.md`

  /** `['---', 'description: ' + yamlEscape(d), ('hideInProd: true'), '---'].join('\n')` */
  function NewHeader(description: string, hidden: bool): string {
    Open + HeaderText(description, hidden) + Close
  }

  function DescriptionLineText(description: string): string {
    DescriptionPrefix + YamlEscape(description)
  }

  const DescriptionPrefix: string := DescriptionKey + ": "

  const HiddenLineText: string := HiddenKey + ": " + TrueText

  /** The fields a reader recovers from `NewHeader`. */
  function NewFields(description: string, hidden: bool): map<string, string> {
    if hidden then map[DescriptionKey := QuotedText(description), HiddenKey := TrueText]
    else map[DescriptionKey := QuotedText(description)]
  }

  /** A line is split at its first `:`. */
  lemma ParseLineAt(key: string, rest: string)
    requires ':' !in key
    ensures ParseLine(key + [':'] + rest) == Some((Trim(key), StripQuotes(Trim(rest))))
  {
    var line := key + [':'] + rest;
    FindAfterPrefix(key, ':', rest);
    assert line[..|key|] == key;
    assert line[|key| + 1..] == rest;
  }

  /** A line `key: value` with both parts free of outer white space parses to the key and the unquoted value. */
  lemma ParseKeyValue(key: string, v: string)
    requires ':' !in key
    requires key == [] || (!IsSpace(key[0]) && !IsSpace(key[|key| - 1]))
    requires v == [] || (!IsSpace(v[0]) && !IsSpace(v[|v| - 1]))
    ensures ParseLine(key + ": " + v) == Some((key, StripQuotes(v)))
  {
    var rest := " " + v;
    ColonSpace(key, v);
    TrimUntouched(key);
    SpaceThen(v);
    ParseLineAt(key, rest);
  }

  /** One space in front of a trimmed text is all that `trim` removes. */
  lemma SpaceThen(v: string)
    requires v == [] || (!IsSpace(v[0]) && !IsSpace(v[|v| - 1]))
    ensures Trim(" " + v) == v
  {
    assert IsSpace(" "[0]);
    TrimAfterSpaces(" ", v);
  }

  lemma ColonSpace(key: string, v: string)
    ensures key + ": " + v == key + [':'] + (" " + v)
  {
    assert ": " == [':'] + " ";
  }

  /** Quoting introduces no line break. */
  lemma YamlEscapeOneLine(s: string)
    requires '\n' !in s
    ensures '\n' !in YamlEscape(s)
  {
    EscapeMembers(s, '\n');
    var q := QuotedText(s);
    assert '\n' !in q;
    QuotesOneLine(q);
  }

  lemma QuotesOneLine(q: string)
    requires '\n' !in q
    ensures '\n' !in "\"" + q + "\""
  {
  }

  lemma DescriptionOneLine(description: string)
    requires '\n' !in description
    ensures '\n' !in DescriptionLineText(description)
  {
    assert '\n' !in DescriptionPrefix;
    YamlEscapeOneLine(description);
  }

  /** The description line of the new header parses back to the text between the quotes. */
  lemma DescriptionLine(description: string)
    ensures ParseLine(DescriptionLineText(description)) == Some((DescriptionKey, QuotedText(description)))
  {
    YamlEscapeShape(description);
    DescriptionKeyShape();
    ParseKeyValue(DescriptionKey, YamlEscape(description));
  }

  /** The quoted scalar has no white space at its ends, and stripping its quotes gives back what is between them. */
  lemma YamlEscapeShape(s: string)
    ensures var y := YamlEscape(s);
      !IsSpace(y[0]) && !IsSpace(y[|y| - 1]) && StripQuotes(y) == QuotedText(s)
  {
    assert YamlEscape(s) == "\"" + QuotedText(s) + "\"";
    UnquoteDoubleQuoted(QuotedText(s));
  }

  lemma DescriptionKeyShape()
    ensures ':' !in DescriptionKey && !IsSpace(DescriptionKey[0]) && !IsSpace(DescriptionKey[|DescriptionKey| - 1])
  {
  }

  /** Every line break inside `a` starts a line that does not begin with `-`, so `a` holds no `\n---`. */
  predicate NoCloseInside(a: string) {
    forall j :: 0 <= j < |a| && a[j] == '\n' ==> j + 1 < |a| && a[j + 1] != '-'
  }

  /** A header whose text holds no `\n---` ends at the first closing marker after it. */
  lemma ParseHeader(a: string, body: string)
    requires NoCloseInside(a)
    ensures Parse(Open + a + Close + body) == Parsed(ParseFields(Split(a, '\n')), body)
  {
    var content := Open + a + Close + body;
    var s := content[4..];
    assert s == a + Close + body;
    CloseAfter(a, body);
    FindSubAt(s, Close, |a|);
    assert content[..4] == Open;
    assert HeaderEnd(content) == Some(|a|);
    assert content[4..4 + |a|] == a;
    assert content[4 + |a| + 4..] == body;
  }

  /** In `a + Close + body`, the first closing marker is the one right after `a`. */
  lemma CloseAfter(a: string, body: string)
    requires NoCloseInside(a)
    ensures OccursAt(a + Close + body, Close, |a|)
    ensures forall j: nat :: j < |a| ==> !OccursAt(a + Close + body, Close, j)
  {
    var s := a + Close + body;
    assert s[|a|..|a| + 4] == Close;
    forall j: nat | j < |a| ensures !OccursAt(s, Close, j) {
      assert s[j] == a[j];
      if j + 1 < |a| {
        assert s[j + 1] == a[j + 1];
      } else {
        assert s[j + 1] == Close[0];
      }
    }
  }

  /** `hideInProd: true` reads back as the string `"true"`. */
  lemma HiddenLine()
    ensures ParseLine(HiddenLineText) == Some((HiddenKey, TrueText))
  {
    HiddenKeyShape();
    TrueTextShape();
    ParseKeyValue(HiddenKey, TrueText);
  }

  lemma HiddenKeyShape()
    ensures ':' !in HiddenKey && !IsSpace(HiddenKey[0]) && !IsSpace(HiddenKey[|HiddenKey| - 1])
    ensures HiddenLineText == HiddenKey + ": " + TrueText
  {
  }

  lemma TrueTextShape()
    ensures !IsSpace(TrueText[0]) && !IsSpace(TrueText[|TrueText| - 1]) && !Quoted(TrueText)
  {
  }

  /** The header text the migration writes, between the opening and closing markers. */
  function HeaderText(description: string, hidden: bool): string {
    DescriptionLineText(description) + (if hidden then "\n" + HiddenLineText else "")
  }

  lemma HiddenLineFacts()
    ensures '\n' !in HiddenLineText && |HiddenLineText| > 0 && HiddenLineText[0] == 'h'
  {
  }

  lemma HeaderTextSafe(description: string, hidden: bool)
    requires '\n' !in description
    ensures NoCloseInside(HeaderText(description, hidden))
  {
    var line1 := DescriptionLineText(description);
    DescriptionOneLine(description);
    HeaderTextIs(description, hidden);
    if hidden {
      HiddenThenSafe(line1);
    } else {
      OneLineSafe(line1);
    }
  }

  lemma HiddenThenSafe(line1: string)
    requires '\n' !in line1
    ensures NoCloseInside(line1 + ['\n'] + HiddenLineText)
  {
    HiddenLineFacts();
    TwoLinesSafe(line1, HiddenLineText);
  }

  lemma OneLineSafe(a: string)
    requires '\n' !in a
    ensures NoCloseInside(a)
  {
  }

  lemma HeaderTextLines(description: string, hidden: bool)
    requires '\n' !in description
    ensures Split(HeaderText(description, hidden), '\n') ==
      if hidden then [DescriptionLineText(description), HiddenLineText] else [DescriptionLineText(description)]
  {
    var line1 := DescriptionLineText(description);
    DescriptionOneLine(description);
    HeaderTextIs(description, hidden);
    if hidden {
      HiddenLineFacts();
      TwoLinesSplit(line1, HiddenLineText);
    } else {
      SplitNone(line1, '\n');
    }
  }

  /** The header text is the description line, followed by the hidden line when there is one. */
  lemma HeaderTextIs(description: string, hidden: bool)
    ensures HeaderText(description, hidden) ==
      if hidden then DescriptionLineText(description) + ['\n'] + HiddenLineText else DescriptionLineText(description)
  {
    var line1 := DescriptionLineText(description);
    if hidden {
      NewlineThen(line1, HiddenLineText);
    } else {
      assert line1 + "" == line1;
    }
  }

  /** Two lines joined by one line break, the second not starting with `-`, hold no `\n---`. */
  lemma TwoLinesSafe(a: string, b: string)
    requires '\n' !in a && '\n' !in b && |b| > 0 && b[0] != '-'
    ensures NoCloseInside(a + ['\n'] + b)
  {
    var t := a + ['\n'] + b;
    forall j | 0 <= j < |t| && t[j] == '\n' ensures j + 1 < |t| && t[j + 1] != '-' {
      assert j == |a|;
      assert t[j + 1] == b[0];
    }
  }

  /** Two lines without line breaks, joined by one, split back into the two. */
  lemma TwoLinesSplit(a: string, b: string)
    requires '\n' !in a && '\n' !in b
    ensures Split(a + ['\n'] + b, '\n') == [a, b]
  {
    SplitCons(a, '\n', b);
    SplitNone(b, '\n');
  }

  lemma NewlineThen(a: string, b: string)
    ensures a + ("\n" + b) == a + ['\n'] + b
  {
    assert "\n" == ['\n'];
  }

  lemma EntriesOfTwo(l1: string, l2: string)
    ensures Entries([l1]) == [ParseLine(l1)]
    ensures Entries([l1, l2]) == [ParseLine(l1), ParseLine(l2)]
  {
  }

  lemma AssignTwo(k1: string, v1: string, k2: string, v2: string)
    ensures Assign([Some((k1, v1))]) == map[k1 := v1]
    ensures Assign([Some((k1, v1)), Some((k2, v2))]) == map[k1 := v1][k2 := v2]
  {
    var e := [Some((k1, v1)), Some((k2, v2))];
    assert e[..1] == [Some((k1, v1))];
    assert e[..1][..0] == [];
  }

  lemma HeaderTextFields(description: string, hidden: bool)
    requires '\n' !in description
    ensures ParseFields(Split(HeaderText(description, hidden), '\n')) == NewFields(description, hidden)
  {
    HeaderTextLines(description, hidden);
    var line1 := DescriptionLineText(description);
    DescriptionLine(description);
    HiddenLine();
    EntriesOfTwo(line1, HiddenLineText);
    AssignTwo(DescriptionKey, QuotedText(description), HiddenKey, TrueText);
  }

  /**
   * Reading back the header the migration writes, followed by any body, yields
   * exactly the `description` field (as it appears between the quotes) plus
   * `hideInProd: true` when the article is hidden, and the body unchanged.
   */
  lemma NewHeaderRoundTrip(description: string, hidden: bool, body: string)
    requires '\n' !in description
    ensures Parse(NewHeader(description, hidden) + body) == Parsed(NewFields(description, hidden), body)
  {
    HeaderTextSafe(description, hidden);
    ParseHeader(HeaderText(description, hidden), body);
    HeaderTextFields(description, hidden);
  }

  /** The validators find a header in every file the migration writes, with the fields it wrote. */
  lemma NewHeaderFound(description: string, hidden: bool, body: string)
    requires '\n' !in description
    ensures ParseOrNull(NewHeader(description, hidden) + body) == Some(NewFields(description, hidden))
  {
    NewHeaderRoundTrip(description, hidden, body);
    assert DescriptionKey in NewFields(description, hidden);
  }

  /** Escaping never shortens, and it lengthens every string that holds a `\` or a `"`. */
  lemma {:induction false} EscapeLength(s: string)
    ensures |Escape(s)| >= |s|
    ensures ('\\' in s || '"' in s) ==> |Escape(s)| > |s|
  {
    if |s| > 0 {
      EscapeLength(s[1..]);
      assert s == [s[0]] + s[1..];
    }
  }

  /**
   * The description the migration wrote reads back as itself exactly when
   * quoting did not have to escape a `\` or a `"` in it; otherwise the reader
   * sees the backslashes, since no script unescapes.
   */
  lemma DescriptionReadBack(description: string, hidden: bool, body: string)
    requires '\n' !in description
    ensures var fields := Parse(NewHeader(description, hidden) + body).fields;
      DescriptionKey in fields
      && (fields[DescriptionKey] == description
          <==> (!NeedsEscape(description) || ('\\' !in description && '"' !in description)))
  {
    NewHeaderRoundTrip(description, hidden, body);
    var fields := Parse(NewHeader(description, hidden) + body).fields;
    KeysDiffer();
    assert fields[DescriptionKey] == QuotedText(description);
    QuotedTextSelf(description);
  }

  lemma KeysDiffer()
    ensures DescriptionKey != HiddenKey
  {
    assert |DescriptionKey| != |HiddenKey|;
  }

  /** The text between the quotes is the input itself exactly when no escaping changed it. */
  lemma QuotedTextSelf(s: string)
    ensures QuotedText(s) == s <==> (!NeedsEscape(s) || ('\\' !in s && '"' !in s))
  {
    EscapePlain(s);
    EscapeLength(s);
  }
}
