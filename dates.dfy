/**
 * The `dates.yaml` transform of the migration
 * (scripts/migrate-structure.mjs:422-439): every line `"<key>": "<date>"`
 * becomes `"<slug>": "<date>"`, where the slug is the last `/`-separated
 * part of the old key; the first line for a slug wins and later ones are
 * dropped.
 */
module Dates {
  import opened Strings
  import Dedup

  datatype DateEntry = DateEntry(slug: string, date: string)

  function SlugOf(e: DateEntry): string {
    e.slug
  }

  const Quote: string := "\""

  /** A leading `"`, a non-empty run without `"` and the closing `"`: the run and the text after it. */
  function QuotedPrefix(s: string): (r: Option<(string, string)>)
    ensures r.Some? ==> s == Quote + r.value.0 + Quote + r.value.1
    ensures r.Some? ==> |r.value.0| > 0 && '"' !in r.value.0
    ensures r.Some? && '\n' !in s ==> '\n' !in r.value.0 && '\n' !in r.value.1
  {
    if |s| == 0 || s[0] != '"' then None
    else
      match Find(s[1..], '"')
      case None => None
      case Some(i) =>
        if i == 0 then None
        else
          var run, rest := s[1..][..i], s[1..][i + 1..];
          assert s == Quote + run + Quote + rest;
          assert '\n' !in s ==> '\n' !in run && '\n' !in rest by {
            if '\n' !in s {
              NotInSlice(s, '\n', 1, i + 1);
              NotInSlice(s, '\n', i + 2, |s|);
              assert run == s[1..i + 1] && rest == s[i + 2..];
            }
          }
          Some((run, rest))
  }

  /** `QuotedPrefix` finds a quoted run that holds no quote. */
  lemma QuotedPrefixOf(run: string, rest: string)
    requires |run| > 0 && '"' !in run
    ensures QuotedPrefix(Quote + run + Quote + rest) == Some((run, rest))
  {
    var s := Quote + run + Quote + rest;
    assert s[1..] == run + ['"'] + rest;
    FindAfterPrefix(run, '"', rest);
    assert s[1..][..|run|] == run;
    assert s[1..][|run| + 1..] == rest;
  }

  /** After the quoted key: `:`, optional white space, and a quoted non-empty date. */
  function DatePart(after: string): (r: Option<string>)
    ensures r.Some? ==> |r.value| > 0 && '"' !in r.value
    ensures r.Some? && '\n' !in after ==> '\n' !in r.value
  {
    if |after| == 0 || after[0] != ':' then None
    else
      var t := TrimStart(after[1..]);
      assert '\n' !in after ==> '\n' !in t by {
        if '\n' !in after {
          NotInSlice(after, '\n', 1, |after|);
          NotInSlice(after[1..], '\n', |after[1..]| - |t|, |after[1..]|);
        }
      }
      match QuotedPrefix(t)
      case None => None
      case Some(dr) => Some(dr.0)
  }

  /**
   * `line.match(/^"([^"]+)":\s*"([^"]+)"/)`: a quoted non-empty key, a colon,
   * optional white space and a quoted non-empty date; anything may follow.
   */
  function MatchDateLine(line: string): (r: Option<(string, string)>)
    ensures r.Some? ==> |r.value.0| > 0 && '"' !in r.value.0 && |r.value.1| > 0 && '"' !in r.value.1
    ensures r.Some? && '\n' !in line ==> '\n' !in r.value.0 && '\n' !in r.value.1
  {
    match QuotedPrefix(line)
    case None => None
    case Some(kr) =>
      match DatePart(kr.1)
      case None => None
      case Some(date) => Some((kr.0, date))
  }

  /** `oldKey.includes('/') ? oldKey.split('/').pop() : oldKey` */
  function DateSlug(key: string): (r: string)
    ensures '/' !in r
    ensures '/' !in key ==> r == key
    ensures '"' !in key ==> '"' !in r
    ensures '\n' !in key ==> '\n' !in r
  {
    if '/' in key then
      var r := LastSegment(key, '/');
      assert forall k :: 0 <= k < |r| ==> r[k] == key[|key| - |r| + k];
      r
    else key
  }

  /** What one line of `dates.yaml` contributes: nothing for a blank or non-matching line. */
  function EntryOf(line: string): seq<DateEntry> {
    if Trim(line) == "" then []
    else
      match MatchDateLine(line)
      case None => []
      case Some(m) => [DateEntry(DateSlug(m.0), m.1)]
  }

  /** The entries of all lines, in file order, duplicates included. */
  function DateEntries(lines: seq<string>): seq<DateEntry> {
    if |lines| == 0 then []
    else DateEntries(lines[..|lines| - 1]) + EntryOf(lines[|lines| - 1])
  }

  /** `"${slug}": "${date}"` */
  function DateLine(e: DateEntry): string {
    Quote + e.slug + Quote + ": " + Quote + e.date + Quote
  }

  function DateLines(entries: seq<DateEntry>): (r: seq<string>)
    ensures |r| == |entries|
    ensures forall i :: 0 <= i < |entries| ==> r[i] == DateLine(entries[i])
  {
    if |entries| == 0 then []
    else DateLines(entries[..|entries| - 1]) + [DateLine(entries[|entries| - 1])]
  }

  /** The entries the transform keeps: the first per slug, in file order. */
  function Kept(raw: string): seq<DateEntry> {
    Dedup.DedupFirst(DateEntries(Split(raw, '\n')), SlugOf)
  }

  /** `newDatesContent` */
  function NewDates(raw: string): string {
    Join(DateLines(Kept(raw)), '\n') + "\n"
  }

  lemma DateEntriesPrefix(lines: seq<string>, i: nat)
    requires i < |lines|
    ensures DateEntries(lines[..i + 1]) == DateEntries(lines[..i]) + EntryOf(lines[i])
  {
    assert lines[..i + 1][..i] == lines[..i];
  }

  lemma DateLinesSnoc(entries: seq<DateEntry>, e: DateEntry)
    ensures DateLines(entries + [e]) == DateLines(entries) + [DateLine(e)]
  {
    assert (entries + [e])[..|entries|] == entries;
  }

  /** The loop state after the entries `entries`. */
  ghost predicate Scanned(entries: seq<DateEntry>, kept: seq<DateEntry>, seen: set<string>, newLines: seq<string>) {
    && kept == Dedup.DedupFirst(entries, SlugOf)
    && seen == Dedup.KeySet(entries, SlugOf)
    && newLines == DateLines(kept)
  }

  /** An entry is kept exactly when its slug has not been seen. */
  lemma ScanStep(entries: seq<DateEntry>, e: DateEntry, kept: seq<DateEntry>, seen: set<string>, newLines: seq<string>)
    requires Scanned(entries, kept, seen, newLines)
    ensures e.slug in seen ==> Scanned(entries + [e], kept, seen, newLines)
    ensures e.slug !in seen ==> Scanned(entries + [e], kept + [e], seen + {e.slug}, newLines + [DateLine(e)])
  {
    Dedup.DedupSnoc(entries, e, SlugOf);
    Dedup.KeySetSnoc(entries, e, SlugOf);
    DateLinesSnoc(kept, e);
  }

  lemma SkipLine(lines: seq<string>, i: nat)
    requires i < |lines| && EntryOf(lines[i]) == []
    ensures DateEntries(lines[..i + 1]) == DateEntries(lines[..i])
  {
    DateEntriesPrefix(lines, i);
  }

  lemma TakeLine(lines: seq<string>, i: nat, e: DateEntry)
    requires i < |lines| && EntryOf(lines[i]) == [e]
    ensures DateEntries(lines[..i + 1]) == DateEntries(lines[..i]) + [e]
  {
    DateEntriesPrefix(lines, i);
  }

  /** The transform loop. */
  method TransformDates(datesRaw: string) returns (newDatesContent: string)
    ensures newDatesContent == NewDates(datesRaw)
  {
    var lines := Split(datesRaw, '\n');
    var newDatesLines: seq<string> := [];
    var seenDateSlugs: set<string> := {};
    ghost var kept: seq<DateEntry> := [];
    for i := 0 to |lines|
      invariant Scanned(DateEntries(lines[..i]), kept, seenDateSlugs, newDatesLines)
    {
      ghost var entries := DateEntries(lines[..i]);
      var line := lines[i];
      if Trim(line) == "" {
        SkipLine(lines, i);
        continue;
      }
      var m := MatchDateLine(line);
      if m.None? {
        SkipLine(lines, i);
        continue;
      }
      var oldKey, date := m.value.0, m.value.1;
      var slug := if '/' in oldKey then LastSegment(oldKey, '/') else oldKey;
      ghost var e := DateEntry(slug, date);
      EntryOfMatched(line, m.value);
      TakeLine(lines, i, e);
      ScanStep(entries, e, kept, seenDateSlugs, newDatesLines);
      if slug in seenDateSlugs {
        continue;
      }
      seenDateSlugs := seenDateSlugs + {slug};
      newDatesLines := newDatesLines + [DateLine(DateEntry(slug, date))];
      kept := kept + [e];
    }
    assert lines[..|lines|] == lines;
    newDatesContent := Join(newDatesLines, '\n') + "\n";
  }

  /**
   * First occurrence wins: the kept entries have distinct slugs, there is one
   * for every slug of the file, and each is the first entry the file holds
   * for its slug.
   */
  lemma FirstDateWins(raw: string)
    ensures var all, kept := DateEntries(Split(raw, '\n')), Kept(raw);
      && (forall i, j :: 0 <= i < j < |kept| ==> kept[i].slug != kept[j].slug)
      && Dedup.KeySet(kept, SlugOf) == Dedup.KeySet(all, SlugOf)
      && forall e :: e in kept ==> e.slug in Dedup.KeySet(all, SlugOf) && e == Dedup.FirstWithKey(all, SlugOf, e.slug)
  {
    var all := DateEntries(Split(raw, '\n'));
    Dedup.DedupKeepsFirst(all, SlugOf);
    assert forall i, j :: 0 <= i < j < |Kept(raw)| ==> SlugOf(Kept(raw)[i]) != SlugOf(Kept(raw)[j]);
  }

  /** An entry the transform can write back and read again unchanged. */
  predicate Clean(e: DateEntry) {
    && |e.slug| > 0 && |e.date| > 0
    && '"' !in e.slug && '"' !in e.date
    && '/' !in e.slug
    && '\n' !in e.slug && '\n' !in e.date
  }

  lemma SpacePad()
    ensures forall i :: 0 <= i < |" "| ==> IsSpace(" "[i])
  {
    assert IsSpace(' ');
  }

  /** The part after a written key reads back as its date. */
  lemma DatePartOf(date: string)
    requires |date| > 0 && '"' !in date
    ensures DatePart(": " + (Quote + date + Quote + "")) == Some(date)
  {
    var q := Quote + date + Quote + "";
    var after := ": " + q;
    assert after[1..] == " " + q;
    SpacePad();
    TrimStartAfterSpaces(" ", q);
    QuotedPrefixOf(date, "");
  }

  lemma MatchWritten(e: DateEntry)
    requires Clean(e)
    ensures MatchDateLine(DateLine(e)) == Some((e.slug, e.date))
  {
    var after := ": " + (Quote + e.date + Quote + "");
    assert DateLine(e) == Quote + e.slug + Quote + after;
    QuotedPrefixOf(e.slug, after);
    DatePartOf(e.date);
  }

  lemma EntryOfMatched(line: string, m: (string, string))
    requires Trim(line) != "" && MatchDateLine(line) == Some(m)
    ensures EntryOf(line) == [DateEntry(DateSlug(m.0), m.1)]
  {
  }

  lemma WrittenNotBlank(e: DateEntry)
    ensures Trim(DateLine(e)) != ""
  {
    var line := DateLine(e);
    assert line[0] == '"';
    TrimNonBlank(line);
  }

  /** A written line reads back as its entry. */
  lemma DateLineReadBack(e: DateEntry)
    requires Clean(e)
    ensures EntryOf(DateLine(e)) == [e]
  {
    MatchWritten(e);
    WrittenNotBlank(e);
    EntryOfMatched(DateLine(e), (e.slug, e.date));
  }

  lemma DateEntriesSnoc(lines: seq<string>, x: string)
    ensures DateEntries(lines + [x]) == DateEntries(lines) + EntryOf(x)
  {
    assert (lines + [x])[..|lines|] == lines;
  }

  /** Reading back written lines gives their entries. */
  lemma {:induction false} DateEntriesReadBack(entries: seq<DateEntry>)
    requires forall i :: 0 <= i < |entries| ==> Clean(entries[i])
    ensures DateEntries(DateLines(entries)) == entries
  {
    if |entries| > 0 {
      var init, e := entries[..|entries| - 1], entries[|entries| - 1];
      assert entries == init + [e];
      DateEntriesReadBack(init);
      DateLineReadBack(e);
      DateLinesSnoc(init, e);
      DateEntriesSnoc(DateLines(init), DateLine(e));
    }
  }

  lemma DateLineOneLine(e: DateEntry)
    requires Clean(e)
    ensures '\n' !in DateLine(e)
  {
    assert '\n' !in Quote && '\n' !in ": ";
  }

  lemma LinesOneLine(entries: seq<DateEntry>)
    requires forall i :: 0 <= i < |entries| ==> Clean(entries[i])
    ensures forall i :: 0 <= i < |DateLines(entries)| ==> '\n' !in DateLines(entries)[i]
  {
    forall i | 0 <= i < |entries| ensures '\n' !in DateLines(entries)[i] {
      DateLineOneLine(entries[i]);
    }
  }

  lemma BlankLines()
    ensures DateEntries(["", ""]) == []
  {
    assert EntryOf("") == [];
    DateEntriesSnoc([], "");
    DateEntriesSnoc([""], "");
    assert [""] + [""] == ["", ""];
  }

  lemma ReadNonEmpty(lines: seq<string>, entries: seq<DateEntry>)
    requires DateEntries(lines) == entries
    ensures DateEntries(lines + [""]) == entries
  {
    assert EntryOf("") == [];
    DateEntriesSnoc(lines, "");
  }

  /** A written file reads back as the entries written into it. */
  lemma ReadWritten(entries: seq<DateEntry>)
    requires forall i :: 0 <= i < |entries| ==> Clean(entries[i])
    ensures DateEntries(Split(Join(DateLines(entries), '\n') + "\n", '\n')) == entries
  {
    var lines := DateLines(entries);
    LinesOneLine(entries);
    WrittenLines(lines);
    if |lines| == 0 {
      BlankLines();
    } else {
      DateEntriesReadBack(entries);
      ReadNonEmpty(lines, entries);
    }
  }

  /** The entries kept from a file are clean once their slugs are non-empty. */
  lemma KeptClean(raw: string)
    requires forall e :: e in Kept(raw) ==> e.slug != ""
    ensures forall i :: 0 <= i < |Kept(raw)| ==> Clean(Kept(raw)[i])
  {
    var all := DateEntries(Split(raw, '\n'));
    forall i | 0 <= i < |Kept(raw)| ensures Clean(Kept(raw)[i]) {
      DedupMember(all, Kept(raw)[i]);
      EntriesClean(Split(raw, '\n'), Kept(raw)[i]);
    }
  }

  /**
   * Running the transform on its own output changes nothing, provided every
   * kept slug is non-empty (a key ending in `/` gives the empty slug, whose
   * line `"": "<date>"` the pattern no longer matches).
   */
  lemma TransformIdempotent(raw: string)
    requires forall e :: e in Kept(raw) ==> e.slug != ""
    ensures NewDates(NewDates(raw)) == NewDates(raw)
  {
    var kept := Kept(raw);
    KeptClean(raw);
    ReadWritten(kept);
    assert DateEntries(Split(NewDates(raw), '\n')) == kept;
    FirstDateWins(raw);
    Dedup.DedupDistinct(kept, SlugOf);
    assert Kept(NewDates(raw)) == kept;
  }

  lemma DedupMember(all: seq<DateEntry>, e: DateEntry)
    requires e in Dedup.DedupFirst(all, SlugOf)
    ensures e in all
  {
    Dedup.DedupKeepsFirst(all, SlugOf);
  }

  /** Every entry read from split lines is clean, except that its slug may be empty. */
  lemma {:induction false} EntriesClean(lines: seq<string>, e: DateEntry)
    requires forall i :: 0 <= i < |lines| ==> '\n' !in lines[i]
    requires e in DateEntries(lines) && e.slug != ""
    ensures Clean(e)
  {
    var init := lines[..|lines| - 1];
    if e in DateEntries(init) {
      EntriesClean(init, e);
    }
  }
}
