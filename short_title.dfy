/**
 * `generateShortTitle` of the migration script: titles of at most 20
 * characters are kept; longer titles are cut back to the longest run of
 * leading words that still fits, or to their first 20 characters when not
 * even one word fits.
 */
module ShortTitle {
  import opened Strings

  const MaxLength: nat := 20

  /** The first white-space character of `s`. */
  function FindSpace(s: string): (r: Option<nat>)
    ensures r.None? ==> forall j :: 0 <= j < |s| ==> !IsSpace(s[j])
    ensures r.Some? ==> r.value < |s| && IsSpace(s[r.value]) && forall j :: 0 <= j < r.value ==> !IsSpace(s[j])
  {
    if |s| == 0 then None
    else if IsSpace(s[0]) then Some(0)
    else match FindSpace(s[1..])
      case None => None
      case Some(i) => Some(i + 1)
  }

  /** `s.split(/\s+/)`: the pieces between maximal runs of white space (empty at a leading or trailing run). */
  function Words(s: string): (r: seq<string>)
    ensures |r| > 0
    decreases |s|
  {
    match FindSpace(s)
    case None => [s]
    case Some(i) =>
      var rest := TrimStart(s[i..]);
      assert |rest| < |s[i..]|;
      [s[..i]] + Words(rest)
  }

  /** `result ? \`${result} ${word}\` : word` */
  function Glue(acc: string, word: string): string {
    if acc == "" then word else acc + " " + word
  }

  /** All of `words` glued onto `acc`, without any length limit. */
  function GlueAll(acc: string, words: seq<string>): string
    decreases |words|
  {
    if |words| == 0 then acc else GlueAll(Glue(acc, words[0]), words[1..])
  }

  /** The word loop: glue words on while the candidate has at most 20 characters, stop at the first that does not fit. */
  function Fit(acc: string, words: seq<string>): string
    decreases |words|
  {
    if |words| == 0 then acc
    else if |Glue(acc, words[0])| > MaxLength then acc
    else Fit(Glue(acc, words[0]), words[1..])
  }

  function ShortTitle(title: string): string {
    if |title| <= MaxLength then title
    else
      var r := Fit("", Words(title));
      if r != "" then r else title[..MaxLength]
  }

  /** `generateShortTitle(title)` */
  method GenerateShortTitle(title: string) returns (r: string)
    ensures r == ShortTitle(title)
  {
    if |title| <= MaxLength {
      return title;
    }
    var words := Words(title);
    var result := "";
    var i := 0;
    while i < |words|
      invariant 0 <= i <= |words|
      invariant Fit(result, words[i..]) == Fit("", words)
    {
      var candidate := if result != "" then result + " " + words[i] else words[i];
      if |candidate| > MaxLength {
        break;
      }
      result := candidate;
      i := i + 1;
    }
    assert Fit(result, words[i..]) == result;
    r := if result != "" then result else title[..MaxLength];
  }

  /** The loop never lets a result grow past the limit. */
  lemma {:induction false} FitBounded(acc: string, words: seq<string>)
    requires |acc| <= MaxLength
    ensures |Fit(acc, words)| <= MaxLength
    decreases |words|
  {
    if |words| > 0 && |Glue(acc, words[0])| <= MaxLength {
      FitBounded(Glue(acc, words[0]), words[1..]);
    }
  }

  /** A short title never has more than 20 characters. */
  lemma ShortTitleBounded(title: string)
    ensures |ShortTitle(title)| <= MaxLength
  {
    if |title| > MaxLength {
      FitBounded("", Words(title));
    }
  }

  /** A title of at most 20 characters is its own short title. */
  lemma ShortTitleKeepsShort(title: string)
    requires |title| <= MaxLength
    ensures ShortTitle(title) == title
  {
  }

  /** When not even the first word fits, the short title is the first 20 characters. */
  lemma ShortTitleCutsLongWord(title: string)
    requires |title| > MaxLength && |Words(title)[0]| > MaxLength
    ensures ShortTitle(title) == title[..MaxLength]
  {
  }

  /**
   * The loop keeps the LONGEST run of leading words that fits: the result is
   * the first `k` words glued together, and either all words were taken or
   * gluing on word `k` would pass 20 characters.
   */
  lemma {:induction false} FitIsLongestPrefix(acc: string, words: seq<string>)
    ensures exists k :: (0 <= k <= |words| && Fit(acc, words) == GlueAll(acc, words[..k])
      && (k == |words| || |Glue(Fit(acc, words), words[k])| > MaxLength))
    decreases |words|
  {
    if |words| == 0 {
      assert Fit(acc, words) == GlueAll(acc, words[..0]);
    } else if |Glue(acc, words[0])| > MaxLength {
      assert Fit(acc, words) == GlueAll(acc, words[..0]);
    } else {
      var g := Glue(acc, words[0]);
      FitIsLongestPrefix(g, words[1..]);
      var k :| 0 <= k <= |words[1..]| && Fit(g, words[1..]) == GlueAll(g, words[1..][..k])
        && (k == |words[1..]| || |Glue(Fit(g, words[1..]), words[1..][k])| > MaxLength);
      assert words[..k + 1][0] == words[0];
      assert words[..k + 1][1..] == words[1..][..k];
      assert Fit(acc, words) == GlueAll(acc, words[..k + 1]);
    }
  }

  /** For a long title the short title is the longest fitting run of leading words, when that run is not empty. */
  lemma ShortTitleLongestWords(title: string)
    requires |title| > MaxLength && Fit("", Words(title)) != ""
    ensures var words := Words(title);
      exists k :: (0 <= k <= |words| && ShortTitle(title) == GlueAll("", words[..k])
        && (k == |words| || |Glue(ShortTitle(title), words[k])| > MaxLength))
  {
    assert ShortTitle(title) == Fit("", Words(title));
    FitIsLongestPrefix("", Words(title));
  }

  /** No piece of the split holds a white-space character. */
  lemma {:induction false} WordsNoSpace(s: string, c: char)
    requires IsSpace(c)
    ensures forall i :: 0 <= i < |Words(s)| ==> c !in Words(s)[i]
    decreases |s|
  {
    match FindSpace(s)
    case None =>
    case Some(i) =>
      var rest := TrimStart(s[i..]);
      assert |rest| < |s[i..]|;
      WordsNoSpace(rest, c);
  }

  /** Gluing with single spaces adds no character other than the space. */
  lemma {:induction false} FitAvoids(acc: string, words: seq<string>, c: char)
    requires c != ' ' && c !in acc
    requires forall i :: 0 <= i < |words| ==> c !in words[i]
    ensures c !in Fit(acc, words)
    decreases |words|
  {
    if |words| > 0 && |Glue(acc, words[0])| <= MaxLength {
      FitAvoids(Glue(acc, words[0]), words[1..], c);
    }
  }

  /** A one-line title has a one-line short title. */
  lemma ShortTitleOneLine(title: string)
    requires '\n' !in title
    ensures '\n' !in ShortTitle(title)
  {
    if |title| > MaxLength {
      assert IsSpace('\n');
      WordsNoSpace(title, '\n');
      FitAvoids("", Words(title), '\n');
      assert '\n' !in title[..MaxLength];
    }
  }
}
