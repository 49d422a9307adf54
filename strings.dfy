/**
 * The JavaScript string operations the scripts rely on, stated over
 * `string` (a sequence of characters): `trim`, `indexOf`, `split`, `join`,
 * `startsWith`/`endsWith`, `toLowerCase`, and the two small idioms every
 * script repeats: stripping one matching pair of outer quotes, and the
 * URL-safety regex `^[a-zA-Z0-9_-]+$`.
 */
module Strings {

  datatype Option<T> = None | Some(value: T)

  /**
   * The characters that `String.prototype.trim` removes and that `\s`
   * matches: tab to carriage return, space, no-break space, the byte order
   * mark, and the Unicode space separators and line terminators.
   */
  predicate IsSpace(c: char) {
    || ('\t' <= c <= '\r') || c == ' ' || c == '\U{A0}' || c == '\U{FEFF}' || c == '\U{1680}'
    || ('\U{2000}' <= c <= '\U{200A}') || c == '\U{2028}' || c == '\U{2029}'
    || c == '\U{202F}' || c == '\U{205F}' || c == '\U{3000}'
  }

  /** `\w` in a JavaScript regular expression. */
  predicate IsWordChar(c: char) {
    ('a' <= c <= 'z') || ('A' <= c <= 'Z') || ('0' <= c <= '9') || c == '_'
  }

  predicate IsSlugChar(c: char) {
    IsWordChar(c) || c == '-'
  }

  /** `/^[a-zA-Z0-9_-]+$/.test(s)` */
  predicate IsSlug(s: string) {
    |s| > 0 && forall i :: 0 <= i < |s| ==> IsSlugChar(s[i])
  }

  /** A URL-safe character is never white space. */
  lemma SlugCharNotSpace(c: char)
    requires IsSlugChar(c) || c == '"' || c == '#'
    ensures !IsSpace(c)
  {
  }

  /** JavaScript truthiness of a value that is a string or `undefined`. */
  predicate Truthy(v: Option<string>) {
    v.Some? && v.value != ""
  }

  predicate StartsWith(s: string, p: string) {
    |p| <= |s| && s[..|p|] == p
  }

  predicate EndsWith(s: string, p: string) {
    |p| <= |s| && s[|s| - |p|..] == p
  }

  /** Leading white space removed: what is dropped is white space, what is kept is a suffix. */
  function TrimStart(s: string): (r: string)
    ensures |r| <= |s| && r == s[|s| - |r|..]
    ensures r == [] || !IsSpace(r[0])
    ensures forall i :: 0 <= i < |s| - |r| ==> IsSpace(s[i])
  {
    if |s| > 0 && IsSpace(s[0]) then TrimStart(s[1..]) else s
  }

  /** Trailing white space removed: what is dropped is white space, what is kept is a prefix. */
  function TrimEnd(s: string): (r: string)
    ensures |r| <= |s| && r == s[..|r|]
    ensures r == [] || !IsSpace(r[|r| - 1])
    ensures forall i :: |r| <= i < |s| ==> IsSpace(s[i])
  {
    if |s| > 0 && IsSpace(s[|s| - 1]) then TrimEnd(s[..|s| - 1]) else s
  }

  /** `s.trim()` */
  function Trim(s: string): (r: string)
    ensures |r| <= |s|
    ensures r == [] || (!IsSpace(r[0]) && !IsSpace(r[|r| - 1]))
  {
    TrimEnd(TrimStart(s))
  }

  /** `trim` keeps one slice of its input and drops only white space before and after it. */
  lemma TrimPadded(s: string)
    ensures exists a: nat :: Padded(s, a, Trim(s))
  {
    TrimSlice(s, TrimStart(s), Trim(s));
  }

  /** What `trim` keeps is a slice of its input with white space on both sides of it. */
  lemma TrimSlice(s: string, t: string, r: string)
    requires t == TrimStart(s) && r == TrimEnd(t)
    ensures exists a: nat :: Padded(s, a, r)
  {
    SliceOfSuffix(s, t, r);
  }

  /** A prefix `r` of a suffix `t` of `s`, with white space dropped on both sides, is padded in `s`. */
  lemma SliceOfSuffix(s: string, t: string, r: string)
    requires |t| <= |s| && t == s[|s| - |t|..] && forall i :: 0 <= i < |s| - |t| ==> IsSpace(s[i])
    requires |r| <= |t| && r == t[..|r|] && forall i :: |r| <= i < |t| ==> IsSpace(t[i])
    ensures Padded(s, |s| - |t|, r)
  {
    var a := |s| - |t|;
    assert r == s[a..a + |r|];
    forall i | a + |r| <= i < |s| ensures IsSpace(s[i]) {
      assert s[i] == t[i - a];
    }
  }

  /** `r` sits at offset `a` of `s`, with only white space before and after it. */
  predicate Padded(s: string, a: nat, r: string) {
    a + |r| <= |s| && r == s[a..a + |r|]
    && (forall i :: 0 <= i < a ==> IsSpace(s[i]))
    && (forall i :: a + |r| <= i < |s| ==> IsSpace(s[i]))
  }

  /** A string without white space at either end is its own trim. */
  lemma TrimUntouched(s: string)
    requires s == [] || (!IsSpace(s[0]) && !IsSpace(s[|s| - 1]))
    ensures Trim(s) == s
  {
  }

  /** `trimStart` removes exactly a white-space prefix in front of a non-space character. */
  lemma {:induction false} TrimStartAfterSpaces(pad: string, s: string)
    requires forall i :: 0 <= i < |pad| ==> IsSpace(pad[i])
    requires s == [] || !IsSpace(s[0])
    ensures TrimStart(pad + s) == s
  {
    if |pad| == 0 {
      assert pad + s == s;
    } else {
      assert (pad + s)[1..] == pad[1..] + s;
      TrimStartAfterSpaces(pad[1..], s);
    }
  }

  /** A string that starts with a non-space character does not trim to nothing. */
  lemma TrimNonBlank(s: string)
    requires |s| > 0 && !IsSpace(s[0])
    ensures Trim(s) != ""
  {
    assert TrimStart(s) == s;
  }

  /** Behind `n` white-space characters, the first non-space character is where the trimmed text starts. */
  lemma TrimLead(s: string, n: nat)
    requires n < |s| && !IsSpace(s[n])
    requires forall i :: 0 <= i < n ==> IsSpace(s[i])
    ensures Trim(s) != "" && Trim(s)[0] == s[n]
  {
    assert s == s[..n] + s[n..];
    TrimStartAfterSpaces(s[..n], s[n..]);
  }

  /** A character absent from a string is absent from every slice of it. */
  lemma NotInSlice(s: string, c: char, a: nat, b: nat)
    requires c !in s && a <= b <= |s|
    ensures c !in s[a..b]
  {
    assert forall k :: 0 <= k < b - a ==> s[a..b][k] == s[a + k];
  }

  /** Leading white space in front of an already-trimmed string is all that `trim` removes. */
  lemma TrimAfterSpaces(pad: string, s: string)
    requires forall i :: 0 <= i < |pad| ==> IsSpace(pad[i])
    requires s == [] || (!IsSpace(s[0]) && !IsSpace(s[|s| - 1]))
    ensures Trim(pad + s) == s
  {
    TrimStartAfterSpaces(pad, s);
    TrimUntouched(s);
  }

  /** `s.indexOf(c)`, with -1 written as `None`. */
  function Find(s: string, c: char): (r: Option<nat>)
    ensures r.None? <==> c !in s
    ensures r.Some? ==> r.value < |s| && s[r.value] == c && forall j :: 0 <= j < r.value ==> s[j] != c
  {
    if |s| == 0 then None
    else if s[0] == c then Some(0)
    else match Find(s[1..], c)
      case None => None
      case Some(i) => Some(i + 1)
  }

  /** `p` occurs in `s` starting at index `i`. */
  predicate OccursAt(s: string, p: string, i: nat) {
    i + |p| <= |s| && s[i..i + |p|] == p
  }

  /** Occurrences after the first character are occurrences in the rest of the string. */
  lemma OccursShift(s: string, p: string)
    requires 0 < |p| <= |s| && s[..|p|] != p
    ensures !OccursAt(s, p, 0)
    ensures forall j: nat :: 0 < j ==> (OccursAt(s, p, j) <==> OccursAt(s[1..], p, j - 1))
  {
    assert s[0..0 + |p|] == s[..|p|];
    forall j: nat | 0 < j ensures OccursAt(s, p, j) <==> OccursAt(s[1..], p, j - 1) {
      if j + |p| <= |s| {
        assert s[1..][j - 1..j - 1 + |p|] == s[j..j + |p|];
      }
    }
  }

  /** `s.indexOf(p)` for a non-empty pattern: the first index where `p` occurs. */
  function FindSub(s: string, p: string): (r: Option<nat>)
    requires |p| > 0
    ensures r.None? ==> forall j: nat :: !OccursAt(s, p, j)
    ensures r.Some? ==> OccursAt(s, p, r.value) && forall j: nat :: j < r.value ==> !OccursAt(s, p, j)
    decreases |s|
  {
    if |s| < |p| then None
    else if s[..|p|] == p then Some(0)
    else
      OccursShift(s, p);
      match FindSub(s[1..], p)
      case None => None
      case Some(i) => Some(i + 1)
  }

  /** The first occurrence of a pattern, when it is known where it is and that it occurs nowhere earlier. */
  lemma FindSubAt(s: string, p: string, i: nat)
    requires |p| > 0 && OccursAt(s, p, i)
    requires forall j: nat :: j < i ==> !OccursAt(s, p, j)
    ensures FindSub(s, p) == Some(i)
  {
  }

  /** The first separator of `x + c + y` is the one after `x` when `x` has none. */
  lemma FindAfterPrefix(x: string, c: char, y: string)
    requires c !in x
    ensures Find(x + [c] + y, c) == Some(|x|)
  {
    var s := x + [c] + y;
    assert s[..|x|] == x;
    assert s[|x|] == c;
  }

  /** `s.split(c)` for a one-character separator. */
  function Split(s: string, c: char): (r: seq<string>)
    ensures |r| > 0
    ensures forall i :: 0 <= i < |r| ==> c !in r[i]
    decreases |s|
  {
    match Find(s, c)
    case None => [s]
    case Some(i) => [s[..i]] + Split(s[i + 1..], c)
  }

  /** `parts.join(c)` */
  function Join(parts: seq<string>, c: char): string {
    if |parts| == 0 then ""
    else if |parts| == 1 then parts[0]
    else parts[0] + [c] + Join(parts[1..], c)
  }

  /** Splitting a string that has no separator yields the string alone. */
  lemma SplitNone(s: string, c: char)
    requires c !in s
    ensures Split(s, c) == [s]
  {
  }

  /** Splitting at the first separator peels off the text before it. */
  lemma SplitCons(x: string, c: char, y: string)
    requires c !in x
    ensures Split(x + [c] + y, c) == [x] + Split(y, c)
  {
    var s := x + [c] + y;
    assert s[|x|] == c;
    assert s[..|x|] == x;
    assert s[|x| + 1..] == y;
  }

  /** `join` then `split` gives back the pieces, when no piece holds the separator. */
  lemma {:induction false} SplitJoin(parts: seq<string>, c: char)
    requires |parts| > 0
    requires forall i :: 0 <= i < |parts| ==> c !in parts[i]
    ensures Split(Join(parts, c), c) == parts
  {
    if |parts| == 1 {
      SplitNone(parts[0], c);
    } else {
      SplitJoin(parts[1..], c);
      SplitCons(parts[0], c, Join(parts[1..], c));
    }
  }

  /** `split` then `join` gives back the string. */
  lemma {:induction false} JoinSplit(s: string, c: char)
    ensures Join(Split(s, c), c) == s
    decreases |s|
  {
    match Find(s, c)
    case None =>
    case Some(i) =>
      JoinSplit(s[i + 1..], c);
      assert s == s[..i] + [c] + s[i + 1..];
  }

  /** `s.split(c).pop()`: the text after the last separator. */
  function LastSegment(s: string, c: char): (r: string)
    ensures c !in r
    ensures EndsWith(s, r)
    decreases |s|
  {
    match Find(s, c)
    case None => s
    case Some(i) => LastSegment(s[i + 1..], c)
  }

  /** `s.split(c)[0]`: the text before the first separator. */
  function FirstSegment(s: string, c: char): (r: string)
    ensures c !in r
    ensures StartsWith(s, r)
  {
    match Find(s, c)
    case None => s
    case Some(i) => s[..i]
  }

  /** `s.split(c).slice(1).join(c)`: everything after the first separator. */
  function AfterFirst(s: string, c: char): (r: string)
    ensures c in s ==> s == FirstSegment(s, c) + [c] + r
  {
    match Find(s, c)
    case None => ""
    case Some(i) => s[i + 1..]
  }

  /** Splitting `d + c + f` at its first separator recovers `d` and `f` when `d` has no separator. */
  lemma SplitFirstOf(d: string, c: char, f: string)
    requires c !in d
    ensures FirstSegment(d + [c] + f, c) == d
    ensures AfterFirst(d + [c] + f, c) == f
  {
    var s := d + [c] + f;
    assert s[|d|] == c && s[..|d|] == d && s[|d| + 1..] == f;
  }

  /** A separator-free prefix is determined by `d + c + f`: the joined form is injective. */
  lemma JoinedInjective(d1: string, f1: string, d2: string, f2: string, c: char)
    requires c !in d1 && c !in d2
    requires d1 + [c] + f1 == d2 + [c] + f2
    ensures d1 == d2 && f1 == f2
  {
    SplitFirstOf(d1, c, f1);
    SplitFirstOf(d2, c, f2);
  }

  /** Node's `path.posix.basename(p)`: trailing slashes dropped, then the last segment. */
  function Basename(p: string): (r: string)
    ensures '/' !in r
  {
    LastSegment(StripTrailing(p, '/'), '/')
  }

  /** Trailing copies of `c` removed. */
  function StripTrailing(s: string, c: char): (r: string)
    ensures |r| <= |s| && r == s[..|r|]
    ensures r == [] || r[|r| - 1] != c
  {
    if |s| > 0 && s[|s| - 1] == c then StripTrailing(s[..|s| - 1], c) else s
  }

  /** The value is wrapped in one matching pair of `"` or `'`. */
  predicate Quoted(v: string) {
    |v| > 0 && ((v[0] == '"' && v[|v| - 1] == '"') || (v[0] == '\'' && v[|v| - 1] == '\''))
  }

  /**
   * The idiom `if ((v.startsWith('"') && v.endsWith('"')) || …) v = v.slice(1, -1)`.
   * A lone quote character counts as both ends, and `slice(1, -1)` of it is empty.
   */
  function StripQuotes(v: string): (r: string)
    ensures Quoted(v) ==> |r| == if |v| >= 2 then |v| - 2 else 0
    ensures Quoted(v) && |v| >= 2 ==> v == [v[0]] + r + [v[|v| - 1]]
    ensures !Quoted(v) ==> r == v
  {
    if Quoted(v) then (if |v| >= 2 then v[1..|v| - 1] else "") else v
  }

  /** Whatever sits between a pair of double quotes comes back out. */
  lemma UnquoteDoubleQuoted(x: string)
    ensures StripQuotes("\"" + x + "\"") == x
  {
    var v := "\"" + x + "\"";
    assert Quoted(v);
    assert v[1..|v| - 1] == x;
  }

  /** Whatever sits between a pair of single quotes comes back out. */
  lemma UnquoteSingleQuoted(x: string)
    ensures StripQuotes("'" + x + "'") == x
  {
    var v := "'" + x + "'";
    assert Quoted(v);
    assert v[1..|v| - 1] == x;
  }

  /** `c.toLowerCase()` on ASCII letters. */
  function LowerChar(c: char): char {
    if 'A' <= c <= 'Z' then (c as int + 32) as char else c
  }

  lemma AppendAssoc<T>(a: seq<T>, b: seq<T>, c: seq<T>)
    ensures a + b + c == a + (b + c)
  {
  }

  /** Dropping the first element of a concatenation. */
  lemma DropFirst<T>(a: seq<T>, b: seq<T>)
    requires |a| > 0
    ensures (a + b)[1..] == a[1..] + b
  {
  }

  lemma ConsFirst<T>(s: seq<T>)
    requires |s| > 0
    ensures s == [s[0]] + s[1..]
  {
  }

  /** One more element of a prefix. */
  lemma PrefixSnoc<T>(s: seq<T>, i: nat)
    requires i < |s|
    ensures s[..i + 1] == s[..i] + [s[i]]
  {
  }

  /** `s.toLowerCase()`, on ASCII letters. */
  function ToLower(s: string): (r: string)
    ensures |r| == |s|
    ensures forall i :: 0 <= i < |s| ==> r[i] == LowerChar(s[i])
    ensures forall i :: 0 <= i < |r| ==> !('A' <= r[i] <= 'Z')
    ensures forall i :: 0 <= i < |s| && !('A' <= s[i] <= 'Z') ==> r[i] == s[i]
  {
    seq(|s|, i requires 0 <= i < |s| => LowerChar(s[i]))
  }

  /** Lower-casing twice is lower-casing once. */
  lemma ToLowerIdempotent(s: string)
    ensures ToLower(ToLower(s)) == ToLower(s)
  {
    var r := ToLower(s);
    assert forall i :: 0 <= i < |r| ==> ToLower(r)[i] == r[i];
  }

  /** A string is its own lower-case form exactly when it holds no upper-case ASCII letter. */
  lemma ToLowerFixed(s: string)
    ensures ToLower(s) == s <==> forall i :: 0 <= i < |s| ==> !('A' <= s[i] <= 'Z')
  {
    if forall i :: 0 <= i < |s| ==> !('A' <= s[i] <= 'Z') {
      assert forall i :: 0 <= i < |s| ==> ToLower(s)[i] == s[i];
    }
  }

  /** Lower-casing never creates or removes a non-letter such as the path separator. */
  lemma ToLowerKeeps(s: string, c: char)
    requires !('A' <= c <= 'Z') && !('a' <= c <= 'z')
    ensures c in s <==> c in ToLower(s)
  {
    if c in s {
      var i :| 0 <= i < |s| && s[i] == c;
      assert ToLower(s)[i] == c;
    }
    if c in ToLower(s) {
      var i :| 0 <= i < |s| && ToLower(s)[i] == c;
      assert s[i] == c;
    }
  }

  lemma {:induction false} JoinSnoc(parts: seq<string>, x: string, c: char)
    requires |parts| > 0
    ensures Join(parts + [x], c) == Join(parts, c) + [c] + x
  {
    var rest := parts[1..];
    assert (parts + [x])[0] == parts[0];
    assert (parts + [x])[1..] == rest + [x];
    if |parts| > 1 {
      JoinSnoc(rest, x, c);
      AppendAssoc(parts[0] + [c], Join(rest, c), [c] + x);
    } else {
      assert rest + [x] == [x];
    }
  }

  /** The written file splits into its lines and one empty line after the final break. */
  lemma WrittenLines(lines: seq<string>)
    requires forall i :: 0 <= i < |lines| ==> '\n' !in lines[i]
    ensures Split(Join(lines, '\n') + "\n", '\n') == (if |lines| == 0 then ["", ""] else lines + [""])
  {
    assert "\n" == ['\n'];
    JoinThenSeparator(lines, '\n');
  }

  /** Lines without `c`, joined by `c` and followed by one more `c`, split into the lines and an empty one. */
  lemma JoinThenSeparator(lines: seq<string>, c: char)
    requires forall i :: 0 <= i < |lines| ==> c !in lines[i]
    ensures Split(Join(lines, c) + [c], c) == (if |lines| == 0 then ["", ""] else lines + [""])
  {
    if |lines| == 0 {
      assert [c] == "" + [c] + "";
      SplitCons("", c, "");
    } else {
      var parts := lines + [""];
      JoinSnoc(lines, "", c);
      assert Join(lines, c) + [c] == Join(parts, c);
      forall i | 0 <= i < |parts| ensures c !in parts[i] {
        if i < |lines| {
          assert parts[i] == lines[i];
        }
      }
      SplitJoin(parts, c);
    }
  }
}
