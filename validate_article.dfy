/**
 * The article validator (scripts/validate-article.mjs): the header of each
 * checked Markdown file must exist and carry a non-empty `id`, `title` and
 * `description`; the `id` must be URL-safe and not repeat the `id` of an
 * earlier file.
 *
 * The disk is a snapshot: the tree under `articles/` and the text of every
 * regular file, keyed by its path relative to the repository root. Reading a
 * path that is not a regular file throws, and the run ends with the
 * uncaught exception.
 */
module ValidateArticle {
  import opened Strings
  import Dedup
  import Seqs
  import Frontmatter
  import opened Outcomes

  datatype Node = Dir(name: string, children: seq<Node>) | File(name: string)

  datatype Snapshot = Snapshot(
    /** The entries of `articles/`, when that directory exists. */
    articlesDir: Option<seq<Node>>,
    /** The paths given on the command line. */
    args: seq<string>,
    /** The text of each regular file, keyed by its path. */
    contents: map<string, string>)

  datatype RequiredField = Id | Title | Description

  datatype Issue =
    | MissingFrontmatter(rel: string)
    | MissingField(rel: string, field: RequiredField)
    | UnsafeId(rel: string, id: string)
    | DuplicateId(rel: string, id: string, previous: string)

  type Outcome = Outcomes.Outcome<Issue>

  const RequiredFields: seq<RequiredField> := [Id, Title, Description]
  const IdKey: string := "id"
  const MdSuffix: string := ".md"

  function FieldKey(f: RequiredField): string {
    match f
    case Id => IdKey
    case Title => "title"
    case Description => Frontmatter.DescriptionKey
  }

  // ---------------------------------------------------------------------
  // findMdFiles (lines 33-44)

  function Join(dir: string, name: string): string {
    dir + "/" + name
  }

  /**
   * The `.md` files of a listing, depth first in listing order. A directory
   * whose name starts with `.` is not entered, but it is listed itself when
   * its name ends with `.md`, like any other entry that is not entered.
   */
  function MdFiles(dir: string, entries: seq<Node>): seq<string>
    decreases entries
  {
    if |entries| == 0 then []
    else
      var entry := entries[|entries| - 1];
      MdFiles(dir, entries[..|entries| - 1]) +
      if entry.Dir? && !StartsWith(entry.name, ".") then MdFiles(Join(dir, entry.name), entry.children)
      else if EndsWith(entry.name, MdSuffix) then [Join(dir, entry.name)]
      else []
  }

  method FindMdFiles(dir: string, entries: seq<Node>) returns (files: seq<string>)
    ensures files == MdFiles(dir, entries)
    decreases entries
  {
    files := [];
    for i := 0 to |entries|
      invariant files == MdFiles(dir, entries[..i])
    {
      assert entries[..i + 1][..i] == entries[..i];
      var entry := entries[i];
      var full := Join(dir, entry.name);
      if entry.Dir? && !StartsWith(entry.name, ".") {
        var inner := FindMdFiles(full, entry.children);
        files := files + inner;
      } else if EndsWith(entry.name, MdSuffix) {
        files := files + [full];
      }
    }
    assert entries[..|entries|] == entries;
  }

  /** Every listed path ends with `.md` and lies under the listed directory. */
  lemma {:induction false} MdFilesShape(dir: string, entries: seq<Node>)
    ensures forall p :: p in MdFiles(dir, entries) ==> EndsWith(p, MdSuffix) && StartsWith(p, dir + "/")
    decreases entries
  {
    if |entries| > 0 {
      var entry := entries[|entries| - 1];
      MdFilesShape(dir, entries[..|entries| - 1]);
      if entry.Dir? && !StartsWith(entry.name, ".") {
        MdFilesShape(Join(dir, entry.name), entry.children);
        forall p | p in MdFiles(Join(dir, entry.name), entry.children) ensures StartsWith(p, dir + "/") {
          assert p[..|dir + "/"|] == (Join(dir, entry.name) + "/")[..|dir + "/"|];
        }
      } else if EndsWith(entry.name, MdSuffix) {
        var p := Join(dir, entry.name);
        assert p[|p| - |MdSuffix|..] == entry.name[|entry.name| - |MdSuffix|..];
        assert p[..|dir + "/"|] == dir + "/";
      }
    }
  }

  /** A Markdown file directly in the listing is always checked. */
  lemma {:induction false} MdFileListed(dir: string, entries: seq<Node>, k: nat)
    requires k < |entries| && entries[k].File? && EndsWith(entries[k].name, MdSuffix)
    ensures Join(dir, entries[k].name) in MdFiles(dir, entries)
  {
    var init := entries[..|entries| - 1];
    var entry := entries[|entries| - 1];
    var tail := if entry.Dir? && !StartsWith(entry.name, ".") then MdFiles(Join(dir, entry.name), entry.children)
      else if EndsWith(entry.name, MdSuffix) then [Join(dir, entry.name)]
      else [];
    assert MdFiles(dir, entries) == MdFiles(dir, init) + tail;
    if k < |init| {
      assert init[k] == entries[k];
      MdFileListed(dir, init, k);
    } else {
      assert tail == [Join(dir, entries[k].name)];
    }
  }

  function ArticlesRoot(): string {
    "articles"
  }

  function ArgFiles(args: seq<string>): seq<string> {
    Seqs.ConcatMap(args, (a: string) => if EndsWith(a, MdSuffix) then [a] else [])
  }

  /** The given `.md` paths, or every `.md` file under `articles/`; `None` when that directory cannot be listed. */
  function Targets(snap: Snapshot): Option<seq<string>> {
    if |snap.args| > 0 then Some(ArgFiles(snap.args))
    else if snap.articlesDir.None? then None
    else Some(MdFiles(ArticlesRoot(), snap.articlesDir.value))
  }

  /** Given paths are filtered by their suffix only. */
  lemma ArgFilesAre(args: seq<string>, p: string)
    ensures p in ArgFiles(args) <==> p in args && EndsWith(p, MdSuffix)
  {
    var f := (a: string) => if EndsWith(a, MdSuffix) then [a] else [];
    Seqs.ConcatMapIn(args, f, p);
    if p in args && EndsWith(p, MdSuffix) {
      var k :| 0 <= k < |args| && args[k] == p;
      assert p in f(args[k]);
    }
  }

  // ---------------------------------------------------------------------
  // The per-file checks (lines 54-79)

  /** The `id` a file records in `seenIds`: its header's `id` when that is non-empty. */
  function IdOf(content: string): Option<string> {
    match Frontmatter.ParseOrNull(content)
    case None => None
    case Some(fm) => if Truthy(Frontmatter.Lookup(fm, IdKey)) then Frontmatter.Lookup(fm, IdKey) else None
  }

  function FieldIssue(rel: string, fm: map<string, string>, f: RequiredField): seq<Issue> {
    if Truthy(Frontmatter.Lookup(fm, FieldKey(f))) then [] else [MissingField(rel, f)]
  }

  function IdIssues(seenIds: map<string, string>, rel: string, id: string): seq<Issue> {
    (if IsSlug(id) then [] else [UnsafeId(rel, id)]) +
    (if id in seenIds then [DuplicateId(rel, id, seenIds[id])] else [])
  }

  /** The messages of one file, given the ids recorded by the files before it. */
  function FileIssues(seenIds: map<string, string>, rel: string, content: string): seq<Issue> {
    match Frontmatter.ParseOrNull(content)
    case None => [MissingFrontmatter(rel)]
    case Some(fm) =>
      Seqs.ConcatMap(RequiredFields, f => FieldIssue(rel, fm, f)) +
      if IdOf(content).Some? then IdIssues(seenIds, rel, IdOf(content).value) else []
  }

  /** `seenIds` after one file: its id, if any, now names this file. */
  function Record(seenIds: map<string, string>, rel: string, content: string): map<string, string> {
    if IdOf(content).Some? then seenIds[IdOf(content).value := rel] else seenIds
  }

  /** A checked file: its path and its text. */
  datatype Checked = Checked(rel: string, content: string)

  function SeenAfter(files: seq<Checked>): map<string, string> {
    if |files| == 0 then map[]
    else Record(SeenAfter(files[..|files| - 1]), files[|files| - 1].rel, files[|files| - 1].content)
  }

  function ErrorsOf(files: seq<Checked>): seq<Issue> {
    if |files| == 0 then []
    else
      var last := files[|files| - 1];
      ErrorsOf(files[..|files| - 1]) + FileIssues(SeenAfter(files[..|files| - 1]), last.rel, last.content)
  }

  /** The files read, or `None` when some target cannot be read. */
  function Read(paths: seq<string>, contents: map<string, string>): Option<seq<Checked>> {
    if |paths| == 0 then Some([])
    else
      var init := Read(paths[..|paths| - 1], contents);
      var p := paths[|paths| - 1];
      if init.None? || p !in contents then None else Some(init.value + [Checked(p, contents[p])])
  }

  function Validate(snap: Snapshot): Outcome {
    match Targets(snap)
    case None => Crashed
    case Some(paths) =>
      match Read(paths, snap.contents)
      case None => Crashed
      case Some(files) => Finished(ErrorsOf(files))
  }

  method CheckRequired(rel: string, fields: map<string, string>) returns (issues: seq<Issue>)
    ensures issues == Seqs.ConcatMap(RequiredFields, f => FieldIssue(rel, fields, f))
  {
    issues := [];
    for k := 0 to |RequiredFields|
      invariant issues == Seqs.ConcatMap(RequiredFields[..k], f => FieldIssue(rel, fields, f))
    {
      Seqs.ConcatMapSnoc(RequiredFields, f => FieldIssue(rel, fields, f), k);
      var key := FieldKey(RequiredFields[k]);
      if !(key in fields && fields[key] != "") {
        issues := issues + [MissingField(rel, RequiredFields[k])];
      }
    }
    assert RequiredFields[..|RequiredFields|] == RequiredFields;
  }

  /** The messages and the record of a file with a header, in terms of its fields. */
  lemma HeaderFileIssues(seenIds: map<string, string>, rel: string, content: string, fields: map<string, string>)
    requires Frontmatter.ParseOrNull(content) == Some(fields)
    ensures IdOf(content) == if IdKey in fields && fields[IdKey] != "" then Some(fields[IdKey]) else None
    ensures FileIssues(seenIds, rel, content) ==
      Seqs.ConcatMap(RequiredFields, f => FieldIssue(rel, fields, f)) +
      if IdKey in fields && fields[IdKey] != "" then IdIssues(seenIds, rel, fields[IdKey]) else []
    ensures Record(seenIds, rel, content) == if IdKey in fields && fields[IdKey] != "" then seenIds[fields[IdKey] := rel] else seenIds
  {
    var idOk := IdKey in fields && fields[IdKey] != "";
    assert Truthy(Frontmatter.Lookup(fields, IdKey)) == idOk;
    if idOk {
      assert IdOf(content) == Some(fields[IdKey]);
    } else {
      assert IdOf(content) == None;
    }
  }

  /** The checks of a file with a header. */
  method CheckFields(seenIdsIn: map<string, string>, rel: string, fields: map<string, string>)
    returns (issues: seq<Issue>, seenIds: map<string, string>)
    ensures issues == Seqs.ConcatMap(RequiredFields, f => FieldIssue(rel, fields, f)) +
      if IdKey in fields && fields[IdKey] != "" then IdIssues(seenIdsIn, rel, fields[IdKey]) else []
    ensures seenIds == if IdKey in fields && fields[IdKey] != "" then seenIdsIn[fields[IdKey] := rel] else seenIdsIn
  {
    seenIds := seenIdsIn;
    issues := CheckRequired(rel, fields);
    if IdKey in fields && fields[IdKey] != "" {
      var id := fields[IdKey];
      if !IsSlug(id) {
        issues := issues + [UnsafeId(rel, id)];
      }
      if id in seenIds {
        issues := issues + [DuplicateId(rel, id, seenIds[id])];
      }
      seenIds := seenIds[id := rel];
    }
  }

  method CheckFile(seenIdsIn: map<string, string>, rel: string, content: string)
    returns (issues: seq<Issue>, seenIds: map<string, string>)
    ensures issues == FileIssues(seenIdsIn, rel, content)
    ensures seenIds == Record(seenIdsIn, rel, content)
  {
    var fm := Frontmatter.ParseOrNull(content);
    if fm.None? {
      issues, seenIds := [MissingFrontmatter(rel)], seenIdsIn;
    } else {
      HeaderFileIssues(seenIdsIn, rel, content, fm.value);
      issues, seenIds := CheckFields(seenIdsIn, rel, fm.value);
    }
  }


  lemma ReadSnoc(paths: seq<string>, contents: map<string, string>, i: nat)
    requires i < |paths|
    ensures Read(paths[..i + 1], contents) ==
      if Read(paths[..i], contents).None? || paths[i] !in contents then None
      else Some(Read(paths[..i], contents).value + [Checked(paths[i], contents[paths[i]])])
  {
    assert paths[..i + 1][..i] == paths[..i];
  }

  lemma CheckedSnoc(files: seq<Checked>, f: Checked)
    ensures SeenAfter(files + [f]) == Record(SeenAfter(files), f.rel, f.content)
    ensures ErrorsOf(files + [f]) == ErrorsOf(files) + FileIssues(SeenAfter(files), f.rel, f.content)
  {
    assert (files + [f])[..|files|] == files;
  }

  method ValidateArticles(snap: Snapshot) returns (outcome: Outcome)
    ensures outcome == Validate(snap)
  {
    var targetFiles: seq<string>;
    if |snap.args| > 0 {
      targetFiles := [];
      for i := 0 to |snap.args|
        invariant targetFiles == ArgFiles(snap.args[..i])
      {
        Seqs.ConcatMapSnoc(snap.args, (a: string) => if EndsWith(a, MdSuffix) then [a] else [], i);
        if EndsWith(snap.args[i], MdSuffix) {
          targetFiles := targetFiles + [snap.args[i]];
        }
      }
      assert snap.args[..|snap.args|] == snap.args;
    } else if snap.articlesDir.None? {
      return Crashed;
    } else {
      targetFiles := FindMdFiles(ArticlesRoot(), snap.articlesDir.value);
    }
    var errors: seq<Issue> := [];
    var seenIds: map<string, string> := map[];
    ghost var checked: seq<Checked> := [];
    for i := 0 to |targetFiles|
      invariant Read(targetFiles[..i], snap.contents) == Some(checked)
      invariant errors == ErrorsOf(checked)
      invariant seenIds == SeenAfter(checked)
    {
      ReadSnoc(targetFiles, snap.contents, i);
      var file := targetFiles[i];
      if file !in snap.contents {
        ReadFails(targetFiles, snap.contents, i);
        return Crashed;
      }
      var content := snap.contents[file];
      CheckedSnoc(checked, Checked(file, content));
      var more;
      more, seenIds := CheckFile(seenIds, file, content);
      errors := errors + more;
      checked := checked + [Checked(file, content)];
    }
    assert targetFiles[..|targetFiles|] == targetFiles;
    outcome := Finished(errors);
  }

  /** Once one target cannot be read, the whole read fails. */
  lemma {:induction false} ReadFails(paths: seq<string>, contents: map<string, string>, i: nat)
    requires i < |paths| && paths[i] !in contents
    ensures Read(paths, contents).None?
  {
    if i < |paths| - 1 {
      ReadFails(paths[..|paths| - 1], contents, i);
    }
  }

  // ---------------------------------------------------------------------
  // What the run reports

  /** A file without a header gets the one missing-header message and records no id. */
  lemma NoHeaderOnly(seenIds: map<string, string>, rel: string, content: string)
    requires Frontmatter.HeaderEnd(content).None?
    ensures FileIssues(seenIds, rel, content) == [MissingFrontmatter(rel)]
    ensures Record(seenIds, rel, content) == seenIds
  {
  }

  /** With a header, each required field that is missing or empty is reported, once and in the order `id`, `title`, `description`. */
  lemma FieldIssuesAre(rel: string, fm: map<string, string>, e: Issue)
    ensures e in Seqs.ConcatMap(RequiredFields, f => FieldIssue(rel, fm, f)) <==>
      e.MissingField? && e.rel == rel && !Truthy(Frontmatter.Lookup(fm, FieldKey(e.field)))
    ensures Dedup.Distinct(Seqs.ConcatMap(RequiredFields, f => FieldIssue(rel, fm, f)))
  {
    var g := (f: RequiredField) => FieldIssue(rel, fm, f);
    Seqs.ConcatMapIn(RequiredFields, g, e);
    if e.MissingField? && e.rel == rel && !Truthy(Frontmatter.Lookup(fm, FieldKey(e.field))) {
      var k := match e.field case Id => 0 case Title => 1 case Description => 2;
      assert RequiredFields[k] == e.field;
      assert e in g(RequiredFields[k]);
    }
    Seqs.ConcatMapDistinct(RequiredFields, g);
  }

  /** The id messages of one file: a non-empty id is reported when it is not URL-safe, and as a duplicate naming the file that last recorded it. */
  lemma IdIssuesAre(seenIds: map<string, string>, rel: string, content: string, e: Issue)
    ensures (e.UnsafeId? && e in FileIssues(seenIds, rel, content)) <==>
      e.UnsafeId? && e.rel == rel && IdOf(content) == Some(e.id) && !IsSlug(e.id)
    ensures (e.DuplicateId? && e in FileIssues(seenIds, rel, content)) <==>
      e.DuplicateId? && e.rel == rel && IdOf(content) == Some(e.id) && e.id in seenIds && seenIds[e.id] == e.previous
  {
    var parsed := Frontmatter.ParseOrNull(content);
    if parsed.Some? {
      var fm := parsed.value;
      HeaderFileIssues(seenIds, rel, content, fm);
      FieldIssuesAre(rel, fm, e);
      var fieldIssues := Seqs.ConcatMap(RequiredFields, f => FieldIssue(rel, fm, f));
      assert !e.MissingField? ==> e !in fieldIssues;
      if IdOf(content).Some? {
        var id := IdOf(content).value;
        assert FileIssues(seenIds, rel, content) == fieldIssues + IdIssues(seenIds, rel, id);
      } else {
        assert FileIssues(seenIds, rel, content) == fieldIssues;
      }
    } else {
      assert FileIssues(seenIds, rel, content) == [MissingFrontmatter(rel)];
      assert IdOf(content) == None;
    }
  }

  /** File `j` recorded `id` and no later file of `files` did. */
  predicate LastWithId(files: seq<Checked>, id: string, j: nat) {
    Seqs.LastWhere(files, HasId(id), j)
  }

  /** The file recorded `id`. */
  function HasId(id: string): Checked -> bool {
    (c: Checked) => IdOf(c.content) == Some(id)
  }

  lemma {:induction false} SeenKept(files: seq<Checked>, id: string, j: nat)
    requires j < |files| && IdOf(files[j].content) == Some(id)
    ensures id in SeenAfter(files)
  {
    var init := files[..|files| - 1];
    if j < |init| {
      assert init[j] == files[j];
      SeenKept(init, id, j);
    }
  }

  /** Recording a file whose id is not `id` leaves the entry for `id` as it was. */
  lemma RecordOther(seenIds: map<string, string>, rel: string, content: string, id: string)
    requires IdOf(content) != Some(id)
    ensures id in Record(seenIds, rel, content) <==> id in seenIds
    ensures id in seenIds ==> Record(seenIds, rel, content)[id] == seenIds[id]
  {
  }

  /** Each id in `seenIds` names the most recent file that recorded it. */
  lemma {:induction false} SeenLast(files: seq<Checked>, id: string) returns (j: nat)
    requires id in SeenAfter(files)
    ensures LastWithId(files, id, j) && SeenAfter(files)[id] == files[j].rel
  {
    var init := files[..|files| - 1];
    var last := files[|files| - 1];
    assert files == init + [last];
    assert SeenAfter(files) == Record(SeenAfter(init), last.rel, last.content);
    if IdOf(last.content) == Some(id) {
      j := |files| - 1;
    } else {
      RecordOther(SeenAfter(init), last.rel, last.content, id);
      j := SeenLast(init, id);
      Seqs.LastWhereSnoc(init, last, HasId(id), j);
      assert files[j] == init[j];
    }
  }

  /** `seenIds` knows exactly the ids some file recorded. */
  lemma SeenDomain(files: seq<Checked>, id: string)
    ensures id in SeenAfter(files) <==> exists j :: 0 <= j < |files| && IdOf(files[j].content) == Some(id)
  {
    if id in SeenAfter(files) {
      var j := SeenLast(files, id);
    }
    if exists j :: 0 <= j < |files| && IdOf(files[j].content) == Some(id) {
      var j :| 0 <= j < |files| && IdOf(files[j].content) == Some(id);
      SeenKept(files, id, j);
    }
  }

  lemma {:induction false} IssueKept(files: seq<Checked>, i: nat, e: Issue)
    requires i < |files| && e in FileIssues(SeenAfter(files[..i]), files[i].rel, files[i].content)
    ensures e in ErrorsOf(files)
  {
    var init := files[..|files| - 1];
    if i < |init| {
      assert init[..i] == files[..i] && init[i] == files[i];
      IssueKept(init, i, e);
    } else {
      assert init == files[..i];
    }
  }

  lemma {:induction false} IssueSource(files: seq<Checked>, e: Issue) returns (i: nat)
    requires e in ErrorsOf(files)
    ensures i < |files| && e in FileIssues(SeenAfter(files[..i]), files[i].rel, files[i].content)
  {
    var init := files[..|files| - 1];
    if e in ErrorsOf(init) {
      i := IssueSource(init, e);
      assert init[..i] == files[..i] && init[i] == files[i];
    } else {
      i := |files| - 1;
      assert init == files[..i];
    }
  }

  /** At most one file is the last to record an id. */
  lemma LastWithIdUnique(files: seq<Checked>, id: string, j: nat, k: nat)
    requires LastWithId(files, id, j) && LastWithId(files, id, k)
    ensures j == k
  {
    Seqs.LastWhereUnique(files, HasId(id), j, k);
  }

  /** File `i` recorded `id` and file `j` is the most recent one before it that did. */
  predicate Repeats(files: seq<Checked>, i: nat, j: nat, id: string) {
    j < i < |files| && IdOf(files[i].content) == Some(id) && LastWithId(files[..i], id, j)
  }

  lemma DuplicateSource(files: seq<Checked>, rel: string, id: string, previous: string) returns (i: nat, j: nat)
    requires DuplicateId(rel, id, previous) in ErrorsOf(files)
    ensures Repeats(files, i, j, id) && files[i].rel == rel && files[j].rel == previous
  {
    var e := DuplicateId(rel, id, previous);
    i := IssueSource(files, e);
    IdIssuesAre(SeenAfter(files[..i]), files[i].rel, files[i].content, e);
    j := SeenLast(files[..i], id);
    assert files[..i][j] == files[j];
  }

  lemma DuplicateKept(files: seq<Checked>, i: nat, j: nat, id: string)
    requires Repeats(files, i, j, id)
    ensures DuplicateId(files[i].rel, id, files[j].rel) in ErrorsOf(files)
  {
    var e := DuplicateId(files[i].rel, id, files[j].rel);
    SeenKept(files[..i], id, j);
    var k := SeenLast(files[..i], id);
    LastWithIdUnique(files[..i], id, j, k);
    assert files[..i][j] == files[j];
    IdIssuesAre(SeenAfter(files[..i]), files[i].rel, files[i].content, e);
    IssueKept(files, i, e);
  }

  /** A duplicate id is reported for a file exactly when an earlier file recorded the same id, and the message names the most recent such file. */
  lemma DuplicateIdReported(files: seq<Checked>, rel: string, id: string, previous: string)
    ensures DuplicateId(rel, id, previous) in ErrorsOf(files) <==>
      exists i: nat, j: nat :: Repeats(files, i, j, id) && files[i].rel == rel && files[j].rel == previous
  {
    if DuplicateId(rel, id, previous) in ErrorsOf(files) {
      var i, j := DuplicateSource(files, rel, id, previous);
    }
    if exists i: nat, j: nat :: Repeats(files, i, j, id) && files[i].rel == rel && files[j].rel == previous {
      var i: nat, j: nat :| Repeats(files, i, j, id) && files[i].rel == rel && files[j].rel == previous;
      DuplicateKept(files, i, j, id);
    }
  }

}
