/**
 * The image validator (scripts/validate-images.mjs): every image reference
 * of the checked articles must point at an existing icon or at an existing
 * file under the `images/` directory of a known article, and every file
 * under an article's `images/` that no checked article references is
 * reported as unused.
 *
 * The disk is a snapshot: the listing of `articles/`, the parsed text of
 * each `article.md`, the files under each `articles/{slug}/images/` and
 * every path that exists there (sub-directories included), the names under `categoryIcons/`, and the command-line paths with the parsed
 * text of those that exist. The references of a text are its
 * `Body.Refs`: the scan cursor is reset for each file, so they depend on
 * that file alone.
 */
module ValidateImages {
  import opened Strings
  import Dedup
  import Seqs
  import Body

  const IconsDir: string := "categoryIcons"

  datatype Entry = Entry(name: string, isDirectory: bool)

  datatype Snapshot = Snapshot(
    /** The entries of `articles/`, when that directory exists. */
    articlesDir: Option<seq<Entry>>,
    /** The text of `articles/{name}/article.md`, for each name where that file exists. */
    articleFiles: map<string, seq<Body.Segment>>,
    /** The files under `articles/{slug}/images/`, relative to it, for each slug where that directory exists. */
    imageDirs: map<string, seq<string>>,
    /**
     * The paths that `existsSync` finds under `articles/{slug}/images/`,
     * relative to it, for each slug where that directory exists: the files
     * above, and the sub-directories on the way to them as well.
     */
    imagePaths: map<string, set<string>>,
    /** The file names present in `categoryIcons/`. */
    icons: set<string>,
    /** The paths given on the command line. */
    args: seq<string>,
    /** The text of each given path that exists. */
    argFiles: map<string, seq<Body.Segment>>)

  /** A file to check: its path relative to the repository root and its text. */
  datatype Target = Target(rel: string, body: seq<Body.Segment>)

  /** One match of the image pattern in a file. */
  datatype Ref = Ref(rel: string, dir: string, file: string)

  datatype Issue =
    | MissingIcon(rel: string, file: string)
    | UnknownDirectory(rel: string, dir: string, file: string)
    | MissingImage(rel: string, slug: string, file: string)

  datatype Warning = UnusedImage(slug: string, file: string)

  datatype Report = Report(errors: seq<Issue>, warnings: seq<Warning>)

  // ---------------------------------------------------------------------
  // validSlugs (lines 53-61)

  function SlugsIn(entries: seq<Entry>): seq<string> {
    if |entries| == 0 then []
    else
      var e := entries[|entries| - 1];
      var init := SlugsIn(entries[..|entries| - 1]);
      if e.isDirectory then Dedup.AddNew(init, e.name) else init
  }

  /** The `validSlugs` set, in insertion order. */
  function ValidSlugs(dir: Option<seq<Entry>>): seq<string> {
    if dir.None? then [] else SlugsIn(dir.value)
  }

  method CollectSlugs(dir: Option<seq<Entry>>) returns (validSlugs: seq<string>)
    ensures validSlugs == ValidSlugs(dir)
  {
    validSlugs := [];
    if dir.Some? {
      var entries := dir.value;
      for i := 0 to |entries|
        invariant validSlugs == SlugsIn(entries[..i])
      {
        assert entries[..i + 1][..i] == entries[..i];
        if entries[i].isDirectory && entries[i].name !in validSlugs {
          validSlugs := validSlugs + [entries[i].name];
        }
      }
      assert entries[..|entries|] == entries;
    }
  }

  /** `validSlugs` holds each directory of `articles/` once, and nothing else. */
  lemma {:induction false} SlugsInAre(entries: seq<Entry>, x: string)
    ensures Dedup.Distinct(SlugsIn(entries))
    ensures x in SlugsIn(entries) <==> exists k :: 0 <= k < |entries| && entries[k] == Entry(x, true)
  {
    if |entries| > 0 {
      var init := entries[..|entries| - 1];
      var e := entries[|entries| - 1];
      SlugsInAre(init, x);
      if exists k :: 0 <= k < |init| && init[k] == Entry(x, true) {
        var k :| 0 <= k < |init| && init[k] == Entry(x, true);
        assert entries[k] == init[k];
      }
      if exists k :: 0 <= k < |entries| && entries[k] == Entry(x, true) {
        var k :| 0 <= k < |entries| && entries[k] == Entry(x, true);
        if k < |init| {
          assert init[k] == entries[k];
        }
      }
    }
  }

  lemma ValidSlugsAre(dir: Option<seq<Entry>>, x: string)
    ensures Dedup.Distinct(ValidSlugs(dir))
    ensures x in ValidSlugs(dir) <==> dir.Some? && exists k :: 0 <= k < |dir.value| && dir.value[k] == Entry(x, true)
  {
    if dir.Some? {
      SlugsInAre(dir.value, x);
    }
  }

  // ---------------------------------------------------------------------
  // targetFiles (lines 25-37 and 63-66)

  function ArticlePath(name: string): string {
    "articles/" + name + "/article.md"
  }

  function ArticleTarget(files: map<string, seq<Body.Segment>>, e: Entry): seq<Target> {
    if e.isDirectory && e.name in files then [Target(ArticlePath(e.name), files[e.name])] else []
  }

  /** `findArticleFiles(ARTICLES_DIR)`: the `article.md` of each directory that has one, in listing order. */
  function ArticleTargets(dir: Option<seq<Entry>>, files: map<string, seq<Body.Segment>>): seq<Target> {
    if dir.None? then [] else Seqs.ConcatMap(dir.value, e => ArticleTarget(files, e))
  }

  function ArgTarget(argFiles: map<string, seq<Body.Segment>>, path: string): seq<Target> {
    if path in argFiles then [Target(path, argFiles[path])] else []
  }

  /** The given paths that exist, or every article when no path is given. */
  function Targets(snap: Snapshot): seq<Target> {
    if |snap.args| > 0 then Seqs.ConcatMap(snap.args, path => ArgTarget(snap.argFiles, path))
    else ArticleTargets(snap.articlesDir, snap.articleFiles)
  }

  method FindArticleFiles(dir: Option<seq<Entry>>, files: map<string, seq<Body.Segment>>) returns (targets: seq<Target>)
    ensures targets == ArticleTargets(dir, files)
  {
    targets := [];
    if dir.Some? {
      var entries := dir.value;
      for i := 0 to |entries|
        invariant targets == Seqs.ConcatMap(entries[..i], e => ArticleTarget(files, e))
      {
        Seqs.ConcatMapSnoc(entries, e => ArticleTarget(files, e), i);
        if entries[i].isDirectory && entries[i].name in files {
          targets := targets + [Target(ArticlePath(entries[i].name), files[entries[i].name])];
        }
      }
      assert entries[..|entries|] == entries;
    }
  }

  method SelectTargets(snap: Snapshot) returns (targets: seq<Target>)
    ensures targets == Targets(snap)
  {
    if |snap.args| > 0 {
      targets := [];
      for i := 0 to |snap.args|
        invariant targets == Seqs.ConcatMap(snap.args[..i], path => ArgTarget(snap.argFiles, path))
      {
        Seqs.ConcatMapSnoc(snap.args, path => ArgTarget(snap.argFiles, path), i);
        if snap.args[i] in snap.argFiles {
          targets := targets + [Target(snap.args[i], snap.argFiles[snap.args[i]])];
        }
      }
      assert snap.args[..|snap.args|] == snap.args;
    } else {
      targets := FindArticleFiles(snap.articlesDir, snap.articleFiles);
    }
  }

  /** By default the checked files are exactly the `article.md` files of the directories of `articles/`, so each names a valid slug. */
  lemma ArticleTargetsAre(dir: Option<seq<Entry>>, files: map<string, seq<Body.Segment>>, t: Target)
    ensures t in ArticleTargets(dir, files) <==>
      dir.Some? &&
      exists k :: 0 <= k < |dir.value| && dir.value[k].isDirectory && dir.value[k].name in files &&
        t == Target(ArticlePath(dir.value[k].name), files[dir.value[k].name])
  {
    if dir.Some? {
      Seqs.ConcatMapIn(dir.value, e => ArticleTarget(files, e), t);
    }
  }

  // ---------------------------------------------------------------------
  // The scan (lines 70-107)

  /** The matches of one file, in order. */
  function RefsOf(t: Target): seq<Ref> {
    Seqs.ConcatMap(Body.Refs(t.body), (p: (string, string)) => [Ref(t.rel, p.0, p.1)])
  }

  lemma RefsOfIn(t: Target, r: Ref)
    ensures r in RefsOf(t) <==> r.rel == t.rel && (r.dir, r.file) in Body.Refs(t.body)
  {
    var f := (p: (string, string)) => [Ref(t.rel, p.0, p.1)];
    Seqs.ConcatMapIn(Body.Refs(t.body), f, r);
    if r.rel == t.rel && (r.dir, r.file) in Body.Refs(t.body) {
      var k :| 0 <= k < |Body.Refs(t.body)| && Body.Refs(t.body)[k] == (r.dir, r.file);
      assert r in f(Body.Refs(t.body)[k]);
    }
  }

  /** `existsSync(articles/{slug}/images/{file})`, which holds for a sub-directory as well as for a file. */
  predicate ImageExists(snap: Snapshot, slug: string, file: string) {
    slug in snap.imagePaths && file in snap.imagePaths[slug]
  }

  /** The error one match raises, if any. */
  function RefIssue(valid: seq<string>, snap: Snapshot, r: Ref): seq<Issue> {
    if r.dir == IconsDir then
      (if r.file in snap.icons then [] else [MissingIcon(r.rel, r.file)])
    else if r.dir !in valid then [UnknownDirectory(r.rel, r.dir, r.file)]
    else if ImageExists(snap, r.dir, r.file) then []
    else [MissingImage(r.rel, r.dir, r.file)]
  }

  /** The files referenced so far under one slug. */
  function Files(referenced: map<string, set<string>>, slug: string): set<string> {
    if slug in referenced then referenced[slug] else {}
  }

  /** `referencedImages` after one match: only a match under a known slug is recorded, whether or not its file exists. */
  function Record(referenced: map<string, set<string>>, valid: seq<string>, r: Ref): map<string, set<string>> {
    if r.dir != IconsDir && r.dir in valid then referenced[r.dir := Files(referenced, r.dir) + {r.file}]
    else referenced
  }

  function RecordAll(referenced: map<string, set<string>>, valid: seq<string>, rs: seq<Ref>): map<string, set<string>> {
    if |rs| == 0 then referenced
    else Record(RecordAll(referenced, valid, rs[..|rs| - 1]), valid, rs[|rs| - 1])
  }

  function TargetIssues(valid: seq<string>, snap: Snapshot, t: Target): seq<Issue> {
    Seqs.ConcatMap(RefsOf(t), r => RefIssue(valid, snap, r))
  }

  function ScanIssues(valid: seq<string>, snap: Snapshot, targets: seq<Target>): seq<Issue> {
    Seqs.ConcatMap(targets, t => TargetIssues(valid, snap, t))
  }

  function Referenced(valid: seq<string>, targets: seq<Target>): map<string, set<string>> {
    if |targets| == 0 then map[]
    else RecordAll(Referenced(valid, targets[..|targets| - 1]), valid, RefsOf(targets[|targets| - 1]))
  }

  lemma RecordAllSnoc(referenced: map<string, set<string>>, valid: seq<string>, rs: seq<Ref>, j: nat)
    requires j < |rs|
    ensures RecordAll(referenced, valid, rs[..j + 1]) == Record(RecordAll(referenced, valid, rs[..j]), valid, rs[j])
  {
    assert rs[..j + 1][..j] == rs[..j];
  }

  method ScanTarget(t: Target, valid: seq<string>, snap: Snapshot, referencedIn: map<string, set<string>>)
    returns (issues: seq<Issue>, referenced: map<string, set<string>>)
    ensures issues == TargetIssues(valid, snap, t)
    ensures referenced == RecordAll(referencedIn, valid, RefsOf(t))
  {
    var refs := RefsOf(t);
    issues, referenced := [], referencedIn;
    for j := 0 to |refs|
      invariant issues == Seqs.ConcatMap(refs[..j], r => RefIssue(valid, snap, r))
      invariant referenced == RecordAll(referencedIn, valid, refs[..j])
    {
      Seqs.ConcatMapSnoc(refs, r => RefIssue(valid, snap, r), j);
      RecordAllSnoc(referencedIn, valid, refs, j);
      var r := refs[j];
      ghost var before := referenced;
      if r.dir == IconsDir {
        if r.file !in snap.icons {
          issues := issues + [MissingIcon(r.rel, r.file)];
        }
      } else if r.dir !in valid {
        issues := issues + [UnknownDirectory(r.rel, r.dir, r.file)];
      } else {
        if !(r.dir in snap.imagePaths && r.file in snap.imagePaths[r.dir]) {
          issues := issues + [MissingImage(r.rel, r.dir, r.file)];
        }
        if r.dir !in referenced {
          referenced := referenced[r.dir := {}];
        }
        referenced := referenced[r.dir := referenced[r.dir] + {r.file}];
        assert referenced == before[r.dir := Files(before, r.dir) + {r.file}];
      }
    }
    assert refs[..|refs|] == refs;
  }

  method Scan(targets: seq<Target>, valid: seq<string>, snap: Snapshot)
    returns (errors: seq<Issue>, referencedImages: map<string, set<string>>)
    ensures errors == ScanIssues(valid, snap, targets)
    ensures referencedImages == Referenced(valid, targets)
  {
    errors, referencedImages := [], map[];
    for i := 0 to |targets|
      invariant errors == ScanIssues(valid, snap, targets[..i])
      invariant referencedImages == Referenced(valid, targets[..i])
    {
      Seqs.ConcatMapSnoc(targets, t => TargetIssues(valid, snap, t), i);
      assert targets[..i + 1][..i] == targets[..i];
      var more;
      more, referencedImages := ScanTarget(targets[i], valid, snap, referencedImages);
      errors := errors + more;
    }
    assert targets[..|targets|] == targets;
  }

  /** The directory a message is about: `categoryIcons` for an icon. */
  function SourceDir(e: Issue): string {
    match e
    case MissingIcon(_, _) => IconsDir
    case UnknownDirectory(_, dir, _) => dir
    case MissingImage(_, slug, _) => slug
  }

  /** When a match under `SourceDir(e)` raises `e`: an absent icon; a directory that is not an article; a path under a known article's `images/` that does not exist. */
  predicate Fires(valid: seq<string>, snap: Snapshot, e: Issue) {
    match e
    case MissingIcon(_, file) => file !in snap.icons
    case UnknownDirectory(_, dir, _) => dir != IconsDir && dir !in valid
    case MissingImage(_, slug, file) => slug != IconsDir && slug in valid && !ImageExists(snap, slug, file)
  }

  lemma RefIssueSource(valid: seq<string>, snap: Snapshot, r: Ref, e: Issue)
    ensures e in RefIssue(valid, snap, r) <==> r == Ref(e.rel, SourceDir(e), e.file) && Fires(valid, snap, e)
  {
  }

  lemma TargetIssuesIn(valid: seq<string>, snap: Snapshot, t: Target, e: Issue)
    ensures e in TargetIssues(valid, snap, t) <==>
      Fires(valid, snap, e) && e.rel == t.rel && (SourceDir(e), e.file) in Body.Refs(t.body)
  {
    var f := (r: Ref) => RefIssue(valid, snap, r);
    var src := Ref(e.rel, SourceDir(e), e.file);
    Seqs.ConcatMapIn(RefsOf(t), f, e);
    RefsOfIn(t, src);
    if exists k :: 0 <= k < |RefsOf(t)| && e in f(RefsOf(t)[k]) {
      var k :| 0 <= k < |RefsOf(t)| && e in f(RefsOf(t)[k]);
      RefIssueSource(valid, snap, RefsOf(t)[k], e);
    }
    if Fires(valid, snap, e) && src in RefsOf(t) {
      var k :| 0 <= k < |RefsOf(t)| && RefsOf(t)[k] == src;
      RefIssueSource(valid, snap, src, e);
      assert e in f(RefsOf(t)[k]);
    }
  }

  /** Every error names a checked file that holds a match under `SourceDir(e)` for which `Fires` holds, and every such match is reported. */
  lemma ScanReported(valid: seq<string>, snap: Snapshot, targets: seq<Target>, e: Issue)
    ensures e in ScanIssues(valid, snap, targets) <==>
      Fires(valid, snap, e) &&
      exists i :: 0 <= i < |targets| && targets[i].rel == e.rel && (SourceDir(e), e.file) in Body.Refs(targets[i].body)
  {
    Seqs.ConcatMapIn(targets, t => TargetIssues(valid, snap, t), e);
    forall i | 0 <= i < |targets|
      ensures e in TargetIssues(valid, snap, targets[i]) <==>
        Fires(valid, snap, e) && targets[i].rel == e.rel && (SourceDir(e), e.file) in Body.Refs(targets[i].body)
    {
      TargetIssuesIn(valid, snap, targets[i], e);
    }
  }

  lemma {:induction false} RecordAllFiles(m: map<string, set<string>>, valid: seq<string>, rs: seq<Ref>, slug: string, file: string)
    ensures file in Files(RecordAll(m, valid, rs), slug) <==>
      file in Files(m, slug) ||
      (slug != IconsDir && slug in valid && exists k :: 0 <= k < |rs| && rs[k].dir == slug && rs[k].file == file)
  {
    if |rs| > 0 {
      var init := rs[..|rs| - 1];
      RecordAllFiles(m, valid, init, slug, file);
      if exists k :: 0 <= k < |init| && init[k].dir == slug && init[k].file == file {
        var k :| 0 <= k < |init| && init[k].dir == slug && init[k].file == file;
        assert rs[k] == init[k];
      }
      if exists k :: 0 <= k < |rs| && rs[k].dir == slug && rs[k].file == file {
        var k :| 0 <= k < |rs| && rs[k].dir == slug && rs[k].file == file;
        if k < |init| {
          assert init[k] == rs[k];
        }
      }
    }
  }

  lemma TargetRefsFiles(m: map<string, set<string>>, valid: seq<string>, t: Target, slug: string, file: string)
    ensures file in Files(RecordAll(m, valid, RefsOf(t)), slug) <==>
      file in Files(m, slug) || (slug != IconsDir && slug in valid && (slug, file) in Body.Refs(t.body))
  {
    RecordAllFiles(m, valid, RefsOf(t), slug, file);
    RefsOfIn(t, Ref(t.rel, slug, file));
    if exists k :: 0 <= k < |RefsOf(t)| && RefsOf(t)[k].dir == slug && RefsOf(t)[k].file == file {
      var k :| 0 <= k < |RefsOf(t)| && RefsOf(t)[k].dir == slug && RefsOf(t)[k].file == file;
      RefsOfIn(t, RefsOf(t)[k]);
    }
  }

  /** A file counts as referenced under a slug exactly when the slug is a known article directory (not `categoryIcons`) and some checked file matches it, whether or not the file exists. */
  lemma {:induction false} ReferenceKept(valid: seq<string>, targets: seq<Target>, i: nat, slug: string, file: string)
    requires i < |targets| && slug != IconsDir && slug in valid && (slug, file) in Body.Refs(targets[i].body)
    ensures file in Files(Referenced(valid, targets), slug)
  {
    var init := targets[..|targets| - 1];
    TargetRefsFiles(Referenced(valid, init), valid, targets[|targets| - 1], slug, file);
    if i < |init| {
      assert init[i] == targets[i];
      ReferenceKept(valid, init, i, slug, file);
    }
  }

  lemma {:induction false} ReferenceSource(valid: seq<string>, targets: seq<Target>, slug: string, file: string) returns (i: nat)
    requires file in Files(Referenced(valid, targets), slug)
    ensures i < |targets| && slug != IconsDir && slug in valid && (slug, file) in Body.Refs(targets[i].body)
  {
    var init := targets[..|targets| - 1];
    TargetRefsFiles(Referenced(valid, init), valid, targets[|targets| - 1], slug, file);
    if file in Files(Referenced(valid, init), slug) {
      i := ReferenceSource(valid, init, slug, file);
      assert init[i] == targets[i];
    } else {
      i := |targets| - 1;
    }
  }

  /** A file counts as referenced under a slug exactly when the slug is a known article directory (not `categoryIcons`) and some checked file matches it, whether or not the file exists. */
  lemma ReferencedFiles(valid: seq<string>, targets: seq<Target>, slug: string, file: string)
    ensures file in Files(Referenced(valid, targets), slug) <==>
      slug != IconsDir && slug in valid && exists i :: 0 <= i < |targets| && (slug, file) in Body.Refs(targets[i].body)
  {
    if file in Files(Referenced(valid, targets), slug) {
      var i := ReferenceSource(valid, targets, slug, file);
    }
    if slug != IconsDir && slug in valid && exists i :: 0 <= i < |targets| && (slug, file) in Body.Refs(targets[i].body) {
      var i :| 0 <= i < |targets| && (slug, file) in Body.Refs(targets[i].body);
      ReferenceKept(valid, targets, i, slug, file);
    }
  }

  // ---------------------------------------------------------------------
  // Unused images (lines 109-122)

  function UnusedFile(slug: string, referenced: set<string>, file: string): seq<Warning> {
    if file in referenced then [] else [UnusedImage(slug, file)]
  }

  function SlugUnused(imageDirs: map<string, seq<string>>, referenced: map<string, set<string>>, slug: string): seq<Warning> {
    if slug in imageDirs then Seqs.ConcatMap(imageDirs[slug], file => UnusedFile(slug, Files(referenced, slug), file))
    else []
  }

  function Unused(valid: seq<string>, imageDirs: map<string, seq<string>>, referenced: map<string, set<string>>): seq<Warning> {
    Seqs.ConcatMap(valid, slug => SlugUnused(imageDirs, referenced, slug))
  }

  method WarnUnusedIn(slug: string, filesOnDisk: seq<string>, referenced: set<string>) returns (warnings: seq<Warning>)
    ensures warnings == Seqs.ConcatMap(filesOnDisk, file => UnusedFile(slug, referenced, file))
  {
    warnings := [];
    for k := 0 to |filesOnDisk|
      invariant warnings == Seqs.ConcatMap(filesOnDisk[..k], file => UnusedFile(slug, referenced, file))
    {
      Seqs.ConcatMapSnoc(filesOnDisk, file => UnusedFile(slug, referenced, file), k);
      if filesOnDisk[k] !in referenced {
        warnings := warnings + [UnusedImage(slug, filesOnDisk[k])];
      }
    }
    assert filesOnDisk[..|filesOnDisk|] == filesOnDisk;
  }

  method WarnUnused(valid: seq<string>, imageDirs: map<string, seq<string>>, referencedImages: map<string, set<string>>)
    returns (warnings: seq<Warning>)
    ensures warnings == Unused(valid, imageDirs, referencedImages)
  {
    warnings := [];
    for i := 0 to |valid|
      invariant warnings == Unused(valid[..i], imageDirs, referencedImages)
    {
      Seqs.ConcatMapSnoc(valid, slug => SlugUnused(imageDirs, referencedImages, slug), i);
      var slug := valid[i];
      if slug !in imageDirs {
        continue;
      }
      var referenced := if slug in referencedImages then referencedImages[slug] else {};
      var more := WarnUnusedIn(slug, imageDirs[slug], referenced);
      warnings := warnings + more;
    }
    assert valid[..|valid|] == valid;
  }

  /** A file is warned about exactly when it lies under the `images/` of a known slug and is not referenced there. */
  lemma UnusedReported(valid: seq<string>, imageDirs: map<string, seq<string>>, referenced: map<string, set<string>>, w: Warning)
    ensures w in Unused(valid, imageDirs, referenced) <==>
      w.slug in valid && w.slug in imageDirs && w.file in imageDirs[w.slug] && w.file !in Files(referenced, w.slug)
  {
    var g := (slug: string) => SlugUnused(imageDirs, referenced, slug);
    Seqs.ConcatMapIn(valid, g, w);
    forall i | 0 <= i < |valid| && valid[i] in imageDirs
      ensures w in g(valid[i]) <==> w.slug == valid[i] && w.file in imageDirs[valid[i]] && w.file !in Files(referenced, valid[i])
    {
      var slug := valid[i];
      var f := (file: string) => UnusedFile(slug, Files(referenced, slug), file);
      Seqs.ConcatMapIn(imageDirs[slug], f, w);
      if w.slug == slug && w.file in imageDirs[slug] && w.file !in Files(referenced, slug) {
        var k :| 0 <= k < |imageDirs[slug]| && imageDirs[slug][k] == w.file;
        assert w in f(imageDirs[slug][k]);
      }
    }
    if w.slug in valid && w.slug in imageDirs && w.file in imageDirs[w.slug] && w.file !in Files(referenced, w.slug) {
      var i :| 0 <= i < |valid| && valid[i] == w.slug;
      assert w in g(valid[i]);
    }
  }

  lemma SlugUnusedOf(imageDirs: map<string, seq<string>>, referenced: map<string, set<string>>, slug: string, w: Warning)
    requires w in SlugUnused(imageDirs, referenced, slug)
    ensures w.slug == slug
  {
    Seqs.ConcatMapIn(imageDirs[slug], file => UnusedFile(slug, Files(referenced, slug), file), w);
  }

  lemma SlugUnusedDistinct(imageDirs: map<string, seq<string>>, referenced: map<string, set<string>>, slug: string)
    requires slug in imageDirs ==> Dedup.Distinct(imageDirs[slug])
    ensures forall p, q :: 0 <= p < q < |SlugUnused(imageDirs, referenced, slug)| ==>
      SlugUnused(imageDirs, referenced, slug)[p] != SlugUnused(imageDirs, referenced, slug)[q]
  {
    if slug in imageDirs {
      Seqs.ConcatMapDistinct(imageDirs[slug], file => UnusedFile(slug, Files(referenced, slug), file));
    }
  }

  /** Each unused file is warned about once, given that the slugs and each directory's listing have no repeats. */
  lemma UnusedOnce(valid: seq<string>, imageDirs: map<string, seq<string>>, referenced: map<string, set<string>>)
    requires Dedup.Distinct(valid)
    requires forall slug :: slug in imageDirs ==> Dedup.Distinct(imageDirs[slug])
    ensures forall p, q :: 0 <= p < q < |Unused(valid, imageDirs, referenced)| ==>
      Unused(valid, imageDirs, referenced)[p] != Unused(valid, imageDirs, referenced)[q]
  {
    var g := (slug: string) => SlugUnused(imageDirs, referenced, slug);
    forall i | 0 <= i < |valid|
      ensures forall p, q :: 0 <= p < q < |g(valid[i])| ==> g(valid[i])[p] != g(valid[i])[q]
    {
      SlugUnusedDistinct(imageDirs, referenced, valid[i]);
    }
    forall i, j, w | 0 <= i < j < |valid| && w in g(valid[i]) ensures w !in g(valid[j]) {
      SlugUnusedOf(imageDirs, referenced, valid[i], w);
      if w in g(valid[j]) {
        SlugUnusedOf(imageDirs, referenced, valid[j], w);
      }
    }
    Seqs.ConcatMapDistinct(valid, g);
  }

  // ---------------------------------------------------------------------
  // The run as a whole

  function Validate(snap: Snapshot): Report {
    var valid := ValidSlugs(snap.articlesDir);
    var targets := Targets(snap);
    Report(ScanIssues(valid, snap, targets), Unused(valid, snap.imageDirs, Referenced(valid, targets)))
  }

  method ValidateImages(snap: Snapshot) returns (report: Report)
    ensures report == Validate(snap)
  {
    var validSlugs := CollectSlugs(snap.articlesDir);
    var targetFiles := SelectTargets(snap);
    var errors, referencedImages := Scan(targetFiles, validSlugs, snap);
    var warnings := WarnUnused(validSlugs, snap.imageDirs, referencedImages);
    report := Report(errors, warnings);
  }

  /** `process.exit(1)` on errors; warnings alone leave the exit code at 0. */
  function ExitCode(report: Report): (code: nat)
    ensures code == 0 <==> |report.errors| == 0
    ensures code <= 1
  {
    if |report.errors| > 0 then 1 else 0
  }

  /** An image file is warned about exactly when its slug is a directory of `articles/` and no checked file references it under that slug. */
  lemma UnusedImageIff(snap: Snapshot, slug: string, file: string)
    ensures UnusedImage(slug, file) in Validate(snap).warnings <==>
      (snap.articlesDir.Some? && exists k :: 0 <= k < |snap.articlesDir.value| && snap.articlesDir.value[k] == Entry(slug, true)) &&
      slug in snap.imageDirs && file in snap.imageDirs[slug] &&
      (slug == IconsDir || forall i :: 0 <= i < |Targets(snap)| ==> (slug, file) !in Body.Refs(Targets(snap)[i].body))
  {
    var valid := ValidSlugs(snap.articlesDir);
    ValidSlugsAre(snap.articlesDir, slug);
    UnusedReported(valid, snap.imageDirs, Referenced(valid, Targets(snap)), UnusedImage(slug, file));
    ReferencedFiles(valid, Targets(snap), slug, file);
  }
}
