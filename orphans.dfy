/**
 * Orphan images in the migration (scripts/migrate-structure.mjs:176-185,
 * 229-264): the image directories on disk, keyed by lower-cased name; the
 * files under them that no article references; and the fallback that gives
 * such a file to the first article of the category whose lower-cased id is
 * the file's directory.
 */
module Orphans {
  import opened Strings
  import Catalog
  import Ownership

  /** An entry of `images/`: its name, whether it is a directory, and the files below it (paths relative to it). */
  datatype Entry = Entry(name: string, isDirectory: bool, files: seq<string>)

  const LogosDir := "categoryLogos"

  /** The entries that become image directories: directories other than `categoryLogos`. */
  predicate Listed(e: Entry) {
    e.isDirectory && e.name != LogosDir
  }

  /** The lower-cased names of the image directories, in the order the `Map` keeps them (first insertion). */
  function DirOrder(entries: seq<Entry>): seq<string> {
    if |entries| == 0 then []
    else
      var order, e := DirOrder(entries[..|entries| - 1]), entries[|entries| - 1];
      if Listed(e) && ToLower(e.name) !in order then order + [ToLower(e.name)] else order
  }

  /** The files of each image directory, by lower-cased name; a later directory with the same lower-cased name replaces an earlier one. */
  function DirFiles(entries: seq<Entry>): map<string, seq<string>> {
    if |entries| == 0 then map[]
    else
      var m, e := DirFiles(entries[..|entries| - 1]), entries[|entries| - 1];
      if Listed(e) then m[ToLower(e.name) := e.files] else m
  }

  /** The order lists every image directory once. */
  lemma {:induction false} ImageDirsOrdered(entries: seq<Entry>)
    ensures Ownership.MapOrder(DirOrder(entries), DirFiles(entries))
  {
    if |entries| > 0 {
      ImageDirsOrdered(entries[..|entries| - 1]);
    }
  }

  /** Entry `i` is the last listed entry whose lower-cased name is `k`. */
  predicate LastNamed(entries: seq<Entry>, k: string, i: int) {
    0 <= i < |entries| && Listed(entries[i]) && ToLower(entries[i].name) == k
    && forall j :: i < j < |entries| ==> !(Listed(entries[j]) && ToLower(entries[j].name) == k)
  }

  /** A lower-cased name is an image directory exactly when some listed entry has it, and it holds the files of the last such entry. */
  lemma {:induction false} DirFilesLastWins(entries: seq<Entry>, k: string)
    ensures k in DirFiles(entries) <==> exists i :: 0 <= i < |entries| && Listed(entries[i]) && ToLower(entries[i].name) == k
    ensures k in DirFiles(entries) ==> exists i :: LastNamed(entries, k, i) && DirFiles(entries)[k] == entries[i].files
  {
    if |entries| > 0 {
      var init, e := entries[..|entries| - 1], entries[|entries| - 1];
      var n := |entries| - 1;
      DirFilesLastWins(init, k);
      assert forall i :: 0 <= i < n ==> init[i] == entries[i];
      if Listed(e) && ToLower(e.name) == k {
        assert LastNamed(entries, k, n);
      } else if k in DirFiles(init) {
        var i :| LastNamed(init, k, i) && DirFiles(init)[k] == init[i].files;
        assert LastNamed(entries, k, i);
      }
    }
  }

  /** The `imageDirs` loop (lines 178-185); a missing `images/` gives no directories. */
  method BuildImageDirs(imagesDir: Option<seq<Entry>>) returns (order: seq<string>, imageDirs: map<string, seq<string>>)
    ensures imagesDir.None? ==> order == [] && imageDirs == map[]
    ensures imagesDir.Some? ==> order == DirOrder(imagesDir.value) && imageDirs == DirFiles(imagesDir.value)
  {
    order, imageDirs := [], map[];
    if imagesDir.None? {
      return;
    }
    var entries := imagesDir.value;
    for i := 0 to |entries|
      invariant order == DirOrder(entries[..i]) && imageDirs == DirFiles(entries[..i])
    {
      var e := entries[i];
      PrefixSnoc(entries, i);
      assert entries[..i + 1][..i] == entries[..i];
      if Listed(e) {
        var k := ToLower(e.name);
        if k !in imageDirs {
          ImageDirsOrdered(entries[..i]);
          order := order + [k];
        } else {
          ImageDirsOrdered(entries[..i]);
        }
        imageDirs := imageDirs[k := e.files];
      }
    }
    assert entries[..|entries|] == entries;
  }

  /** `${dirName}/${filename}` */
  function OrphanKey(dir: string, file: string): string {
    dir + "/" + file
  }

  /** The files of one directory that no article references. */
  function OrphansIn(dir: string, files: seq<string>, owned: map<string, seq<string>>): seq<string> {
    if |files| == 0 then []
    else
      var k := OrphanKey(dir, files[|files| - 1]);
      OrphansIn(dir, files[..|files| - 1], owned) + (if k !in owned then [k] else [])
  }

  /** The orphan list: directory after directory, file after file. */
  function OrphanList(order: seq<string>, imageDirs: map<string, seq<string>>, owned: map<string, seq<string>>): seq<string>
    requires forall d :: d in order ==> d in imageDirs
  {
    if |order| == 0 then []
    else
      var d := order[|order| - 1];
      OrphanList(order[..|order| - 1], imageDirs, owned) + OrphansIn(d, imageDirs[d], owned)
  }

  lemma {:induction false} OrphansInMembers(dir: string, files: seq<string>, owned: map<string, seq<string>>, k: string)
    ensures k in OrphansIn(dir, files, owned) <==> k !in owned && exists f :: f in files && k == OrphanKey(dir, f)
  {
    if |files| > 0 {
      var init := files[..|files| - 1];
      OrphansInMembers(dir, init, owned, k);
      assert files == init + [files[|files| - 1]];
    }
  }

  /**
   * An orphan is exactly a key `dir/file` for a file on disk under an image
   * directory that no article references.
   */
  lemma {:induction false} OrphanListMembers(order: seq<string>, imageDirs: map<string, seq<string>>, owned: map<string, seq<string>>, k: string)
    requires forall d :: d in order ==> d in imageDirs
    ensures k in OrphanList(order, imageDirs, owned) <==>
      k !in owned && exists d, f :: d in order && f in imageDirs[d] && k == OrphanKey(d, f)
  {
    if |order| > 0 {
      var init, d := order[..|order| - 1], order[|order| - 1];
      assert order == init + [d];
      OrphanListMembers(init, imageDirs, owned, k);
      OrphansInMembers(d, imageDirs[d], owned, k);
    }
  }

  lemma OrphansInPrefix(dir: string, files: seq<string>, owned: map<string, seq<string>>, j: nat)
    requires j < |files|
    ensures OrphansIn(dir, files[..j + 1], owned) == OrphansIn(dir, files[..j], owned)
      + (if OrphanKey(dir, files[j]) !in owned then [OrphanKey(dir, files[j])] else [])
  {
    assert files[..j + 1][..j] == files[..j];
  }

  lemma OrphanListPrefix(order: seq<string>, imageDirs: map<string, seq<string>>, owned: map<string, seq<string>>, i: nat)
    requires i < |order| && forall d :: d in order ==> d in imageDirs
    ensures forall d :: d in order[..i] ==> d in imageDirs
    ensures OrphanList(order[..i + 1], imageDirs, owned) == OrphanList(order[..i], imageDirs, owned) + OrphansIn(order[i], imageDirs[order[i]], owned)
  {
    assert order[..i + 1][..i] == order[..i];
  }

  lemma OrphanSnoc(before: seq<string>, dir: string, files: seq<string>, owned: map<string, seq<string>>, j: nat)
    requires j < |files|
    ensures before + OrphansIn(dir, files[..j + 1], owned) == before + OrphansIn(dir, files[..j], owned)
      + (if OrphanKey(dir, files[j]) !in owned then [OrphanKey(dir, files[j])] else [])
  {
    OrphansInPrefix(dir, files, owned, j);
  }

  /** The orphan loop (lines 230-240). */
  method FindOrphans(order: seq<string>, imageDirs: map<string, seq<string>>, imageOwnership: map<string, seq<string>>)
    returns (orphanImages: seq<string>)
    requires Ownership.MapOrder(order, imageDirs)
    ensures orphanImages == OrphanList(order, imageDirs, imageOwnership)
  {
    orphanImages := [];
    for i := 0 to |order|
      invariant forall d :: d in order[..i] ==> d in imageDirs
      invariant orphanImages == OrphanList(order[..i], imageDirs, imageOwnership)
    {
      var dirName := order[i];
      var files := imageDirs[dirName];
      ghost var before := orphanImages;
      assert files[..0] == [];
      for j := 0 to |files|
        invariant orphanImages == before + OrphansIn(dirName, files[..j], imageOwnership)
      {
        OrphanSnoc(before, dirName, files, imageOwnership, j);
        var key := OrphanKey(dirName, files[j]);
        if key !in imageOwnership {
          orphanImages := orphanImages + [key];
        }
      }
      assert files[..|files|] == files;
      OrphanListPrefix(order, imageDirs, imageOwnership, i);
    }
    assert order[..|order|] == order;
  }

  /** `catIdLower`: lower-cased category id to id; a later category with the same lower-cased id wins. */
  function CatIdLower(cats: seq<Catalog.Category>): map<string, string> {
    if |cats| == 0 then map[]
    else
      var c := cats[|cats| - 1];
      CatIdLower(cats[..|cats| - 1])[ToLower(c.id) := c.id]
  }

  /** Category `i` is the last one whose lower-cased id is `k`. */
  predicate LastLowered(cats: seq<Catalog.Category>, k: string, i: int) {
    0 <= i < |cats| && ToLower(cats[i].id) == k
    && forall j :: i < j < |cats| ==> ToLower(cats[j].id) != k
  }

  /** Each entry maps a lower-cased id back to the id of the last category that has it. */
  lemma {:induction false} CatIdLowerLastWins(cats: seq<Catalog.Category>, k: string)
    ensures k in CatIdLower(cats) <==> exists i :: 0 <= i < |cats| && ToLower(cats[i].id) == k
    ensures k in CatIdLower(cats) ==> exists i :: LastLowered(cats, k, i) && cats[i].id == CatIdLower(cats)[k]
  {
    if |cats| > 0 {
      var init, n := cats[..|cats| - 1], |cats| - 1;
      CatIdLowerLastWins(init, k);
      assert forall i :: 0 <= i < n ==> init[i] == cats[i];
      if ToLower(cats[n].id) == k {
        assert LastLowered(cats, k, n);
      } else if k in CatIdLower(init) {
        var i :| LastLowered(init, k, i) && init[i].id == CatIdLower(init)[k];
        assert LastLowered(cats, k, i);
      }
    }
  }

  /** The `catIdLower` loop (lines 248-251). */
  method BuildCatIdLower(categories: seq<Catalog.Category>) returns (catIdLower: map<string, string>)
    ensures catIdLower == CatIdLower(categories)
  {
    catIdLower := map[];
    for i := 0 to |categories|
      invariant catIdLower == CatIdLower(categories[..i])
    {
      PrefixSnoc(categories, i);
      assert categories[..i + 1][..i] == categories[..i];
      catIdLower := catIdLower[ToLower(categories[i].id) := categories[i].id];
    }
    assert categories[..|categories|] == categories;
  }

  /**
   * The owner the fallback gives an orphan: the first article of the category
   * whose lower-cased id is the orphan's directory, when that id is non-empty
   * and the category has an article.
   */
  function FallbackOwner(orphan: string, catIdLower: map<string, string>, categoryArticles: map<string, seq<Catalog.Article>>): Option<string> {
    var dir := FirstSegment(orphan, '/');
    if dir in catIdLower && catIdLower[dir] != "" then
      var arts := if catIdLower[dir] in categoryArticles then categoryArticles[catIdLower[dir]] else [];
      if |arts| > 0 then Some(arts[0].slug) else None
    else None
  }

  /** The owner map and its key order after the fallback has run over `orphans`. */
  function Assigned(owners: map<string, string>, order: seq<string>, orphans: seq<string>,
      catIdLower: map<string, string>, categoryArticles: map<string, seq<Catalog.Article>>): (r: (map<string, string>, seq<string>))
  {
    if |orphans| == 0 then (owners, order)
    else
      var prev := Assigned(owners, order, orphans[..|orphans| - 1], catIdLower, categoryArticles);
      var o := orphans[|orphans| - 1];
      if o in prev.0 then prev
      else match FallbackOwner(o, catIdLower, categoryArticles)
        case None => prev
        case Some(s) => (prev.0[o := s], prev.1 + [o])
  }

  /**
   * The fallback never touches a key that already has an owner; every key it
   * adds is an orphan whose fallback owner it records; and every orphan
   * without an owner that has a fallback owner gets it.
   */
  lemma {:induction false} AssignedKeepsOwners(owners: map<string, string>, order: seq<string>, orphans: seq<string>,
      catIdLower: map<string, string>, categoryArticles: map<string, seq<Catalog.Article>>)
    ensures var r := Assigned(owners, order, orphans, catIdLower, categoryArticles).0;
      && (forall k :: k in owners ==> k in r && r[k] == owners[k])
      && (forall k :: k in r && k !in owners ==> k in orphans && FallbackOwner(k, catIdLower, categoryArticles) == Some(r[k]))
      && (forall k :: k in orphans && k !in owners && FallbackOwner(k, catIdLower, categoryArticles).Some? ==> k in r)
  {
    if |orphans| > 0 {
      var init := orphans[..|orphans| - 1];
      AssignedKeepsOwners(owners, order, init, catIdLower, categoryArticles);
      assert orphans == init + [orphans[|orphans| - 1]];
    }
  }

  /** Keys added by the fallback are appended to the iteration order, each once. */
  lemma {:induction false} AssignedOrdered(owners: map<string, string>, order: seq<string>, orphans: seq<string>,
      catIdLower: map<string, string>, categoryArticles: map<string, seq<Catalog.Article>>)
    requires Ownership.MapOrder(order, owners)
    ensures var r := Assigned(owners, order, orphans, catIdLower, categoryArticles);
      Ownership.MapOrder(r.1, r.0)
  {
    if |orphans| > 0 {
      AssignedOrdered(owners, order, orphans[..|orphans| - 1], catIdLower, categoryArticles);
    }
  }

  lemma AssignedPrefix(owners: map<string, string>, order: seq<string>, orphans: seq<string>, i: nat,
      catIdLower: map<string, string>, categoryArticles: map<string, seq<Catalog.Article>>)
    requires i < |orphans|
    ensures var prev := Assigned(owners, order, orphans[..i], catIdLower, categoryArticles);
      var o := orphans[i];
      Assigned(owners, order, orphans[..i + 1], catIdLower, categoryArticles) ==
        if o in prev.0 then prev
        else match FallbackOwner(o, catIdLower, categoryArticles)
          case None => prev
          case Some(s) => (prev.0[o := s], prev.1 + [o])
  {
    assert orphans[..i + 1][..i] == orphans[..i];
  }

  /** The fallback loop (lines 254-264). */
  method AssignOrphans(orphanImages: seq<string>, catIdLower: map<string, string>,
      categoryArticles: map<string, seq<Catalog.Article>>, ownersIn: map<string, string>, orderIn: seq<string>)
    returns (imageFileOwner: map<string, string>, order: seq<string>)
    ensures (imageFileOwner, order) == Assigned(ownersIn, orderIn, orphanImages, catIdLower, categoryArticles)
  {
    imageFileOwner, order := ownersIn, orderIn;
    for i := 0 to |orphanImages|
      invariant (imageFileOwner, order) == Assigned(ownersIn, orderIn, orphanImages[..i], catIdLower, categoryArticles)
    {
      AssignedPrefix(ownersIn, orderIn, orphanImages, i, catIdLower, categoryArticles);
      var orphan := orphanImages[i];
      if orphan in imageFileOwner {
        continue;
      }
      var dir := FirstSegment(orphan, '/');
      if dir in catIdLower && catIdLower[dir] != "" {
        var matchingCatId := catIdLower[dir];
        var catArts := if matchingCatId in categoryArticles then categoryArticles[matchingCatId] else [];
        if |catArts| > 0 {
          imageFileOwner := imageFileOwner[orphan := catArts[0].slug];
          order := order + [orphan];
        }
      }
    }
    assert orphanImages[..|orphanImages|] == orphanImages;
  }

  /**
   * With the catalog's article lists, a fallback owner is the first article of
   * a category whose lower-cased id is the orphan's directory (the last such
   * category, when several ids differ only in case).
   */
  lemma FallbackIsFirstArticle(orphan: string, cats: seq<Catalog.Category>, dirs: Catalog.Dirs,
      categoryArticles: map<string, seq<Catalog.Article>>, s: string)
    requires forall id :: id in categoryArticles ==> categoryArticles[id] == Catalog.ArticlesIn(dirs, id)
    requires FallbackOwner(orphan, CatIdLower(cats), categoryArticles) == Some(s)
    ensures exists i :: (0 <= i < |cats| && ToLower(cats[i].id) == FirstSegment(orphan, '/')
      && |Catalog.ArticlesIn(dirs, cats[i].id)| > 0 && Catalog.ArticlesIn(dirs, cats[i].id)[0].slug == s)
  {
    var dir := FirstSegment(orphan, '/');
    CatIdLowerLastWins(cats, dir);
    var i :| LastLowered(cats, dir, i) && cats[i].id == CatIdLower(cats)[dir];
  }
}
