/**
 * Steps 4 and 5 of the migration (scripts/migrate-structure.mjs:276-345):
 * each article's image references are pointed at the directory of the
 * article that owns the file, the article is written back under a new
 * header, and every owned image file is planned for a copy into its owner's
 * `images/` directory.
 */
module Rewrite {
  import opened Strings
  import Frontmatter
  import Body
  import Catalog
  import Ownership

  /** `imageFileOwner.get(key) || slug`: the owner of the file, or the article itself when there is none. */
  function OwnerOr(owners: map<string, string>, key: string, slug: string): (r: string)
    ensures key in owners && owners[key] != "" ==> r == owners[key]
    ensures !(key in owners && owners[key] != "") ==> r == slug
    ensures r == slug || r in owners.Values
    ensures slug != "" ==> r != ""
  {
    if key in owners && owners[key] != "" then owners[key] else slug
  }

  /** The replacement callback applied to every reference of an article's body (lines 287-296). */
  function RewriteBody(body: seq<Body.Segment>, owners: map<string, string>, slug: string): (r: seq<Body.Segment>)
    ensures |r| == |body|
  {
    if |body| == 0 then []
    else
      RewriteBody(body[..|body| - 1], owners, slug) + match body[|body| - 1]
        case Plain(t) => [Body.Plain(t)]
        case ImageRef(p, d, f) => [Body.ImageRef(p, OwnerOr(owners, Body.ImageKey(d, f), slug), f)]
  }

  /**
   * Rewriting touches references only: text stays, and every reference keeps
   * its prefix and file name while its directory becomes the owner of
   * `dir.toLowerCase()/file` (or the article's own slug).
   */
  lemma {:induction false} RewriteSegments(body: seq<Body.Segment>, owners: map<string, string>, slug: string, i: nat)
    requires i < |body|
    ensures body[i].Plain? ==> RewriteBody(body, owners, slug)[i] == body[i]
    ensures body[i].ImageRef? ==> (RewriteBody(body, owners, slug)[i] ==
      Body.ImageRef(body[i].prefix, OwnerOr(owners, Body.ImageKey(body[i].dir, body[i].file), slug), body[i].file))
  {
    if i < |body| - 1 {
      RewriteSegments(body[..|body| - 1], owners, slug, i);
    }
  }

  /** The references of the rewritten body: the old ones, in the same order, each moved to its owner. */
  function MovedRefs(refs: seq<(string, string)>, owners: map<string, string>, slug: string): (r: seq<(string, string)>)
    ensures |r| == |refs|
    ensures forall i :: 0 <= i < |refs| ==> r[i] == (OwnerOr(owners, Body.ImageKey(refs[i].0, refs[i].1), slug), refs[i].1)
  {
    if |refs| == 0 then []
    else
      var ref := refs[|refs| - 1];
      MovedRefs(refs[..|refs| - 1], owners, slug) + [(OwnerOr(owners, Body.ImageKey(ref.0, ref.1), slug), ref.1)]
  }

  lemma {:induction false} RewriteRefs(body: seq<Body.Segment>, owners: map<string, string>, slug: string)
    ensures Body.Refs(RewriteBody(body, owners, slug)) == MovedRefs(Body.Refs(body), owners, slug)
  {
    if |body| > 0 {
      var init := body[..|body| - 1];
      RewriteRefs(init, owners, slug);
      var r := RewriteBody(body, owners, slug);
      assert r[..|r| - 1] == RewriteBody(init, owners, slug);
      var moved := MovedRefs(Body.Refs(body), owners, slug);
      if body[|body| - 1].ImageRef? {
        assert Body.Refs(body)[..|Body.Refs(body)| - 1] == Body.Refs(init);
      }
    }
  }

  /**
   * `newContent` (lines 298-306): the new header followed by the rewritten
   * body.
   */
  function NewContent(art: Catalog.Article, owners: map<string, string>): string {
    Frontmatter.NewHeader(art.description, art.hidden) + Body.Render(RewriteBody(art.body, owners, art.slug))
  }

  /**
   * Reading the written file back gives the description (as written between
   * its quotes), the hidden flag, and the rewritten body.
   */
  lemma NewContentRoundTrip(art: Catalog.Article, owners: map<string, string>)
    requires '\n' !in art.description
    ensures Frontmatter.Parse(NewContent(art, owners)) ==
      Frontmatter.Parsed(Frontmatter.NewFields(art.description, art.hidden), Body.Render(RewriteBody(art.body, owners, art.slug)))
  {
    Frontmatter.NewHeaderRoundTrip(art.description, art.hidden, Body.Render(RewriteBody(art.body, owners, art.slug)));
  }

  // ---------------------------------------------------------------------
  // Step 5: the copy plan

  /** `copyFileSync(images/<dir>/<file>, articles_new/<owner>/images/<file>)` */
  datatype Copy = Copy(dir: string, file: string, owner: string)

  /** The copies the loop performs and the number of keys it skips. */
  datatype Plan = Plan(copies: seq<Copy>, skipped: nat)

  /** What the loop does with one key: a copy, or nothing when the directory or the file is missing. */
  function CopyOf(key: string, owner: string, imageDirs: map<string, seq<string>>): Option<Copy> {
    var dir, filename := FirstSegment(key, '/'), AfterFirst(key, '/');
    if dir !in imageDirs || filename !in imageDirs[dir] then None
    else Some(Copy(dir, filename, owner))
  }

  function PlanOf(order: seq<string>, owners: map<string, string>, imageDirs: map<string, seq<string>>): Plan
    requires forall k :: k in order ==> k in owners
  {
    if |order| == 0 then Plan([], 0)
    else
      var prev, k := PlanOf(order[..|order| - 1], owners, imageDirs), order[|order| - 1];
      match CopyOf(k, owners[k], imageDirs)
      case None => Plan(prev.copies, prev.skipped + 1)
      case Some(c) => Plan(prev.copies + [c], prev.skipped)
  }

  /** Every owned key is either moved or skipped: `movedCount + skippedCount` is the number of owned files. */
  lemma {:induction false} PlanCounts(order: seq<string>, owners: map<string, string>, imageDirs: map<string, seq<string>>)
    requires forall k :: k in order ==> k in owners
    ensures |PlanOf(order, owners, imageDirs).copies| + PlanOf(order, owners, imageDirs).skipped == |order|
  {
    if |order| > 0 {
      PlanCounts(order[..|order| - 1], owners, imageDirs);
    }
  }

  /**
   * A copy is planned exactly for an owned key whose directory is an image
   * directory holding the file, and it goes to the key's owner.
   */
  lemma {:induction false} PlanCopyMembers(order: seq<string>, owners: map<string, string>, imageDirs: map<string, seq<string>>, c: Copy)
    requires forall k :: k in order ==> k in owners
    ensures c in PlanOf(order, owners, imageDirs).copies <==>
      exists k :: k in order && CopyOf(k, owners[k], imageDirs) == Some(c)
  {
    if |order| > 0 {
      var init := order[..|order| - 1];
      assert order == init + [order[|order| - 1]];
      PlanCopyMembers(init, owners, imageDirs, c);
    }
  }

  lemma PlanPrefix(order: seq<string>, owners: map<string, string>, imageDirs: map<string, seq<string>>, i: nat)
    requires i < |order| && forall k :: k in order ==> k in owners
    ensures forall k :: k in order[..i] ==> k in owners
    ensures var prev := PlanOf(order[..i], owners, imageDirs);
      PlanOf(order[..i + 1], owners, imageDirs) ==
        match CopyOf(order[i], owners[order[i]], imageDirs)
        case None => Plan(prev.copies, prev.skipped + 1)
        case Some(c) => Plan(prev.copies + [c], prev.skipped)
  {
    assert order[..i + 1][..i] == order[..i];
  }

  /** The copy loop (lines 317-345); `movedCount` counts the copies. */
  method PlanCopies(order: seq<string>, imageFileOwner: map<string, string>, imageDirs: map<string, seq<string>>)
    returns (copies: seq<Copy>, movedCount: nat, skippedCount: nat)
    requires Ownership.MapOrder(order, imageFileOwner)
    ensures copies == PlanOf(order, imageFileOwner, imageDirs).copies
    ensures skippedCount == PlanOf(order, imageFileOwner, imageDirs).skipped
    ensures movedCount == |copies|
  {
    copies, movedCount, skippedCount := [], 0, 0;
    for i := 0 to |order|
      invariant Plan(copies, skippedCount) == PlanOf(order[..i], imageFileOwner, imageDirs)
      invariant movedCount == |copies|
    {
      PlanPrefix(order, imageFileOwner, imageDirs, i);
      var imageKey := order[i];
      var ownerSlug := imageFileOwner[imageKey];
      var dir, filename := FirstSegment(imageKey, '/'), AfterFirst(imageKey, '/');
      if dir !in imageDirs {
        skippedCount := skippedCount + 1;
        continue;
      }
      if filename !in imageDirs[dir] {
        skippedCount := skippedCount + 1;
        continue;
      }
      copies := copies + [Copy(dir, filename, ownerSlug)];
      movedCount := movedCount + 1;
    }
    assert order[..|order|] == order;
  }

  /**
   * When an article references `dir/file`, the key is owned, and the file
   * exists under the lower-cased directory, the rewritten body links
   * `/images/<owner>/file` and the plan holds a copy of that file to that
   * destination. A later copy of another directory's file with the same name
   * and owner may overwrite it; which copy is left is not stated here.
   */
  lemma RewrittenLinksResolve(body: seq<Body.Segment>, slug: string, order: seq<string>, owners: map<string, string>,
      imageDirs: map<string, seq<string>>, d: string, f: string)
    requires Ownership.MapOrder(order, owners)
    requires (d, f) in Body.Refs(body) && '/' !in d
    requires Body.ImageKey(d, f) in owners && owners[Body.ImageKey(d, f)] != ""
    requires ToLower(d) in imageDirs && f in imageDirs[ToLower(d)]
    ensures (owners[Body.ImageKey(d, f)], f) in Body.Refs(RewriteBody(body, owners, slug))
    ensures Copy(ToLower(d), f, owners[Body.ImageKey(d, f)]) in PlanOf(order, owners, imageDirs).copies
  {
    var k := Body.ImageKey(d, f);
    RewriteRefs(body, owners, slug);
    var refs := Body.Refs(body);
    var i :| 0 <= i < |refs| && refs[i] == (d, f);
    assert MovedRefs(refs, owners, slug)[i] == (owners[k], f);
    ToLowerKeeps(d, '/');
    SplitFirstOf(ToLower(d), '/', f);
    PlanCopyMembers(order, owners, imageDirs, Copy(ToLower(d), f, owners[k]));
    assert CopyOf(k, owners[k], imageDirs) == Some(Copy(ToLower(d), f, owners[k]));
  }
}
