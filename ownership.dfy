/**
 * Image ownership in the migration (scripts/migrate-structure.mjs:193-227):
 * every image key (lower-cased directory, `/`, file name) referenced by an
 * article gets the set of slugs that reference it, in order of first
 * reference; its owner is the first of them, and an image is shared when
 * more than one article references it.
 */
module Ownership {
  import opened Strings
  import Dedup
  import Body
  import Catalog

  /** One image reference met while scanning the articles: the article's slug and the image key. */
  datatype Use = Use(slug: string, key: string)

  function UseKey(u: Use): string {
    u.key
  }

  /** The references of one article, in order, as uses. */
  function UsesOf(slug: string, refs: seq<(string, string)>): (r: seq<Use>)
    ensures |r| == |refs|
  {
    if |refs| == 0 then []
    else
      var last := refs[|refs| - 1];
      UsesOf(slug, refs[..|refs| - 1]) + [Use(slug, Body.ImageKey(last.0, last.1))]
  }

  /** The references of all articles, article after article. */
  function Uses(arts: seq<Catalog.Article>): seq<Use> {
    if |arts| == 0 then []
    else
      var last := arts[|arts| - 1];
      Uses(arts[..|arts| - 1]) + UsesOf(last.slug, Body.Refs(last.body))
  }

  /** `imageOwnership`: for each key, the slugs that referenced it, in order of first reference. */
  function Candidates(uses: seq<Use>): map<string, seq<string>> {
    if |uses| == 0 then map[]
    else
      var m, u := Candidates(uses[..|uses| - 1]), uses[|uses| - 1];
      m[u.key := Dedup.AddNew(if u.key in m then m[u.key] else [], u.slug)]
  }

  /** The keys in the order they were first referenced: the iteration order of `imageOwnership`. */
  function KeyOrder(uses: seq<Use>): seq<string> {
    if |uses| == 0 then []
    else
      var init, u := uses[..|uses| - 1], uses[|uses| - 1];
      if u.key in KeyOrder(init) then KeyOrder(init) else KeyOrder(init) + [u.key]
  }

  lemma UsesSnoc(uses: seq<Use>, u: Use)
    ensures (uses + [u])[..|uses|] == uses && (uses + [u])[|uses|] == u
  {
  }

  /** A key has candidates exactly when some article references it. */
  lemma {:induction false} CandidatesDomain(uses: seq<Use>)
    ensures forall k :: k in Candidates(uses) <==> k in Dedup.KeySet(uses, UseKey)
  {
    if |uses| > 0 {
      var init, u := uses[..|uses| - 1], uses[|uses| - 1];
      assert uses == init + [u];
      CandidatesDomain(init);
      Dedup.KeySetSnoc(init, u, UseKey);
    }
  }

  /** The candidates of a key are exactly the slugs of the articles that reference it. */
  lemma {:induction false} CandidatesMembers(uses: seq<Use>, k: string, s: string)
    requires k in Candidates(uses)
    ensures s in Candidates(uses)[k] <==> Use(s, k) in uses
  {
    var init, u := uses[..|uses| - 1], uses[|uses| - 1];
    assert uses == init + [u];
    if k in Candidates(init) {
      CandidatesMembers(init, k, s);
    } else {
      CandidatesDomain(init);
    }
  }

  /** No slug is listed twice for a key. */
  lemma {:induction false} CandidatesDistinct(uses: seq<Use>, k: string)
    requires k in Candidates(uses)
    ensures Dedup.Distinct(Candidates(uses)[k])
  {
    var init, u := uses[..|uses| - 1], uses[|uses| - 1];
    if k in Candidates(init) {
      CandidatesDistinct(init, k);
    }
  }

  /** The first candidate of a key is the slug of the first article that referenced it. */
  lemma {:induction false} CandidatesFirst(uses: seq<Use>, k: string)
    requires k in Candidates(uses)
    ensures k in Dedup.KeySet(uses, UseKey)
    ensures |Candidates(uses)[k]| > 0 && Candidates(uses)[k][0] == Dedup.FirstWithKey(uses, UseKey, k).slug
  {
    var init, u := uses[..|uses| - 1], uses[|uses| - 1];
    assert uses == init + [u];
    CandidatesDomain(init);
    CandidatesDomain(uses);
    if k in Candidates(init) {
      CandidatesFirst(init, k);
      Dedup.FirstWithKeySnoc(init, u, UseKey, k);
    } else {
      Dedup.FirstWithKeyFresh(init, u, UseKey);
    }
  }

  /** The key order lists every referenced key once. */
  lemma {:induction false} KeyOrderCovers(uses: seq<Use>)
    ensures Dedup.Distinct(KeyOrder(uses))
    ensures forall k :: k in KeyOrder(uses) <==> k in Candidates(uses)
  {
    if |uses| > 0 {
      var init, u := uses[..|uses| - 1], uses[|uses| - 1];
      KeyOrderCovers(init);
    }
  }

  /** The state of the scan after the uses `walked`. */
  ghost predicate Scanned(walked: seq<Use>, imageOwnership: map<string, seq<string>>, order: seq<string>) {
    imageOwnership == Candidates(walked) && order == KeyOrder(walked)
  }

  /** One match of the scan (lines 202-210). */
  lemma ScanStep(walked: seq<Use>, imageOwnership: map<string, seq<string>>, order: seq<string>, u: Use)
    requires Scanned(walked, imageOwnership, order)
    ensures Scanned(walked + [u],
      imageOwnership[u.key := Dedup.AddNew(if u.key in imageOwnership then imageOwnership[u.key] else [], u.slug)],
      if u.key in imageOwnership then order else order + [u.key])
  {
    UsesSnoc(walked, u);
    KeyOrderCovers(walked);
  }

  lemma UsesOfPrefix(slug: string, refs: seq<(string, string)>, j: nat)
    requires j < |refs|
    ensures UsesOf(slug, refs[..j + 1]) == UsesOf(slug, refs[..j]) + [Use(slug, Body.ImageKey(refs[j].0, refs[j].1))]
  {
    assert refs[..j + 1][..j] == refs[..j];
  }

  lemma UsesPrefix(arts: seq<Catalog.Article>, i: nat)
    requires i < |arts|
    ensures Uses(arts[..i + 1]) == Uses(arts[..i]) + UsesOf(arts[i].slug, Body.Refs(arts[i].body))
  {
    assert arts[..i + 1][..i] == arts[..i];
  }

  /** The map after `if (!has(key)) set(key, new Set()); get(key).add(slug)`. */
  function AddUse(imageOwnership: map<string, seq<string>>, key: string, slug: string): map<string, seq<string>> {
    var m := if key !in imageOwnership then imageOwnership[key := []] else imageOwnership;
    m[key := Dedup.AddNew(m[key], slug)]
  }

  /** One match of the body loop keeps the scan state in step with the uses walked so far. */
  lemma ScanBodyStep(before: seq<Use>, slug: string, refs: seq<(string, string)>, j: nat,
      imageOwnership: map<string, seq<string>>, order: seq<string>)
    requires j < |refs|
    requires Scanned(before + UsesOf(slug, refs[..j]), imageOwnership, order)
    ensures var key := Body.ImageKey(refs[j].0, refs[j].1);
      Scanned(before + UsesOf(slug, refs[..j + 1]),
        AddUse(imageOwnership, key, slug),
        if key !in imageOwnership then order + [key] else order)
  {
    var key := Body.ImageKey(refs[j].0, refs[j].1);
    var u := Use(slug, key);
    ScanStep(before + UsesOf(slug, refs[..j]), imageOwnership, order, u);
    UsesOfPrefix(slug, refs, j);
    AppendAssoc(before, UsesOf(slug, refs[..j]), [u]);
    assert before + UsesOf(slug, refs[..j + 1]) == before + UsesOf(slug, refs[..j]) + [u];
    AddUseIs(imageOwnership, key, slug);
  }

  lemma AddUseIs(imageOwnership: map<string, seq<string>>, key: string, slug: string)
    ensures AddUse(imageOwnership, key, slug) ==
      imageOwnership[key := Dedup.AddNew(if key in imageOwnership then imageOwnership[key] else [], slug)]
  {
    if key !in imageOwnership {
      var x := Dedup.AddNew([], slug);
      assert imageOwnership[key := []][key := x] == imageOwnership[key := x];
    }
  }

  lemma UsesOfAll(before: seq<Use>, slug: string, refs: seq<(string, string)>)
    ensures before + UsesOf(slug, refs[..0]) == before
    ensures refs[..|refs|] == refs
  {
  }

  /** The match loop over one article body (lines 200-211). */
  method ScanBody(slug: string, refs: seq<(string, string)>, ghost before: seq<Use>,
      ownershipIn: map<string, seq<string>>, orderIn: seq<string>)
    returns (imageOwnership: map<string, seq<string>>, order: seq<string>)
    requires Scanned(before, ownershipIn, orderIn)
    ensures Scanned(before + UsesOf(slug, refs), imageOwnership, order)
  {
    imageOwnership, order := ownershipIn, orderIn;
    UsesOfAll(before, slug, refs);
    for j := 0 to |refs|
      invariant Scanned(before + UsesOf(slug, refs[..j]), imageOwnership, order)
    {
      var key := Body.ImageKey(refs[j].0, refs[j].1);
      ScanBodyStep(before, slug, refs, j, imageOwnership, order);
      if key !in imageOwnership {
        order := order + [key];
        imageOwnership := imageOwnership[key := []];
      }
      imageOwnership := imageOwnership[key := Dedup.AddNew(imageOwnership[key], slug)];
    }
  }

  /** The scan of all article bodies (lines 196-214). */
  method ResolveOwnership(allArticles: seq<Catalog.Article>)
    returns (imageOwnership: map<string, seq<string>>, order: seq<string>)
    ensures imageOwnership == Candidates(Uses(allArticles))
    ensures order == KeyOrder(Uses(allArticles))
  {
    imageOwnership, order := map[], [];
    for i := 0 to |allArticles|
      invariant Scanned(Uses(allArticles[..i]), imageOwnership, order)
    {
      var art := allArticles[i];
      UsesPrefix(allArticles, i);
      imageOwnership, order := ScanBody(art.slug, Body.Refs(art.body), Uses(allArticles[..i]), imageOwnership, order);
    }
    assert allArticles[..|allArticles|] == allArticles;
  }

  /** The keys of `m` listed in `order` that have more than one candidate. */
  function SharedIn(order: seq<string>, m: map<string, seq<string>>): set<string> {
    set k | k in order && k in m && |m[k]| > 1
  }

  /** `order` lists the keys of `m`, each once: the iteration order of a JavaScript `Map`. */
  ghost predicate MapOrder<V>(order: seq<string>, m: map<string, V>) {
    Dedup.Distinct(order) && forall k :: k in order <==> k in m
  }

  lemma SharedStep(order: seq<string>, m: map<string, seq<string>>, i: nat)
    requires i < |order| && Dedup.Distinct(order)
    ensures SharedIn(order[..i + 1], m)
      == SharedIn(order[..i], m) + (if order[i] in m && |m[order[i]]| > 1 then {order[i]} else {})
    ensures order[i] !in SharedIn(order[..i], m)
  {
    assert order[..i + 1] == order[..i] + [order[i]];
  }

  /**
   * The owner loop (lines 216-225): every key gets its first candidate as
   * owner, and `sharedCount` is the number of keys with more than one
   * candidate.
   */
  method AssignOwners(imageOwnership: map<string, seq<string>>, order: seq<string>)
    returns (imageFileOwner: map<string, string>, sharedCount: nat)
    requires MapOrder(order, imageOwnership)
    requires forall k :: k in imageOwnership ==> |imageOwnership[k]| > 0
    ensures forall k :: k in imageFileOwner <==> k in imageOwnership
    ensures forall k :: k in imageFileOwner ==> imageFileOwner[k] == imageOwnership[k][0]
    ensures sharedCount == |set k | k in imageOwnership && |imageOwnership[k]| > 1|
  {
    imageFileOwner, sharedCount := map[], 0;
    for i := 0 to |order|
      invariant FirstOwners(imageFileOwner, order[..i], imageOwnership)
      invariant sharedCount == |SharedIn(order[..i], imageOwnership)|
    {
      var key := order[i];
      SharedStep(order, imageOwnership, i);
      FirstOwnersStep(imageFileOwner, order, imageOwnership, i);
      if |imageOwnership[key]| > 1 {
        sharedCount := sharedCount + 1;
      }
      imageFileOwner := imageFileOwner[key := imageOwnership[key][0]];
    }
    assert order[..|order|] == order;
    assert SharedIn(order, imageOwnership) == set k | k in imageOwnership && |imageOwnership[k]| > 1;
  }

  /** `owner` gives each key of `keys`, and no other, its first candidate in `m`. */
  ghost predicate FirstOwners(owner: map<string, string>, keys: seq<string>, m: map<string, seq<string>>) {
    && (forall k :: k in owner <==> k in keys)
    && (forall k :: k in owner ==> k in m && |m[k]| > 0 && owner[k] == m[k][0])
  }

  lemma FirstOwnersStep(owner: map<string, string>, order: seq<string>, m: map<string, seq<string>>, i: nat)
    requires MapOrder(order, m) && forall k :: k in m ==> |m[k]| > 0
    requires i < |order| && FirstOwners(owner, order[..i], m)
    ensures order[i] in m && |m[order[i]]| > 0
    ensures FirstOwners(owner[order[i] := m[order[i]][0]], order[..i + 1], m)
  {
    PrefixSnoc(order, i);
  }

  /**
   * After both loops, every referenced key is owned by the first article that
   * referenced it, which is one of its candidates.
   */
  lemma OwnerIsFirstCandidate(arts: seq<Catalog.Article>, k: string)
    requires k in Candidates(Uses(arts))
    ensures |Candidates(Uses(arts))[k]| > 0 && Use(Candidates(Uses(arts))[k][0], k) in Uses(arts)
    ensures Candidates(Uses(arts))[k][0] == Dedup.FirstWithKey(Uses(arts), UseKey, k).slug
  {
    var uses := Uses(arts);
    CandidatesFirst(uses, k);
    CandidatesMembers(uses, k, Candidates(uses)[k][0]);
  }

  /** What the scan hands to the owner loop is a well-ordered map with non-empty candidate lists. */
  lemma ScanFeedsOwners(uses: seq<Use>)
    ensures MapOrder(KeyOrder(uses), Candidates(uses))
    ensures forall k :: k in Candidates(uses) ==> |Candidates(uses)[k]| > 0
  {
    KeyOrderCovers(uses);
    forall k | k in Candidates(uses) ensures |Candidates(uses)[k]| > 0 {
      CandidatesFirst(uses, k);
    }
  }
}
