/**
 * An article body as the image scanner of the scripts sees it: plain text
 * interleaved with the image references that `IMG_REGEX`
 * (scripts/migrate-structure.mjs:187, scripts/validate-images.mjs:68)
 * matches. A reference is kept as its three parts: the text before
 * `/images/` (`src="`, `src='` or `![alt](`, optionally followed by
 * `http://localhost:3000`), the directory, and the file name.
 */
module Body {
  import opened Strings

  datatype Segment =
    | Plain(text: string)
    | ImageRef(prefix: string, dir: string, file: string)

  /** The text of a reference: `prefix/images/dir/file`. */
  function RefText(prefix: string, dir: string, file: string): string {
    prefix + "/images/" + dir + "/" + file
  }

  /** The text a body stands for. */
  function Render(body: seq<Segment>): string {
    if |body| == 0 then ""
    else
      Render(body[..|body| - 1]) + match body[|body| - 1]
        case Plain(t) => t
        case ImageRef(p, d, f) => RefText(p, d, f)
  }

  /** The references of a body, in order of appearance, as `(dir, file)` pairs. */
  function Refs(body: seq<Segment>): (r: seq<(string, string)>)
    ensures |r| <= |body|
  {
    if |body| == 0 then []
    else
      Refs(body[..|body| - 1]) + match body[|body| - 1]
        case Plain(_) => []
        case ImageRef(_, d, f) => [(d, f)]
  }

  /** A reference occurs in the body exactly when some segment is that reference. */
  lemma {:induction false} RefsMembers(body: seq<Segment>, d: string, f: string)
    ensures (d, f) in Refs(body) <==> exists i :: 0 <= i < |body| && body[i].ImageRef? && body[i].dir == d && body[i].file == f
  {
    if |body| > 0 {
      var init := body[..|body| - 1];
      RefsMembers(init, d, f);
      assert forall i :: 0 <= i < |init| ==> init[i] == body[i];
    }
  }

  /** `${dir.toLowerCase()}/${filename}`: the key under which the migration tracks an image file. */
  function ImageKey(dir: string, file: string): string {
    ToLower(dir) + "/" + file
  }
}
