/**
 * The draft-preview link of a post: `/next/preview?` followed by the query
 * string carrying the slug, the collection, the public path of the post and the
 * preview secret, plus the category slug when there is one. Percent-encoding of
 * the slugs and the query-string serialisation are passed in.
 */
module PreviewPath {
  import opened Wrappers
  import opened Strings

  datatype Param = Param(name: string, value: string)

  const Collection := "posts"
  const PreviewRoute := "/next/preview?"

  /** `categorySlug ? encodeURIComponent(categorySlug) : null`. */
  function EncodedCategory(categorySlug: Option<string>, encode: string -> string): (r: Option<string>)
    ensures r.Some? <==> categorySlug.Some? && categorySlug.value != []
    ensures r.Some? ==> r.value == encode(categorySlug.value)
  {
    if categorySlug.Some? && categorySlug.value != [] then Some(encode(categorySlug.value)) else None
  }

  /** A truthy encoded category slug. */
  predicate HasCategory(encodedCategory: Option<string>) {
    encodedCategory.Some? && encodedCategory.value != []
  }

  /** The public path of a post: `/blog/<category>/<slug>` with a category, else `/blog/<slug>`. */
  function PostPath(encodedSlug: string, encodedCategory: Option<string>): (path: string)
    ensures HasCategory(encodedCategory) ==> path == Join(["", "blog", encodedCategory.value, encodedSlug], "/")
    ensures !HasCategory(encodedCategory) ==> path == Join(["", "blog", encodedSlug], "/")
  {
    if HasCategory(encodedCategory) then
      var c := encodedCategory.value;
      assert Join([c, encodedSlug], "/") == c + "/" + encodedSlug;
      assert Join(["blog", c, encodedSlug], "/") == "blog" + "/" + (c + "/" + encodedSlug);
      assert Join(["", "blog", c, encodedSlug], "/") == "" + "/" + ("blog" + "/" + (c + "/" + encodedSlug));
      "/blog/" + c + "/" + encodedSlug
    else
      assert Join(["blog", encodedSlug], "/") == "blog" + "/" + encodedSlug;
      assert Join(["", "blog", encodedSlug], "/") == "" + "/" + ("blog" + "/" + encodedSlug);
      "/blog/" + encodedSlug
  }

  /** The query parameters in the order they are set. */
  function PreviewParams(encodedSlug: string, encodedCategory: Option<string>, secret: Option<string>): (ps: seq<Param>)
    ensures |ps| == if HasCategory(encodedCategory) then 5 else 4
    ensures ps[..4] == [Param("slug", encodedSlug), Param("collection", Collection),
                        Param("path", PostPath(encodedSlug, encodedCategory)), Param("previewSecret", secret.GetOr(""))]
    ensures HasCategory(encodedCategory) ==> ps[4] == Param("categorySlug", encodedCategory.value)
  {
    var base := [Param("slug", encodedSlug), Param("collection", Collection),
                 Param("path", PostPath(encodedSlug, encodedCategory)), Param("previewSecret", secret.GetOr(""))];
    if HasCategory(encodedCategory) then base + [Param("categorySlug", encodedCategory.value)] else base
  }

  /**
   * `generatePreviewPath` for a post: no link without a slug (an empty slug is allowed), else the
   * preview route followed by the serialised parameters.
   */
  function GeneratePreviewPath(slug: Option<string>, categorySlug: Option<string>, secret: Option<string>,
                               encode: string -> string, serialize: seq<Param> -> string): (r: Option<string>)
    ensures r.Some? <==> slug.Some?
    ensures r.Some? ==> (StartsWith(r.value, PreviewRoute)
      && r.value[|PreviewRoute|..] == serialize(PreviewParams(encode(slug.value), EncodedCategory(categorySlug, encode), secret)))
  {
    match slug
    case None => None
    case Some(s) =>
      var url := PreviewRoute + serialize(PreviewParams(encode(s), EncodedCategory(categorySlug, encode), secret));
      assert url[..|PreviewRoute|] == PreviewRoute;
      Some(url)
  }

  /** The `categorySlug` parameter is sent exactly when the category slug is non-empty, given
      that percent-encoding never empties a non-empty string. */
  lemma CategoryParamIffCategory(slug: string, categorySlug: Option<string>, secret: Option<string>, encode: string -> string)
    requires categorySlug.Some? && categorySlug.value != [] ==> encode(categorySlug.value) != []
    ensures var ps := PreviewParams(encode(slug), EncodedCategory(categorySlug, encode), secret);
      (|ps| == 5 <==> categorySlug.Some? && categorySlug.value != [])
      && (|ps| == 5 ==> ps[4] == Param("categorySlug", encode(categorySlug.value)))
  {
  }

  /** Percent-encoded slugs hold no `/`, so the path splits back into `blog`, the category
      when there is one, and the slug. */
  lemma {:induction false} PathSegments(encodedSlug: string, encodedCategory: Option<string>)
    requires Free(encodedSlug, '/')
    requires encodedCategory.Some? ==> Free(encodedCategory.value, '/')
    ensures Split(PostPath(encodedSlug, encodedCategory), '/')
      == if HasCategory(encodedCategory) then ["", "blog", encodedCategory.value, encodedSlug] else ["", "blog", encodedSlug]
  {
    var segs := if HasCategory(encodedCategory) then ["", "blog", encodedCategory.value, encodedSlug] else ["", "blog", encodedSlug];
    assert Free("", '/') && Free("blog", '/');
    assert forall k :: 0 <= k < |segs| ==> Free(segs[k], '/');
    SplitJoin(segs, '/');
  }
}
