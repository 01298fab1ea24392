/**
 * Media extraction: image references and YouTube ids found in post HTML, and
 * the placeholder rewrite of image sources before upload and back after it.
 */
module Extract {
  import opened Wrappers
  import opened Strings
  import opened Types
  import opened Dom
  import Constants
  import Seqs
  import JsMaps
  import Upload

  /** The reference an `<img>` element yields: one with a non-empty `src`, pending, its alt text defaulting to empty. */
  function ImageRefOf(img: DomNode): (r: Option<ImageReference>)
    requires img.Element?
    ensures r.Some? <==> GetAttr(img.attrs, "src").Some? && GetAttr(img.attrs, "src").value != []
  {
    match GetAttr(img.attrs, "src")
    case None => None
    case Some(src) =>
      if src == [] then None
      else Some(ImageReference(src, Upload.NormalizeImageUrl(src), GetAttr(img.attrs, "alt").GetOr(""), None, Pending, None))
  }

  /** The references of a list of `<img>` elements, in order. */
  function ImageRefs(imgs: seq<DomNode>): (refs: seq<ImageReference>)
    requires forall k :: 0 <= k < |imgs| ==> imgs[k].Element?
    ensures |refs| <= |imgs|
  {
    if imgs == [] then []
    else
      var head := ImageRefOf(imgs[0]);
      (if head.Some? then [head.value] else []) + ImageRefs(imgs[1..])
  }

  /** Every reference is pending, has a non-empty source, and carries the normalised form of it. */
  lemma {:induction false} ImageRefsShape(imgs: seq<DomNode>)
    requires forall k :: 0 <= k < |imgs| ==> imgs[k].Element?
    ensures forall k :: 0 <= k < |ImageRefs(imgs)| ==> var r := ImageRefs(imgs)[k];
      r.status == Pending && r.src != [] && r.normalizedSrc == Upload.NormalizeImageUrl(r.src) && r.mediaId.None?
  {
    if imgs != [] {
      ImageRefsShape(imgs[1..]);
    }
  }

  /** Reading the references distributes over the elements, so they come out in document order. */
  lemma {:induction false} ImageRefsAppend(a: seq<DomNode>, b: seq<DomNode>)
    requires forall k :: 0 <= k < |a| ==> a[k].Element?
    requires forall k :: 0 <= k < |b| ==> b[k].Element?
    ensures ImageRefs(a + b) == ImageRefs(a) + ImageRefs(b)
  {
    if a == [] {
      assert a + b == b;
    } else {
      var ab := a + b;
      assert ab[0] == a[0] && ab[1..] == a[1..] + b;
      var head := ImageRefOf(a[0]);
      assert ImageRefs(ab) == (if head.Some? then [head.value] else []) + ImageRefs(a[1..] + b);
      ImageRefsAppend(a[1..], b);
    }
  }

  /** One more element adds its reference, if it has one, at the end. */
  lemma ImageRefsSnoc(imgs: seq<DomNode>, k: nat)
    requires k < |imgs|
    requires forall i :: 0 <= i < |imgs| ==> imgs[i].Element?
    ensures var r := ImageRefOf(imgs[k]);
      ImageRefs(imgs[..k + 1]) == ImageRefs(imgs[..k]) + (if r.Some? then [r.value] else [])
  {
    assert imgs[..k + 1] == imgs[..k] + [imgs[k]];
    ImageRefsAppend(imgs[..k], [imgs[k]]);
    assert [imgs[k]][1..] == [];
  }

  /** The `<img>` elements of a parsed document, in document order. */
  function Imgs(doc: seq<DomNode>): (imgs: seq<DomNode>)
    ensures forall k :: 0 <= k < |imgs| ==> imgs[k].Element? && imgs[k].tag == "img"
  {
    var r := WithTag(Elements(doc), "img");
    assert forall k :: 0 <= k < |r| ==> r[k] in r;
    r
  }

  /** `extractImages`: one pending reference per `<img>` with a non-empty `src`, in document order. */
  method ExtractImages(parseHtml: string -> seq<DomNode>, html: string) returns (images: seq<ImageReference>)
    ensures images == ImageRefs(Imgs(parseHtml(html)))
  {
    var imgs := Imgs(parseHtml(html));
    images := [];
    var k := 0;
    while k < |imgs|
      invariant 0 <= k <= |imgs|
      invariant images == ImageRefs(imgs[..k])
    {
      var r := ImageRefOf(imgs[k]);
      ImageRefsSnoc(imgs, k);
      if r.Some? {
        images := images + [r.value];
      }
      k := k + 1;
    }
    assert imgs[..k] == imgs;
  }

  function NormalizedSrcOf(r: ImageReference): string {
    r.normalizedSrc
  }

  /** All references of all chunks, chunk after chunk. */
  function AllImageRefs(parseHtml: string -> seq<DomNode>, chunks: seq<string>): seq<ImageReference> {
    if chunks == [] then [] else ImageRefs(Imgs(parseHtml(chunks[0]))) + AllImageRefs(parseHtml, chunks[1..])
  }

  /** `extractImagesFromChunks`: the references of all chunks, keeping the first per normalised URL. */
  method ExtractImagesFromChunks(parseHtml: string -> seq<DomNode>, chunks: seq<string>) returns (all: seq<ImageReference>)
    ensures all == Seqs.DedupBy(AllImageRefs(parseHtml, chunks), NormalizedSrcOf, {})
  {
    ghost var target := Seqs.DedupBy(AllImageRefs(parseHtml, chunks), NormalizedSrcOf, {});
    all := [];
    var seenUrls: set<string> := {};
    var c := 0;
    while c < |chunks|
      invariant 0 <= c <= |chunks|
      invariant all + Seqs.DedupBy(AllImageRefs(parseHtml, chunks[c..]), NormalizedSrcOf, seenUrls) == target
    {
      var images := ExtractImages(parseHtml, chunks[c]);
      ghost var later := AllImageRefs(parseHtml, chunks[c + 1..]);
      assert chunks[c..][0] == chunks[c] && chunks[c..][1..] == chunks[c + 1..];
      assert AllImageRefs(parseHtml, chunks[c..]) == images + later;
      all, seenUrls := Seqs.DedupInto(all, seenUrls, images, NormalizedSrcOf, later, target);
      c := c + 1;
    }
  }

  /** The result has one reference per normalised URL, every URL of the input is represented, and the first occurrence is kept. */
  lemma ChunkImagesDistinctAndComplete(parseHtml: string -> seq<DomNode>, chunks: seq<string>)
    ensures var all := AllImageRefs(parseHtml, chunks);
      var r := Seqs.DedupBy(all, NormalizedSrcOf, {});
      Seqs.KeysDistinct(r, NormalizedSrcOf)
      && (forall i :: 0 <= i < |all| ==> Seqs.HasKey(r, NormalizedSrcOf, all[i].normalizedSrc))
      && (forall i :: 0 <= i < |all| && (forall j :: 0 <= j < i ==> all[j].normalizedSrc != all[i].normalizedSrc) ==> all[i] in r)
  {
    var all := AllImageRefs(parseHtml, chunks);
    var r := Seqs.DedupBy(all, NormalizedSrcOf, {});
    Seqs.DedupDistinct(all, NormalizedSrcOf, {});
    forall i | 0 <= i < |all| ensures Seqs.HasKey(r, NormalizedSrcOf, all[i].normalizedSrc) {
      Seqs.DedupCovers(all, NormalizedSrcOf, {}, i);
    }
    forall i | 0 <= i < |all| && (forall j :: 0 <= j < i ==> all[j].normalizedSrc != all[i].normalizedSrc)
      ensures all[i] in r
    {
      Seqs.DedupKeepsFirst(all, NormalizedSrcOf, {}, i);
    }
  }

  function Identity(s: string): string { s }

  /** The ids the three patterns capture, pattern after pattern. */
  function AllCaptures(html: string): seq<string> {
    Constants.Captures(Constants.Watch, html, 0) + Constants.Captures(Constants.EmbedLink, html, 0)
      + Constants.Captures(Constants.ShortcodeTag, html, 0)
  }

  /**
   * The global `exec` loop of one pattern over a string of length `n`, pushing each id not yet
   * present; `later` is what the following patterns will capture, and `target` the de-duplicated whole.
   */
  method CollectCaptures(exec: nat -> Option<Constants.Match>, ghost n: nat, ids0: seq<string>, ghost seen0: set<string>,
                         ghost later: seq<string>, ghost target: seq<string>)
    returns (ids: seq<string>, ghost seen: set<string>)
    requires Constants.Advances(exec, n)
    requires forall x :: x in ids0 <==> x in seen0
    requires ids0 + Seqs.DedupBy(Constants.ExecAll(exec, n, 0) + later, Identity, seen0) == target
    ensures forall x :: x in ids <==> x in seen
    ensures ids + Seqs.DedupBy(later, Identity, seen) == target
  {
    ids, seen := ids0, seen0;
    var lastIndex := 0;
    while true
      invariant forall x :: x in ids <==> x in seen
      invariant ids + Seqs.DedupBy(Constants.ExecAll(exec, n, lastIndex) + later, Identity, seen) == target
      decreases n - lastIndex
    {
      var m := exec(lastIndex);
      if m.None? {
        assert Constants.ExecAll(exec, n, lastIndex) + later == later;
        break;
      }
      var videoId := m.value.capture;
      ghost var rest := Constants.ExecAll(exec, n, m.value.end);
      assert Constants.ExecAll(exec, n, lastIndex) + later == [videoId] + (rest + later);
      Seqs.DedupStep(ids, videoId, rest + later, Identity, seen, target);
      if videoId !in ids {
        ids := ids + [videoId];
      }
      seen := seen + {videoId};
      lastIndex := m.value.end;
    }
  }

  /** The three `exec` loops one after the other, sharing the list of ids found so far. */
  method CollectAll(w: nat -> Option<Constants.Match>, e: nat -> Option<Constants.Match>, sc: nat -> Option<Constants.Match>,
                    ghost n: nat)
    returns (videoIds: seq<string>)
    requires Constants.Advances(w, n) && Constants.Advances(e, n) && Constants.Advances(sc, n)
    ensures videoIds == Seqs.DedupBy(Constants.ExecAll(w, n, 0) + Constants.ExecAll(e, n, 0) + Constants.ExecAll(sc, n, 0), Identity, {})
  {
    ghost var cw, ce, cs := Constants.ExecAll(w, n, 0), Constants.ExecAll(e, n, 0), Constants.ExecAll(sc, n, 0);
    ghost var target := Seqs.DedupBy(cw + ce + cs, Identity, {});
    assert cw + (ce + cs) == cw + ce + cs;
    ghost var seen: set<string>;
    videoIds, seen := CollectCaptures(w, n, [], {}, ce + cs, target);
    videoIds, seen := CollectCaptures(e, n, videoIds, seen, cs, target);
    assert cs + [] == cs;
    videoIds, seen := CollectCaptures(sc, n, videoIds, seen, [], target);
  }

  /** `extractYouTubeIds`: every captured id once, in the order watch and short links, then embeds, then shortcodes. */
  method ExtractYouTubeIds(html: string) returns (videoIds: seq<string>)
    ensures videoIds == Seqs.DedupBy(AllCaptures(html), Identity, {})
  {
    Constants.ExecAdvances(Constants.Watch, html);
    Constants.ExecAdvances(Constants.EmbedLink, html);
    Constants.ExecAdvances(Constants.ShortcodeTag, html);
    videoIds := CollectAll(Constants.Exec(Constants.Watch, html), Constants.Exec(Constants.EmbedLink, html),
      Constants.Exec(Constants.ShortcodeTag, html), |html|);
  }

  /** The ids are distinct eleven-character video ids. */
  lemma YouTubeIdsAreDistinctVideoIds(html: string)
    ensures var ids := Seqs.DedupBy(AllCaptures(html), Identity, {});
      (forall i, j :: 0 <= i < j < |ids| ==> ids[i] != ids[j])
      && forall k :: 0 <= k < |ids| ==> Constants.IsVideoId(ids[k])
  {
    var all := AllCaptures(html);
    var ids := Seqs.DedupBy(all, Identity, {});
    Seqs.DedupDistinct(all, Identity, {});
    assert forall i, j :: 0 <= i < j < |ids| ==> Identity(ids[i]) != Identity(ids[j]);
    Constants.CapturesAreVideoIds(Constants.Watch, html, 0);
    Constants.CapturesAreVideoIds(Constants.EmbedLink, html, 0);
    Constants.CapturesAreVideoIds(Constants.ShortcodeTag, html, 0);
    assert forall k :: 0 <= k < |all| ==> Constants.IsVideoId(all[k]);
    Seqs.DedupFresh(all, Identity, {});
    forall k | 0 <= k < |ids| ensures Constants.IsVideoId(ids[k]) {
      assert ids[k] in all;
    }
  }

  /** `extractGalleryImages`: the normalised source of each image, in document order. */
  method ExtractGalleryImages(parseHtml: string -> seq<DomNode>, html: string) returns (urls: seq<string>)
    ensures var refs := ImageRefs(Imgs(parseHtml(html)));
      |urls| == |refs| && forall k :: 0 <= k < |urls| ==> urls[k] == Upload.NormalizeImageUrl(refs[k].src)
  {
    var images := ExtractImages(parseHtml, html);
    ImageRefsShape(Imgs(parseHtml(html)));
    urls := seq(|images|, k requires 0 <= k < |images| => images[k].normalizedSrc);
  }

  const OriginalSrc := "data-original-src"

  /** Truthiness of an optional string, as `if (x)` reads it. */
  predicate Truthy(v: Option<string>) {
    v.Some? && v.value != []
  }

  /**
   * The placeholder `replaceImageUrls` puts on one element: an `<img>` whose non-empty `src`
   * normalises to a key with a non-empty placeholder gets the placeholder as `src` and the
   * normalised URL as `data-original-src`; every other element is left alone.
   */
  function ReplaceAttrs(imageMap: JsMaps.JsMap<string, string>, tag: string, attrs: seq<Attr>): (r: seq<Attr>)
    ensures tag != "img" || !Truthy(GetAttr(attrs, "src")) ==> r == attrs
  {
    if tag != "img" then attrs
    else match GetAttr(attrs, "src")
      case None => attrs
      case Some(src) =>
        if src == [] then attrs
        else
          var normalizedSrc := Upload.NormalizeImageUrl(src);
          var placeholder := imageMap.Get(normalizedSrc);
          if Truthy(placeholder) then SetAttr(SetAttr(attrs, "src", placeholder.value), OriginalSrc, normalizedSrc)
          else attrs
  }

  /**
   * The restore `restoreImageUrls` applies to one element: an `<img>` carrying `data-original-src`,
   * with a non-empty `src` and original, whose placeholder (or else original) has a non-empty
   * final URL, gets that URL as `src` and loses `data-original-src`.
   */
  function RestoreAttrs(urlMap: JsMaps.JsMap<string, string>, tag: string, attrs: seq<Attr>): (r: seq<Attr>)
    ensures tag != "img" || GetAttr(attrs, OriginalSrc).None? ==> r == attrs
  {
    var placeholder := GetAttr(attrs, "src");
    var originalSrc := GetAttr(attrs, OriginalSrc);
    if tag != "img" || !Truthy(placeholder) || !Truthy(originalSrc) then attrs
    else
      var byPlaceholder := urlMap.Get(placeholder.value);
      var restored := if Truthy(byPlaceholder) then byPlaceholder else urlMap.Get(originalSrc.value);
      if Truthy(restored) then RemoveAttr(SetAttr(attrs, "src", restored.value), OriginalSrc)
      else attrs
  }

  /** `replaceImageUrls` on the parsed document (parsing and serialising the body are left to the callers). */
  function ReplaceImageUrls(doc: seq<DomNode>, imageMap: JsMaps.JsMap<string, string>): (r: seq<DomNode>)
    ensures var es := Elements(doc); var rs := Elements(r);
      |rs| == |es| && forall i :: 0 <= i < |es| ==> rs[i].tag == es[i].tag && rs[i].attrs == ReplaceAttrs(imageMap, es[i].tag, es[i].attrs)
  {
    MapAttrsElements(doc, (tag, attrs) => ReplaceAttrs(imageMap, tag, attrs));
    MapAttrs(doc, (tag, attrs) => ReplaceAttrs(imageMap, tag, attrs))
  }

  /** `restoreImageUrls` on the parsed document. */
  function RestoreImageUrls(doc: seq<DomNode>, urlMap: JsMaps.JsMap<string, string>): (r: seq<DomNode>)
    ensures var es := Elements(doc); var rs := Elements(r);
      |rs| == |es| && forall i :: 0 <= i < |es| ==> rs[i].tag == es[i].tag && rs[i].attrs == RestoreAttrs(urlMap, es[i].tag, es[i].attrs)
  {
    MapAttrsElements(doc, (tag, attrs) => RestoreAttrs(urlMap, tag, attrs));
    MapAttrs(doc, (tag, attrs) => RestoreAttrs(urlMap, tag, attrs))
  }

  /** The placeholder an image's source is replaced by, if any. */
  function PlaceholderOf(imageMap: JsMaps.JsMap<string, string>, src: string): Option<string> {
    var p := imageMap.Get(Upload.NormalizeImageUrl(src));
    if Truthy(p) then p else None
  }

  /**
   * Replacing and then restoring an image with a placeholder: `src` becomes the final URL found
   * for the placeholder (or else for the normalised original), `data-original-src` is gone,
   * and every other attribute is as before.
   */
  lemma ReplaceThenRestore(imageMap: JsMaps.JsMap<string, string>, urlMap: JsMaps.JsMap<string, string>, attrs: seq<Attr>)
    requires Truthy(GetAttr(attrs, "src"))
    requires PlaceholderOf(imageMap, GetAttr(attrs, "src").value).Some?
    ensures var ph := PlaceholderOf(imageMap, GetAttr(attrs, "src").value).value;
      var original := Upload.NormalizeImageUrl(GetAttr(attrs, "src").value);
      var url := if Truthy(urlMap.Get(ph)) then urlMap.Get(ph) else urlMap.Get(original);
      var r := RestoreAttrs(urlMap, "img", ReplaceAttrs(imageMap, "img", attrs));
      (Truthy(url) ==> GetAttr(r, "src") == url && GetAttr(r, OriginalSrc).None?)
      && (!Truthy(url) ==> GetAttr(r, "src") == Some(ph) && GetAttr(r, OriginalSrc) == Some(original))
      && forall n :: n != "src" && n != OriginalSrc ==> GetAttr(r, n) == GetAttr(attrs, n)
  {
    var src := GetAttr(attrs, "src").value;
    var original := Upload.NormalizeImageUrl(src);
    var ph := PlaceholderOf(imageMap, src).value;
    var replaced := SetAttr(SetAttr(attrs, "src", ph), OriginalSrc, original);
    assert ReplaceAttrs(imageMap, "img", attrs) == replaced;
    assert GetAttr(replaced, "src") == Some(ph);
    assert GetAttr(replaced, OriginalSrc) == Some(original);
  }

  /** An image with no placeholder passes through both rewrites unchanged unless it already carried `data-original-src`. */
  lemma NoPlaceholderUntouched(imageMap: JsMaps.JsMap<string, string>, urlMap: JsMaps.JsMap<string, string>, attrs: seq<Attr>)
    requires !Truthy(GetAttr(attrs, "src")) || PlaceholderOf(imageMap, GetAttr(attrs, "src").value).None?
    requires GetAttr(attrs, OriginalSrc).None?
    ensures RestoreAttrs(urlMap, "img", ReplaceAttrs(imageMap, "img", attrs)) == attrs
  {
  }
}
