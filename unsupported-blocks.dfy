/**
 * The converters for WordPress blocks that become Payload blocks instead of Lexical content:
 * YouTube and VideoPress embeds, galleries, buttons, videos and columns, and the router that
 * picks one by the block's CMS mapping. Every failure carries no nodes.
 */
module UnsupportedBlocks {
  import opened Wrappers
  import opened Strings
  import opened Json
  import opened Dom
  import opened Types
  import Seqs
  import JsMaps
  import Constants
  import Registry
  import Extract
  import Upload
  import Lexical
  import MergeLexical

  /** The third-party collaborators a conversion hands work to. */
  datatype Collaborators = Collaborators(
    parseHtml: string -> seq<DomNode>,
    serializeHtml: seq<DomNode> -> string,
    converter: string -> Lexical.ConverterOutput,
    generated: string,
    blockId: nat -> string)

  /**
   * The shape every block converter gives its result: a failure carries no nodes; a success
   * carries no errors and at least one node, every node a Payload block.
   */
  predicate Shaped(r: ConversionResult) {
    (!r.success ==> r.nodes == [])
    && (r.success ==> r.errors == [] && r.nodes != [] && forall k :: 0 <= k < |r.nodes| ==> r.nodes[k].Cms?)
  }

  // ---------------------------------------------------------------- YouTube

  const WatchUrlPrefix := "https://www.youtube.com/watch?v="
  const NoYoutubeId := "Could not extract YouTube video ID"

  /** The ids `extractYouTubeIds` finds in the HTML, each once. */
  function HtmlYoutubeIds(html: string): seq<string> {
    Seqs.DedupBy(Extract.AllCaptures(html), Extract.Identity, {})
  }

  /** `url.match(WATCH) || url.match(EMBED)`: the id of the first watch or short link, else of the first embed link. */
  function UrlYoutubeId(url: string): (r: Option<string>)
    ensures r.Some? ==> Constants.IsVideoId(r.value)
  {
    match Constants.FirstMatchFrom(Constants.Watch, url, 0)
    case Some(m) => Some(m.capture)
    case None =>
      match Constants.FirstMatchFrom(Constants.EmbedLink, url, 0)
      case Some(m) => Some(m.capture)
      case None => None
  }

  /** The id `convertYouTube` uses: the first found in the HTML, else the one in the `url` attribute. */
  function YoutubeId(chunk: WPChunk): (r: Option<string>)
    ensures HtmlYoutubeIds(chunk.html) != [] ==> r == Some(HtmlYoutubeIds(chunk.html)[0])
    ensures HtmlYoutubeIds(chunk.html) == [] && StrAttr(chunk.attributes, "url").None? ==> r.None?
    ensures r.Some? ==> Constants.IsVideoId(r.value)
  {
    var ids := HtmlYoutubeIds(chunk.html);
    Extract.YouTubeIdsAreDistinctVideoIds(chunk.html);
    if ids != [] then Some(ids[0])
    else match StrAttr(chunk.attributes, "url")
      case None => None
      case Some(url) => UrlYoutubeId(url)
  }

  /** `convertYouTube`: one `youtubeBlock` with the watch URL of the id found, or a failure. */
  function ConvertYouTube(chunk: WPChunk): (r: ConversionResult)
    ensures r.success <==> YoutubeId(chunk).Some?
    ensures r.success ==> r == ConversionResult([Cms(YoutubeNode(WatchUrlPrefix + YoutubeId(chunk).value))], [], [], true)
    ensures !r.success ==> r == Failure(NoYoutubeId, [])
  {
    match YoutubeId(chunk)
    case None => Failure(NoYoutubeId, [])
    case Some(id) => ConversionResult([Cms(YoutubeNode(WatchUrlPrefix + id))], [], [], true)
  }

  // ---------------------------------------------------------------- VideoPress

  const EmbedWrapperClass := "wp-block-embed__wrapper"
  const VideopressPrefix := "https://videopress.com/v/"
  const NoVideopressUrl := "Could not extract VideoPress URL"

  predicate IsHttpUrl(s: string) {
    StartsWith(s, "http://") || StartsWith(s, "https://")
  }

  /** The trimmed text of the first embed wrapper, when it is a non-empty http(s) URL. */
  function WrapperUrl(doc: seq<DomNode>): (r: Option<string>)
    ensures r.Some? ==> r.value != [] && IsHttpUrl(r.value)
  {
    match FirstWithClass(doc, EmbedWrapperClass)
    case None => None
    case Some(w) =>
      var text := Trim(TextContent(w));
      if text != [] && IsHttpUrl(text) then Some(text) else None
  }

  /** The URL `convertVideopress` settles on. */
  function VideopressUrl(parseHtml: string -> seq<DomNode>, chunk: WPChunk): Option<string> {
    match StrAttr(chunk.attributes, "url")
    case Some(url) => Some(url)
    case None =>
      match WrapperUrl(parseHtml(chunk.html))
      case Some(url) => Some(url)
      case None =>
        match StrAttr(chunk.attributes, "guid")
        case Some(guid) => Some(VideopressPrefix + guid)
        case None => None
  }

  /**
   * `convertVideopress`: the `url` attribute, else an http(s) URL in the embed wrapper, else the
   * URL built from the `guid`; one `videopressBlock` with it, or a failure when there is none.
   */
  function ConvertVideopress(parseHtml: string -> seq<DomNode>, chunk: WPChunk): (r: ConversionResult)
    ensures var url := StrAttr(chunk.attributes, "url");
      var wrapped := WrapperUrl(parseHtml(chunk.html));
      var guid := StrAttr(chunk.attributes, "guid");
      (r.success <==> url.Some? || wrapped.Some? || guid.Some?)
      && (!r.success ==> r == Failure(NoVideopressUrl, []))
      && (r.success ==> r.errors == [] && r.warnings == [] && |r.nodes| == 1 && r.nodes[0].Cms? && r.nodes[0].block.VideopressNode?)
      && (url.Some? ==> r.nodes == [Cms(VideopressNode(url.value))])
      && (url.None? && wrapped.Some? ==> r.nodes == [Cms(VideopressNode(wrapped.value))])
      && (url.None? && wrapped.None? && guid.Some? ==> r.nodes == [Cms(VideopressNode(VideopressPrefix + guid.value))])
  {
    match VideopressUrl(parseHtml, chunk)
    case None => Failure(NoVideopressUrl, [])
    case Some(url) => ConversionResult([Cms(VideopressNode(url))], [], [], true)
  }

  // ---------------------------------------------------------------- Buttons

  const ButtonClass := "wp-block-button"
  const ButtonLinkClass := "wp-block-button__link"
  const OutlineClass := "is-style-outline"
  const NoButtonLink := "No link found in button block"

  /** An `<a>` of the document, with the class name of its nearest proper ancestor carrying the button class. */
  datatype LinkSite = LinkSite(link: DomNode, within: Option<string>)

  predicate IsAnchor(s: LinkSite) {
    s.link.Element? && s.link.tag == "a"
  }

  /** Every `<a>` among `ns` and below, in document order. */
  function Anchors(ns: seq<DomNode>, within: Option<string>): (r: seq<LinkSite>)
    ensures forall k :: 0 <= k < |r| ==> IsAnchor(r[k])
    decreases ns
  {
    if ns == [] then [] else AnchorsOf(ns[0], within) + Anchors(ns[1..], within)
  }

  function AnchorsOf(n: DomNode, within: Option<string>): (r: seq<LinkSite>)
    ensures forall k :: 0 <= k < |r| ==> IsAnchor(r[k])
    decreases n
  {
    match n
    case Element(tag, attrs, cs) =>
      var inner := if HasClass(attrs, ButtonClass) then Some(ClassName(attrs)) else within;
      (if tag == "a" then [LinkSite(n, within)] else []) + Anchors(cs, inner)
    case _ => []
  }

  /** The link matches `a.wp-block-button__link, .wp-block-button a`. */
  predicate Matched(s: LinkSite) {
    IsAnchor(s) && (HasClass(s.link.attrs, ButtonLinkClass) || s.within.Some?)
  }

  /** The links `convertButton` turns into buttons: the matched ones, else the first `<a>` of all. */
  function ButtonLinks(doc: seq<DomNode>): (r: seq<LinkSite>)
    ensures forall k :: 0 <= k < |r| ==> IsAnchor(r[k])
    ensures r == [] <==> Anchors(doc, None) == []
  {
    var anchors := Anchors(doc, None);
    var matched := Seqs.Filter(anchors, Matched);
    if matched != [] then matched else if anchors != [] then [anchors[0]] else []
  }

  /** `linkElement.closest('.wp-block-button')?.className || ''`: the link itself counts. */
  function ContainerClass(s: LinkSite): string
    requires IsAnchor(s)
  {
    if HasClass(s.link.attrs, ButtonClass) then ClassName(s.link.attrs) else s.within.GetOr("")
  }

  function Href(s: LinkSite): string
    requires IsAnchor(s)
  {
    GetAttr(s.link.attrs, "href").GetOr("")
  }

  function LinkText(s: LinkSite): string
    requires IsAnchor(s)
  {
    Trim(TextContent(s.link))
  }

  /** The outline style is asked for by the container's class, the link's class, or the chunk's `className`. */
  predicate IsOutline(s: LinkSite, chunkClass: Option<string>)
    requires IsAnchor(s)
  {
    Contains(ContainerClass(s), OutlineClass) || Contains(ClassName(s.link.attrs), OutlineClass)
    || (chunkClass.Some? && Contains(chunkClass.value, "outline"))
  }

  /** The `buttonBlock` one link becomes. */
  function ButtonOf(s: LinkSite, chunkClass: Option<string>): (b: CmsNode)
    requires IsAnchor(s)
  {
    var href := Href(s);
    var text := LinkText(s);
    ButtonNode(
      ButtonLink(if href == "" then "#" else href, GetAttr(s.link.attrs, "target") == Some("_blank"),
                 if text == "" then None else Some(text)),
      if IsOutline(s, chunkClass) then "outline" else "default")
  }

  /**
   * A button links to the `href`, or to `#` when there is none; opens a new tab exactly for
   * `target="_blank"`; is labelled with the trimmed text when there is any; and is outlined
   * exactly when a class asks for it.
   */
  lemma ButtonFields(s: LinkSite, chunkClass: Option<string>)
    requires IsAnchor(s)
    ensures var b := ButtonOf(s, chunkClass);
      b.ButtonNode?
      && (Href(s) != "" ==> b.link.url == Href(s))
      && (Href(s) == "" ==> b.link.url == "#")
      && (b.link.newTab <==> GetAttr(s.link.attrs, "target") == Some("_blank"))
      && (LinkText(s) == "" <==> b.link.caption.None?)
      && (b.link.caption.Some? ==> b.link.caption.value == LinkText(s))
      && (b.appearance == "outline" <==> IsOutline(s, chunkClass))
      && (b.appearance != "outline" ==> b.appearance == "default")
  {
  }

  /** The warning for the link at `index` (from 0) that has no `href`. */
  function MissingHrefWarning(s: LinkSite, index: nat): string
    requires IsAnchor(s)
  {
    var name := if LinkText(s) == "" then "Button " + NatToString(index + 1) else LinkText(s);
    "Button \"" + name + "\" has no href attribute. Using placeholder \"#\"."
  }

  /** The warnings for `links`, one per link without `href`, in order. */
  function HrefWarnings(links: seq<LinkSite>): seq<string>
    requires forall k :: 0 <= k < |links| ==> IsAnchor(links[k])
  {
    if links == [] then []
    else
      var last := links[|links| - 1];
      HrefWarnings(Seqs.Init(links)) + (if Href(last) == "" then [MissingHrefWarning(last, |links| - 1)] else [])
  }

  /** The `buttonBlock` node for one link. */
  function ButtonMaker(chunkClass: Option<string>): (f: LinkSite --> ConvertedNode)
    ensures forall s :: IsAnchor(s) ==> f.requires(s) && f(s) == Cms(ButtonOf(s, chunkClass))
  {
    s requires IsAnchor(s) => Cms(ButtonOf(s, chunkClass))
  }

  /** The buttons for `links`, one per link, in order. */
  function ButtonNodes(links: seq<LinkSite>, chunkClass: Option<string>): (r: seq<ConvertedNode>)
    requires forall k :: 0 <= k < |links| ==> IsAnchor(links[k])
    ensures |r| == |links| && forall k :: 0 <= k < |links| ==> r[k] == Cms(ButtonOf(links[k], chunkClass))
  {
    Seqs.Map(links, ButtonMaker(chunkClass))
  }

  /** What `convertButton` reports for a parsed document. */
  function ButtonResult(doc: seq<DomNode>, chunk: WPChunk): ConversionResult {
    var links := ButtonLinks(doc);
    if links == [] then Failure(NoButtonLink, [])
    else ConversionResult(ButtonNodes(links, StrAttr(chunk.attributes, "className")), HrefWarnings(links), [], true)
  }

  /** One more link processed: its warning added when it has no `href`. */
  lemma ButtonStep(links: seq<LinkSite>, index: nat)
    requires forall k :: 0 <= k < |links| ==> IsAnchor(links[k])
    requires index < |links|
    ensures HrefWarnings(links[..index + 1]) == HrefWarnings(links[..index])
      + (if Href(links[index]) == "" then [MissingHrefWarning(links[index], index)] else [])
  {
    Seqs.InitOfSnoc(links[..index], links[index]);
    assert links[..index + 1] == links[..index] + [links[index]];
  }

  /** The loop of `convertButton`: one button per link and one warning per link without `href`, in order. */
  method ButtonsFor(links: seq<LinkSite>, cls: Option<string>) returns (nodes: seq<ConvertedNode>, warnings: seq<string>)
    requires forall k :: 0 <= k < |links| ==> IsAnchor(links[k])
    ensures nodes == ButtonNodes(links, cls) && warnings == HrefWarnings(links)
  {
    nodes := [];
    warnings := [];
    var index := 0;
    while index < |links|
      invariant 0 <= index <= |links|
      invariant nodes == Seqs.Map(links[..index], ButtonMaker(cls))
      invariant warnings == HrefWarnings(links[..index])
    {
      var link := links[index];
      ButtonStep(links, index);
      if Href(link) == "" {
        warnings := warnings + [MissingHrefWarning(link, index)];
      }
      Seqs.MapSnoc(links, ButtonMaker(cls), index);
      nodes := nodes + [Cms(ButtonOf(link, cls))];
      index := index + 1;
    }
    assert links[..index] == links;
  }

  /** `convertButton`: one `buttonBlock` per link, each link warned about when it has no `href`. */
  method ConvertButton(parseHtml: string -> seq<DomNode>, chunk: WPChunk) returns (r: ConversionResult)
    ensures r == ButtonResult(parseHtml(chunk.html), chunk)
    ensures r.success <==> Anchors(parseHtml(chunk.html), None) != []
    ensures !r.success ==> r == Failure(NoButtonLink, [])
    ensures |r.nodes| == |ButtonLinks(parseHtml(chunk.html))|
    ensures forall k :: 0 <= k < |r.nodes| ==> r.nodes[k].Cms? && r.nodes[k].block.ButtonNode?
  {
    ButtonsPerLink(parseHtml(chunk.html), chunk);
    var links := ButtonLinks(parseHtml(chunk.html));
    if links == [] {
      return Failure(NoButtonLink, []);
    }
    var nodes, warnings := ButtonsFor(links, StrAttr(chunk.attributes, "className"));
    r := ConversionResult(nodes, warnings, [], true);
  }

  /** Buttons fail only when the document has no link at all; otherwise every link gives one button, in order. */
  lemma ButtonsPerLink(doc: seq<DomNode>, chunk: WPChunk)
    ensures var r := ButtonResult(doc, chunk);
      (r.success <==> Anchors(doc, None) != [])
      && (!r.success ==> r.nodes == [])
      && |r.nodes| == |ButtonLinks(doc)|
      && forall k :: 0 <= k < |r.nodes| ==> r.nodes[k].Cms? && r.nodes[k].block.ButtonNode?
  {
  }

  /** The links without `href` among `links`. */
  predicate NoHref(s: LinkSite) {
    IsAnchor(s) && Href(s) == ""
  }

  /** There is one warning per link without `href`. */
  lemma {:induction false} OneWarningPerMissingHref(links: seq<LinkSite>)
    requires forall k :: 0 <= k < |links| ==> IsAnchor(links[k])
    ensures |HrefWarnings(links)| == |Seqs.Filter(links, NoHref)|
  {
    if links != [] {
      var init := Seqs.Init(links);
      var last := links[|links| - 1];
      OneWarningPerMissingHref(init);
      assert links == init + [last];
      Seqs.FilterAppend(init, [last], NoHref);
      assert [last][1..] == [];
    }
  }

  // ---------------------------------------------------------------- Gallery

  const NoGalleryImages := "No images found in gallery"
  const GalleryUploadFailed := "Failed to upload gallery images"

  /** The normalised image URLs `extractGalleryImages` returns, in document order. */
  function GalleryUrls(parseHtml: string -> seq<DomNode>, html: string): (urls: seq<string>) {
    var refs := Extract.ImageRefs(Extract.Imgs(parseHtml(html)));
    seq(|refs|, k requires 0 <= k < |refs| => Upload.NormalizeImageUrl(refs[k].src))
  }

  /** `columns ? columns.toString() : '3'`. */
  function NumberPerRow(attrs: Option<Attrs>): (s: string)
    ensures TruthyAttr(attrs, "columns").None? ==> s == "3"
    ensures TruthyAttr(attrs, "columns").Some? ==> s == ToText(TruthyAttr(attrs, "columns").value)
  {
    match TruthyAttr(attrs, "columns")
    case None => "3"
    case Some(v) => ToText(v)
  }

  /** The reference handed to the upload for one gallery URL. */
  function PendingImage(url: string): (ref: ImageReference)
    ensures !Upload.Untouched(ref) && ref.normalizedSrc == url
  {
    ImageReference(url, url, "", None, Pending, None)
  }

  /** A pending reference per gallery URL, in order. */
  function PendingImages(urls: seq<string>): (refs: seq<ImageReference>)
    ensures |refs| == |urls| && forall k :: 0 <= k < |urls| ==> refs[k] == PendingImage(urls[k])
  {
    seq(|urls|, k requires 0 <= k < |urls| => PendingImage(urls[k]))
  }

  /** What a block converter gives, and the collection and shared image map it leaves. */
  datatype BlockStep = BlockStep(result: ConversionResult, media: Upload.Media, imageMap: JsMaps.JsMap<string, int>)

  /**
   * What `convertGallery` does against the collection `m` and the shared map `imageMap`: no URL
   * fails before any upload; otherwise the images are uploaded in order, no uploaded image fails,
   * and any uploaded image gives one `galleryBlock` of the ids in the upload map's order, those
   * entries being copied into the shared map.
   */
  function GalleryStep(parseHtml: string -> seq<DomNode>, m: Upload.Media, imageMap: JsMaps.JsMap<string, int>, chunk: WPChunk,
                       fetch: string -> Upload.FetchResult, now: nat, lookupFails: bool, createError: Option<string>): (s: BlockStep)
    requires imageMap.Valid()
    ensures s.imageMap.Valid() && Shaped(s.result)
    ensures !s.result.success ==> s.imageMap == imageMap
    ensures var urls := GalleryUrls(parseHtml, chunk.html);
      s.result.success <==> urls != [] && Upload.MapOf(Upload.ProcessAll(m, PendingImages(urls), fetch, now, lookupFails, createError).refs).order != []
  {
    var urls := GalleryUrls(parseHtml, chunk.html);
    if urls == [] then BlockStep(Failure(NoGalleryImages, []), m, imageMap)
    else
      var b := Upload.ProcessAll(m, PendingImages(urls), fetch, now, lookupFails, createError);
      var uploaded := Upload.MapOf(b.refs);
      if uploaded.order == [] then BlockStep(Failure(GalleryUploadFailed, []), b.media, imageMap)
      else BlockStep(ConversionResult([Cms(GalleryNode(uploaded.Values(), NumberPerRow(chunk.attributes)))], [], [], true),
                     b.media, JsMaps.SetEach(imageMap, uploaded.order, uploaded.values))
  }

  /**
   * A gallery block comes out exactly when at least one of its images uploads; the upload map is
   * keyed only by gallery URLs, each holding the id of the last upload of that URL; and the
   * collection changes only when the gallery has images.
   */
  lemma GalleryUploads(parseHtml: string -> seq<DomNode>, m: Upload.Media, imageMap: JsMaps.JsMap<string, int>, chunk: WPChunk,
                       fetch: string -> Upload.FetchResult, now: nat, lookupFails: bool, createError: Option<string>)
    requires imageMap.Valid()
    ensures var s := GalleryStep(parseHtml, m, imageMap, chunk, fetch, now, lookupFails, createError);
      var urls := GalleryUrls(parseHtml, chunk.html);
      var b := Upload.ProcessAll(m, PendingImages(urls), fetch, now, lookupFails, createError);
      var uploaded := Upload.MapOf(b.refs);
      && (urls == [] ==> s == BlockStep(Failure(NoGalleryImages, []), m, imageMap))
      && (s.result.success <==> exists i :: 0 <= i < |b.refs| && Upload.Mapped(b.refs[i]))
      && (forall k :: k in uploaded.values ==> k in urls)
      && (forall k :: k in uploaded.values ==>
            exists i :: Upload.LastMapped(b.refs, k, i) && b.refs[i].mediaId == Some(uploaded.values[k]))
  {
    var urls := GalleryUrls(parseHtml, chunk.html);
    var b := Upload.ProcessAll(m, PendingImages(urls), fetch, now, lookupFails, createError);
    Upload.MapOfLastWins(b.refs);
    GallerySucceeds(parseHtml, m, imageMap, chunk, fetch, now, lookupFails, createError);
    GalleryKeysAreUrls(m, urls, fetch, now, lookupFails, createError);
  }

  /** The gallery succeeds exactly when some image is uploaded with an id. */
  lemma GallerySucceeds(parseHtml: string -> seq<DomNode>, m: Upload.Media, imageMap: JsMaps.JsMap<string, int>, chunk: WPChunk,
                        fetch: string -> Upload.FetchResult, now: nat, lookupFails: bool, createError: Option<string>)
    requires imageMap.Valid()
    ensures var b := Upload.ProcessAll(m, PendingImages(GalleryUrls(parseHtml, chunk.html)), fetch, now, lookupFails, createError);
      GalleryStep(parseHtml, m, imageMap, chunk, fetch, now, lookupFails, createError).result.success
      <==> exists i :: 0 <= i < |b.refs| && Upload.Mapped(b.refs[i])
  {
    var urls := GalleryUrls(parseHtml, chunk.html);
    var b := Upload.ProcessAll(m, PendingImages(urls), fetch, now, lookupFails, createError);
    Upload.MapOfEmpty(b.refs);
    if urls == [] {
      assert |b.refs| == 0;
    }
  }

  /** Every URL the gallery upload maps is one of the gallery's URLs. */
  lemma GalleryKeysAreUrls(m: Upload.Media, urls: seq<string>, fetch: string -> Upload.FetchResult, now: nat,
                           lookupFails: bool, createError: Option<string>)
    ensures var b := Upload.ProcessAll(m, PendingImages(urls), fetch, now, lookupFails, createError);
      forall k :: k in Upload.MapOf(b.refs).values ==> k in urls
  {
    var b := Upload.ProcessAll(m, PendingImages(urls), fetch, now, lookupFails, createError);
    Upload.MapKeysFromInputs(PendingImages(urls), b.refs);
    forall k | k in Upload.MapOf(b.refs).values ensures k in urls {
      var i :| 0 <= i < |urls| && PendingImages(urls)[i].normalizedSrc == k;
      assert urls[i] == k;
    }
  }

  /** `uploadImages` on a pending reference per gallery URL. */
  method UploadGalleryImages(store: Upload.MediaStore, urls: seq<string>, fetch: string -> Upload.FetchResult, now: nat)
    returns (uploaded: JsMaps.JsMap<string, int>)
    modifies store
    ensures store.lookupFails == old(store.lookupFails) && store.createError == old(store.createError)
    ensures var b := Upload.ProcessAll(Upload.Media(old(store.docs), old(store.nextId)), PendingImages(urls), fetch, now,
                                       old(store.lookupFails), old(store.createError));
      uploaded == Upload.MapOf(b.refs) && Upload.Media(store.docs, store.nextId) == b.media
  {
    var images := new ImageReference[|urls|](k requires 0 <= k < |urls| => PendingImage(urls[k]));
    assert images[..] == PendingImages(urls);
    uploaded := Upload.UploadImages(store, images, fetch, now);
  }

  /**
   * `convertGallery`: uploads every image of the gallery and emits one `galleryBlock` listing the
   * media id of each uploaded URL, copying those entries into the shared image map.
   */
  method ConvertGallery(parseHtml: string -> seq<DomNode>, store: Upload.MediaStore, imageMap: JsMaps.MapObject<string, int>,
                        chunk: WPChunk, fetch: string -> Upload.FetchResult, now: nat)
    returns (r: ConversionResult)
    requires imageMap.contents.Valid()
    modifies store, imageMap
    ensures store.lookupFails == old(store.lookupFails) && store.createError == old(store.createError)
    ensures BlockStep(r, Upload.Media(store.docs, store.nextId), imageMap.contents)
      == GalleryStep(parseHtml, Upload.Media(old(store.docs), old(store.nextId)), old(imageMap.contents), chunk, fetch, now,
                     old(store.lookupFails), old(store.createError))
  {
    var urls := Extract.ExtractGalleryImages(parseHtml, chunk.html);
    assert urls == GalleryUrls(parseHtml, chunk.html);
    if urls == [] {
      return Failure(NoGalleryImages, []);
    }
    var uploaded := UploadGalleryImages(store, urls, fetch, now);
    var galleryImages := uploaded.Values();
    if galleryImages == [] {
      return Failure(GalleryUploadFailed, []);
    }
    imageMap.SetAll(uploaded);
    r := ConversionResult([Cms(GalleryNode(galleryImages, NumberPerRow(chunk.attributes)))], [], [], true);
  }

  // ---------------------------------------------------------------- Video

  const YoutubeAsVideo := "YouTube videos should use youtubeBlock, not videoBlock"
  const NoVideo := "No video URL or ID found"
  const IdOnlyVideo := "Cannot download video: WordPress media ID provided but no URL available"
  const VideoAlt := "Video from WordPress migration"
  const VideoFailurePrefix := "Failed to download/upload video: "
  const VideoUrlNote := "Video URL: "

  /** The `src` of the first `<video>`, when non-empty. */
  function VideoElementSrc(doc: seq<DomNode>): (r: Option<string>)
    ensures r.Some? ==> r.value != []
  {
    match FirstWithTag(doc, "video")
    case None => None
    case Some(v) =>
      match GetAttr(v.attrs, "src")
      case Some(src) => if src != [] then Some(src) else None
      case None => None
  }

  /** The URL `convertVideo` settles on: the `url` attribute, the first `<video>`'s `src`, or http(s) text in the embed wrapper. */
  function VideoUrl(parseHtml: string -> seq<DomNode>, chunk: WPChunk): (r: Option<string>)
    ensures StrAttr(chunk.attributes, "url").Some? ==> r == StrAttr(chunk.attributes, "url")
    ensures r.Some? ==> r.value != []
  {
    match StrAttr(chunk.attributes, "url")
    case Some(url) => Some(url)
    case None =>
      var doc := parseHtml(chunk.html);
      match VideoElementSrc(doc)
      case Some(src) => Some(src)
      case None => WrapperUrl(doc)
  }

  predicate IsYoutubeUrl(url: string) {
    Contains(url, "youtube.com") || Contains(url, "youtu.be")
  }

  /** The warning for a video that has only a WordPress media id. */
  function IdOnlyWarning(id: Json): string {
    "Video ID " + ToText(id) + " is a WordPress media ID, but no URL found. Cannot download video without URL. Skipping video block."
  }

  /** A failed download or upload of the video at `url`. */
  function VideoFailure(url: string, message: string): (r: ConversionResult)
    ensures !r.success && r.nodes == []
  {
    ConversionResult([], [VideoUrlNote + url], [VideoFailurePrefix + message], false)
  }

  /** One `videoBlock` for the uploaded media id, or the failure to upload the video at `url`. */
  function VideoOutcome(url: string, id: Result<int, string>): (r: ConversionResult)
    ensures Shaped(r) && (r.success <==> id.Ok?)
  {
    match id
    case Ok(mediaId) => ConversionResult([Cms(VideoNode(mediaId))], [], [], true)
    case Err(e) => VideoFailure(url, e)
  }

  /**
   * What `convertVideo` reports, given the media collection before the upload: YouTube URLs are
   * refused, an id without a URL is only warned about, and otherwise the downloaded video is
   * uploaded (or an existing document with its file name reused).
   */
  function VideoResult(parseHtml: string -> seq<DomNode>, chunk: WPChunk, fetch: string -> Upload.FetchResult, now: nat,
                       m: Upload.Media, lookupFails: bool, createError: Option<string>): (r: ConversionResult)
    ensures Shaped(r)
  {
    var url := VideoUrl(parseHtml, chunk);
    var id := TruthyAttr(chunk.attributes, "id");
    if url.Some? && IsYoutubeUrl(url.value) then Failure(YoutubeAsVideo, [])
    else if url.None? && id.None? then Failure(NoVideo, [])
    else if url.None? then ConversionResult([], [IdOnlyWarning(id.value)], [IdOnlyVideo], false)
    else match Upload.DownloadMedia(Upload.VideoKind, url.value, fetch, now)
      case Err(e) => VideoFailure(url.value, e)
      case Ok(data) => VideoOutcome(url.value, Upload.UploadOutcome(m.docs, data.filename, lookupFails, createError, m.nextId))
  }

  /** The collection after `convertVideo`: changed only by the upload of a downloaded, non-YouTube video. */
  function VideoMedia(parseHtml: string -> seq<DomNode>, chunk: WPChunk, fetch: string -> Upload.FetchResult, now: nat,
                      m: Upload.Media, lookupFails: bool, createError: Option<string>): (r: Upload.Media)
    ensures m.docs <= r.docs
  {
    var url := VideoUrl(parseHtml, chunk);
    if url.None? || IsYoutubeUrl(url.value) then m
    else match Upload.DownloadMedia(Upload.VideoKind, url.value, fetch, now)
      case Err(_) => m
      case Ok(data) => Upload.MediaAfter(m, data, VideoAlt, lookupFails, createError)
  }

  /**
   * A video block comes out exactly when a URL is found that is not a YouTube link, the download
   * is accepted and the upload yields an id; the block then holds that id. A YouTube URL is
   * refused with its own error.
   */
  lemma VideoSucceeds(parseHtml: string -> seq<DomNode>, chunk: WPChunk, fetch: string -> Upload.FetchResult, now: nat,
                      m: Upload.Media, lookupFails: bool, createError: Option<string>)
    ensures var r := VideoResult(parseHtml, chunk, fetch, now, m, lookupFails, createError);
      var url := VideoUrl(parseHtml, chunk);
      && (url.Some? && IsYoutubeUrl(url.value) ==> r == Failure(YoutubeAsVideo, []))
      && (r.success <==>
            && url.Some? && !IsYoutubeUrl(url.value)
            && Upload.DownloadMedia(Upload.VideoKind, url.value, fetch, now).Ok?
            && Upload.UploadOutcome(m.docs, Upload.DownloadMedia(Upload.VideoKind, url.value, fetch, now).value.filename,
                 lookupFails, createError, m.nextId).Ok?)
      && (r.success ==> r.nodes == [Cms(VideoNode(Upload.UploadOutcome(m.docs,
            Upload.DownloadMedia(Upload.VideoKind, url.value, fetch, now).value.filename, lookupFails, createError, m.nextId).value))])
  {
  }

  /**
   * `convertVideo`: refuses YouTube URLs, needs a URL (an id alone is not enough), then downloads
   * the video and uploads it, emitting one `videoBlock` with the media id.
   */
  method ConvertVideo(parseHtml: string -> seq<DomNode>, store: Upload.MediaStore, chunk: WPChunk,
                      fetch: string -> Upload.FetchResult, now: nat)
    returns (r: ConversionResult)
    modifies store
    ensures store.lookupFails == old(store.lookupFails) && store.createError == old(store.createError)
    ensures r == VideoResult(parseHtml, chunk, fetch, now, Upload.Media(old(store.docs), old(store.nextId)),
                             old(store.lookupFails), old(store.createError))
    ensures Upload.Media(store.docs, store.nextId) == VideoMedia(parseHtml, chunk, fetch, now, Upload.Media(old(store.docs), old(store.nextId)),
                                                                 old(store.lookupFails), old(store.createError))
  {
    var videoUrl := VideoUrl(parseHtml, chunk);
    var videoId := TruthyAttr(chunk.attributes, "id");
    if videoUrl.Some? && IsYoutubeUrl(videoUrl.value) {
      return Failure(YoutubeAsVideo, []);
    }
    if videoUrl.None? && videoId.None? {
      return Failure(NoVideo, []);
    }
    if videoUrl.Some? {
      var download := Upload.DownloadMedia(Upload.VideoKind, videoUrl.value, fetch, now);
      if download.Err? {
        return VideoFailure(videoUrl.value, download.error);
      }
      var mediaId := store.UploadMedia(download.value, VideoAlt);
      return VideoOutcome(videoUrl.value, mediaId);
    }
    r := ConversionResult([], [IdOnlyWarning(videoId.value)], [IdOnlyVideo], false);
  }

  // ---------------------------------------------------------------- Columns

  const ColumnClass := "wp-block-column"
  const NoColumns := "No columns found in columns block"
  const MaxColumns := 6

  /** What one column becomes: its content root and a warning, or the error that aborts the block. */
  datatype ColumnOutcome = ColumnDone(root: Root, warning: Option<string>) | ColumnFailed(error: string)

  /** The HTML of a column (`innerHTML`). */
  function ColumnHtml(env: Collaborators, col: DomNode): string
    requires col.Element?
  {
    env.serializeHtml(col.children)
  }

  /**
   * One column: its HTML is converted to Lexical and merged; a failed or empty conversion gives an
   * empty root and a warning; a node the merge cannot classify aborts the block with its error.
   */
  function ColumnOf(env: Collaborators, imageMap: JsMaps.JsMap<string, int>, col: DomNode, index: nat): (o: ColumnOutcome)
    requires col.Element?
    ensures o.ColumnDone? ==> MergeLexical.ValidateMergedStructure(Merged(o.root, None))
    ensures o.ColumnDone? && o.warning.Some? ==> o.root == MergeLexical.EmptyRoot
  {
    var converted := Lexical.LexicalResult(ColumnHtml(env, col), imageMap, env.parseHtml, env.serializeHtml, env.converter, env.generated);
    if !converted.success || converted.nodes == [] then
      ColumnDone(MergeLexical.EmptyRoot,
                 Some("Column " + NatToString(index + 1) + " conversion had issues: " + Join(converted.errors, ", ")))
    else match MergeLexical.MergeNodesPreservingOrder(converted.nodes, env.blockId)
      case Err(e) => ColumnFailed(e)
      case Ok(merged) => ColumnDone(merged.root, None)
  }

  /** The columns converted so far: their roots and warnings, or the first error. */
  datatype Columns = Columns(roots: seq<Root>, warnings: seq<string>, error: Option<string>)

  /** One more column added to those converted so far: its root and warning, or its error. */
  function Extend(prev: Columns, o: ColumnOutcome): (c: Columns)
    ensures o.ColumnDone? ==> c.roots == prev.roots + [o.root] && c.error == prev.error
    ensures o.ColumnFailed? ==> c.roots == prev.roots && c.error == Some(o.error)
  {
    match o
    case ColumnFailed(e) => prev.(error := Some(e))
    case ColumnDone(root, w) => Columns(prev.roots + [root], prev.warnings + (if w.Some? then [w.value] else []), prev.error)
  }

  /** The column outcomes `os` gathered in order, stopping at the first error. */
  function Collect(os: seq<ColumnOutcome>): (c: Columns)
    ensures c.error.None? ==> |c.roots| == |os|
  {
    if os == [] then Columns([], [], None)
    else
      var prev := Collect(Seqs.Init(os));
      if prev.error.Some? then prev else Extend(prev, os[|os| - 1])
  }

  /** What each column of `cols` becomes, the k-th converted as column k. */
  function ColumnOutcomes(env: Collaborators, imageMap: JsMaps.JsMap<string, int>, cols: seq<DomNode>): (os: seq<ColumnOutcome>)
    requires forall k :: 0 <= k < |cols| ==> cols[k].Element?
    ensures |os| == |cols|
    ensures forall k :: 0 <= k < |os| && os[k].ColumnDone? ==> MergeLexical.ValidateMergedStructure(Merged(os[k].root, None))
  {
    seq(|cols|, k requires 0 <= k < |cols| => ColumnOf(env, imageMap, cols[k], k))
  }

  /** Gathering the next outcome after a run without errors extends the run by that outcome. */
  lemma CollectStep(os: seq<ColumnOutcome>, index: nat)
    requires index < |os| && Collect(os[..index]).error.None?
    ensures Collect(os[..index + 1]) == Extend(Collect(os[..index]), os[index])
  {
    Seqs.InitOfSnoc(os[..index], os[index]);
    assert os[..index + 1] == os[..index] + [os[index]];
  }

  /** Once a column has failed, the later columns change nothing. */
  lemma {:induction false} FailedColumnStays(os: seq<ColumnOutcome>, n: nat)
    requires n <= |os| && Collect(os[..n]).error.Some?
    ensures Collect(os) == Collect(os[..n])
    decreases |os| - n
  {
    if n < |os| {
      Seqs.InitOfSnoc(os[..n], os[n]);
      assert os[..n + 1] == os[..n] + [os[n]];
      FailedColumnStays(os, n + 1);
    } else {
      assert os[..n] == os;
    }
  }

  /** Every root of `roots` passes `validateMergedStructure`. */
  predicate RootsValid(roots: seq<Root>) {
    forall k :: 0 <= k < |roots| ==> MergeLexical.ValidateMergedStructure(Merged(roots[k], None))
  }

  /** When every converted column gave a valid root, so does every root gathered from them. */
  lemma {:induction false} CollectValid(os: seq<ColumnOutcome>)
    requires forall k :: 0 <= k < |os| && os[k].ColumnDone? ==> MergeLexical.ValidateMergedStructure(Merged(os[k].root, None))
    ensures RootsValid(Collect(os).roots)
  {
    if os != [] {
      var init := Seqs.Init(os);
      var last := os[|os| - 1];
      assert forall k :: 0 <= k < |init| ==> init[k] == os[k];
      CollectValid(init);
      var prev := Collect(init);
      assert RootsValid(prev.roots);
      if prev.error.None? {
        var c := Extend(prev, last);
        assert Collect(os) == c;
        if last.ColumnDone? {
          assert c.roots == prev.roots + [last.root];
          assert MergeLexical.ValidateMergedStructure(Merged(last.root, None));
        }
      }
    }
  }

  /**
   * `Math.min(attributes.columns || number of columns, 6)`: a truthy `columns` attribute
   * goes through `Number`, so text that is no number gives `NaN` (`None`).
   */
  function ColumnCount(attrs: Option<Attrs>, found: nat): (n: Option<int>)
    ensures n.Some? ==> n.value <= MaxColumns
    ensures TruthyAttr(attrs, "columns").None? ==> n == Some(if found < MaxColumns then found else MaxColumns)
    ensures TruthyAttr(attrs, "columns").Some? ==>
              n == (match NumberValue(TruthyAttr(attrs, "columns").value)
                    case Some(w) => Some(if w < MaxColumns then w else MaxColumns)
                    case None => None)
  {
    var wanted := match TruthyAttr(attrs, "columns")
      case Some(v) => NumberValue(v)
      case None => Some(found);
    match wanted
    case Some(w) => Some(if w < MaxColumns then w else MaxColumns)
    case None => None
  }

  /** A numeric `columns` attribute, or one written as decimal text, is capped at six; without one the columns found are. */
  lemma ColumnCountOf(n: int, found: nat)
    ensures n != 0 ==> ColumnCount(Some(map["columns" := JNum(n)]), found) == Some(if n < MaxColumns then n else MaxColumns)
    ensures n != 0 ==> ColumnCount(Some(map["columns" := JStr(IntToString(n))]), found) == Some(if n < MaxColumns then n else MaxColumns)
    ensures ColumnCount(Some(map["columns" := JNum(0)]), found) == Some(if found < MaxColumns then found else MaxColumns)
  {
    NumberValueOfNumber(n);
  }

  /** What `convertColumns` reports for a chunk. */
  function ColumnsResult(env: Collaborators, imageMap: JsMaps.JsMap<string, int>, chunk: WPChunk): ConversionResult {
    var cols := WithClass(Elements(env.parseHtml(chunk.html)), ColumnClass);
    if cols == [] then Failure(NoColumns, [])
    else
      var c := Collect(ColumnOutcomes(env, imageMap, cols));
      if c.error.Some? then Failure(c.error.value, c.warnings)
      else ConversionResult([Cms(ColumnsNode(c.roots, ColumnCount(chunk.attributes, |cols|)))], c.warnings, [], true)
  }

  /** One column of `convertColumns`: its HTML converted to Lexical, then merged into one root. */
  method ConvertColumn(env: Collaborators, imageMap: JsMaps.JsMap<string, int>, col: DomNode, index: nat) returns (o: ColumnOutcome)
    requires col.Element?
    ensures o == ColumnOf(env, imageMap, col, index)
    ensures o.ColumnDone? ==> MergeLexical.ValidateMergedStructure(Merged(o.root, None))
    ensures o.ColumnDone? && o.warning.Some? ==> o.root == MergeLexical.EmptyRoot
  {
    var columnChunk := WPChunk("paragraph", ColumnHtml(env, col), Some(map[]), None, index);
    var conversion := Lexical.ConvertToLexical(columnChunk, imageMap, env.parseHtml, env.serializeHtml, env.converter, env.generated);
    if !conversion.success || conversion.nodes == [] {
      return ColumnDone(MergeLexical.EmptyRoot,
                        Some("Column " + NatToString(index + 1) + " conversion had issues: " + Join(conversion.errors, ", ")));
    }
    var merged := MergeLexical.MergeNodesPreservingOrder(conversion.nodes, env.blockId);
    if merged.Err? {
      return ColumnFailed(merged.error);
    }
    o := ColumnDone(merged.value.root, None);
  }

  /** One turn of the `convertColumns` loop: the next column converted and gathered, or the error that ends the loop. */
  method NextColumn(env: Collaborators, imageMap: JsMaps.JsMap<string, int>, cols: seq<DomNode>, index: nat,
                    columns: seq<Root>, warnings: seq<string>, ghost os: seq<ColumnOutcome>)
    returns (failed: Option<string>, columns': seq<Root>, warnings': seq<string>)
    requires index < |cols| && cols[index].Element? && |os| == |cols|
    requires os[index] == ColumnOf(env, imageMap, cols[index], index)
    requires Collect(os[..index]) == Columns(columns, warnings, None)
    ensures failed.Some? ==> Collect(os) == Columns(columns', warnings', failed)
    ensures failed.None? ==> Collect(os[..index + 1]) == Columns(columns', warnings', None)
  {
    var outcome := ConvertColumn(env, imageMap, cols[index], index);
    CollectStep(os, index);
    if outcome.ColumnFailed? {
      FailedColumnStays(os, index + 1);
      return Some(outcome.error), columns, warnings;
    }
    failed, columns', warnings' := None, columns + [outcome.root], warnings;
    if outcome.warning.Some? {
      warnings' := warnings + [outcome.warning.value];
    }
  }

  /** `convertColumns`: converts each `.wp-block-column` in order and emits one `columnsBlock`. */
  method ConvertColumns(env: Collaborators, imageMap: JsMaps.JsMap<string, int>, chunk: WPChunk) returns (r: ConversionResult)
    ensures r == ColumnsResult(env, imageMap, chunk)
  {
    var cols := WithClass(Elements(env.parseHtml(chunk.html)), ColumnClass);
    if cols == [] {
      return Failure(NoColumns, []);
    }
    ghost var os := ColumnOutcomes(env, imageMap, cols);
    var columns: seq<Root> := [];
    var warnings: seq<string> := [];
    var index := 0;
    while index < |cols|
      invariant 0 <= index <= |cols|
      invariant Collect(os[..index]) == Columns(columns, warnings, None)
    {
      assert cols[index] in cols;
      assert os[index] == ColumnOf(env, imageMap, cols[index], index);
      var failed;
      failed, columns, warnings := NextColumn(env, imageMap, cols, index, columns, warnings, os);
      if failed.Some? {
        return Failure(failed.value, warnings);
      }
      index := index + 1;
    }
    assert os[..index] == os;
    r := ConversionResult([Cms(ColumnsNode(columns, ColumnCount(chunk.attributes, |cols|)))], warnings, [], true);
  }

  /** A successful columns block has one content root per column, in order, each a valid root, and at most six columns. */
  lemma ColumnsShape(env: Collaborators, imageMap: JsMaps.JsMap<string, int>, chunk: WPChunk)
    ensures var r := ColumnsResult(env, imageMap, chunk);
      var cols := WithClass(Elements(env.parseHtml(chunk.html)), ColumnClass);
      (cols == [] ==> r == Failure(NoColumns, []))
      && (!r.success ==> r.nodes == [])
      && (r.success ==>
            |r.nodes| == 1 && r.nodes[0].Cms? && r.nodes[0].block.ColumnsNode?
            && |r.nodes[0].block.columns| == |cols|
            && (r.nodes[0].block.columnCount.Some? ==> r.nodes[0].block.columnCount.value <= MaxColumns)
            && RootsValid(r.nodes[0].block.columns))
  {
    var cols := WithClass(Elements(env.parseHtml(chunk.html)), ColumnClass);
    if cols != [] {
      CollectValid(ColumnOutcomes(env, imageMap, cols));
    }
  }

  // ---------------------------------------------------------------- Router

  /** The result for a block type no converter handles. */
  function Unsupported(typ: string): (r: ConversionResult)
    ensures !r.success && r.nodes == [] && |r.warnings| == 1 && |r.errors| == 1
  {
    ConversionResult([], ["No converter found for block type: " + typ], ["Unsupported block type: " + typ], false)
  }

  /** The converters that upload nothing, chosen by the block's CMS kind. */
  method ConvertWithoutUploads(env: Collaborators, imageMap: JsMaps.JsMap<string, int>, chunk: WPChunk,
                               mapping: Option<Constants.CmsBlock>)
    returns (r: ConversionResult)
    requires mapping != Some(Constants.GalleryBlock) && mapping != Some(Constants.VideoBlock)
    ensures Shaped(r)
    ensures mapping == Some(Constants.YoutubeBlock) ==> r == ConvertYouTube(chunk)
    ensures mapping == Some(Constants.VideopressBlock) ==> r == ConvertVideopress(env.parseHtml, chunk)
    ensures mapping == Some(Constants.ButtonBlock) ==> r == ButtonResult(env.parseHtml(chunk.html), chunk)
    ensures mapping == Some(Constants.ColumnsBlock) ==> r == ColumnsResult(env, imageMap, chunk)
    ensures mapping.None? || mapping == Some(Constants.MediaBlock) || mapping == Some(Constants.Banner) ==> r == Unsupported(chunk.typ)
  {
    if mapping == Some(Constants.YoutubeBlock) {
      r := ConvertYouTube(chunk);
      assert Shaped(r);
    } else if mapping == Some(Constants.VideopressBlock) {
      r := ConvertVideopress(env.parseHtml, chunk);
      assert Shaped(r);
    } else if mapping == Some(Constants.ButtonBlock) {
      r := ConvertButton(env.parseHtml, chunk);
      ButtonsPerLink(env.parseHtml(chunk.html), chunk);
      assert Shaped(r);
    } else if mapping == Some(Constants.ColumnsBlock) {
      r := ConvertColumns(env, imageMap, chunk);
      ColumnsShape(env, imageMap, chunk);
      assert Shaped(r);
    } else {
      r := Unsupported(chunk.typ);
    }
  }

  /**
   * What `convertUnsupportedBlock` does against the collection `m` and the shared map `imageMap`:
   * galleries and videos upload their media, the other mapped kinds convert without uploading, and
   * a type mapped to no converter (or to none at all) is reported as unsupported.
   */
  function BlockOf(env: Collaborators, m: Upload.Media, imageMap: JsMaps.JsMap<string, int>, chunk: WPChunk,
                   fetch: string -> Upload.FetchResult, now: nat, lookupFails: bool, createError: Option<string>): (s: BlockStep)
    requires imageMap.Valid()
    ensures s.imageMap.Valid()
    ensures Registry.GetCmsBlockMapping(chunk.typ) != Some(Constants.GalleryBlock) ==> s.imageMap == imageMap
    ensures Registry.GetCmsBlockMapping(chunk.typ) !in {Some(Constants.GalleryBlock), Some(Constants.VideoBlock)} ==> s.media == m
  {
    match Registry.GetCmsBlockMapping(chunk.typ)
    case Some(GalleryBlock) => GalleryStep(env.parseHtml, m, imageMap, chunk, fetch, now, lookupFails, createError)
    case Some(VideoBlock) =>
      BlockStep(VideoResult(env.parseHtml, chunk, fetch, now, m, lookupFails, createError),
                VideoMedia(env.parseHtml, chunk, fetch, now, m, lookupFails, createError), imageMap)
    case Some(YoutubeBlock) => BlockStep(ConvertYouTube(chunk), m, imageMap)
    case Some(VideopressBlock) => BlockStep(ConvertVideopress(env.parseHtml, chunk), m, imageMap)
    case Some(ButtonBlock) => BlockStep(ButtonResult(env.parseHtml(chunk.html), chunk), m, imageMap)
    case Some(ColumnsBlock) => BlockStep(ColumnsResult(env, imageMap, chunk), m, imageMap)
    case _ => BlockStep(Unsupported(chunk.typ), m, imageMap)
  }

  /** Whichever converter runs, its result is well shaped. */
  lemma BlockShaped(env: Collaborators, m: Upload.Media, imageMap: JsMaps.JsMap<string, int>, chunk: WPChunk,
                    fetch: string -> Upload.FetchResult, now: nat, lookupFails: bool, createError: Option<string>)
    requires imageMap.Valid()
    ensures Shaped(BlockOf(env, m, imageMap, chunk, fetch, now, lookupFails, createError).result)
  {
    match Registry.GetCmsBlockMapping(chunk.typ)
    case Some(ButtonBlock) => ButtonsPerLink(env.parseHtml(chunk.html), chunk);
    case Some(ColumnsBlock) => ColumnsShape(env, imageMap, chunk);
    case _ =>
  }

  /** `convertUnsupportedBlock`: dispatches on the block's CMS mapping. */
  method ConvertUnsupportedBlock(env: Collaborators, store: Upload.MediaStore, imageMap: JsMaps.MapObject<string, int>,
                                 chunk: WPChunk, fetch: string -> Upload.FetchResult, now: nat)
    returns (r: ConversionResult)
    requires imageMap.contents.Valid()
    modifies store, imageMap
    ensures store.lookupFails == old(store.lookupFails) && store.createError == old(store.createError)
    ensures BlockStep(r, Upload.Media(store.docs, store.nextId), imageMap.contents)
      == BlockOf(env, Upload.Media(old(store.docs), old(store.nextId)), old(imageMap.contents), chunk, fetch, now,
                 old(store.lookupFails), old(store.createError))
    ensures Shaped(r)
    ensures !Registry.HasCmsBlockMapping(chunk.typ) ==> r == Unsupported(chunk.typ)
  {
    var mapping := Registry.GetCmsBlockMapping(chunk.typ);
    if mapping == Some(Constants.GalleryBlock) {
      r := ConvertGallery(env.parseHtml, store, imageMap, chunk, fetch, now);
    } else if mapping == Some(Constants.VideoBlock) {
      r := ConvertVideo(env.parseHtml, store, chunk, fetch, now);
    } else {
      r := ConvertWithoutUploads(env, imageMap.contents, chunk, mapping);
    }
    BlockShaped(env, Upload.Media(old(store.docs), old(store.nextId)), old(imageMap.contents), chunk, fetch, now,
                old(store.lookupFails), old(store.createError));
  }
}
