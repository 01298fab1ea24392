/**
 * The older one-file converter used by the first post migration: images are
 * extracted without de-duplication, downloaded and uploaded one after another
 * with failures skipped, an existing media document is reused even when its id
 * is 0, and HTML holding a table is replaced wholesale by its first table.
 */
module LegacyHelper {
  import opened Wrappers
  import opened Strings
  import opened Json
  import opened Dom
  import opened Types
  import Seqs
  import JsMaps
  import Urls
  import Upload
  import Extract
  import Lexical

  // ----- extractImagesFromHTML -----

  /** An image as the legacy extraction reports it: its normalised `src` and its alt text. */
  datatype LegacyImage = LegacyImage(src: string, alt: string)

  /** The entries of a list of `<img>` elements: one per element with a non-empty `src`, in order. */
  function ImagesOf(imgs: seq<DomNode>): (images: seq<LegacyImage>)
    requires forall k :: 0 <= k < |imgs| ==> imgs[k].Element?
    ensures |images| <= |imgs|
  {
    if imgs == [] then [] else ImageOf(imgs[0]) + ImagesOf(imgs[1..])
  }

  /** The entry one `<img>` element yields: none without a non-empty `src`. */
  function ImageOf(img: DomNode): (images: seq<LegacyImage>)
    requires img.Element?
  {
    var src := GetAttr(img.attrs, "src");
    if src.Some? && src.value != [] then [LegacyImage(Upload.NormalizeImageUrl(src.value), GetAttr(img.attrs, "alt").GetOr(""))] else []
  }

  /** Reading the entries distributes over the elements, so they come out in document order. */
  lemma {:induction false} ImagesOfAppend(a: seq<DomNode>, b: seq<DomNode>)
    requires forall k :: 0 <= k < |a| ==> a[k].Element?
    requires forall k :: 0 <= k < |b| ==> b[k].Element?
    ensures ImagesOf(a + b) == ImagesOf(a) + ImagesOf(b)
  {
    if a == [] {
      assert a + b == b;
    } else {
      var ab := a + b;
      assert ab[0] == a[0] && ab[1..] == a[1..] + b;
      assert ImagesOf(ab) == ImageOf(a[0]) + ImagesOf(a[1..] + b);
      ImagesOfAppend(a[1..], b);
    }
  }

  /** One more element adds its entry, if it has one, at the end. */
  lemma ImagesOfSnoc(imgs: seq<DomNode>, k: nat)
    requires k < |imgs|
    requires forall i :: 0 <= i < |imgs| ==> imgs[i].Element?
    ensures var src := GetAttr(imgs[k].attrs, "src");
      ImagesOf(imgs[..k + 1]) == ImagesOf(imgs[..k])
        + (if src.Some? && src.value != [] then [LegacyImage(Upload.NormalizeImageUrl(src.value), GetAttr(imgs[k].attrs, "alt").GetOr(""))] else [])
  {
    assert imgs[..k + 1] == imgs[..k] + [imgs[k]];
    ImagesOfAppend(imgs[..k], [imgs[k]]);
    assert [imgs[k]][1..] == [];
  }

  /** `extractImagesFromHTML`: every `<img>` with a non-empty `src`, in document order. */
  method ExtractImagesFromHtml(parseHtml: string -> seq<DomNode>, html: string) returns (images: seq<LegacyImage>)
    ensures images == ImagesOf(Extract.Imgs(parseHtml(html)))
  {
    var imgs := Extract.Imgs(parseHtml(html));
    images := [];
    for k := 0 to |imgs|
      invariant images == ImagesOf(imgs[..k])
    {
      var src := GetAttr(imgs[k].attrs, "src");
      var alt := GetAttr(imgs[k].attrs, "alt").GetOr("");
      ImagesOfSnoc(imgs, k);
      if src.Some? && src.value != [] {
        images := images + [LegacyImage(Upload.NormalizeImageUrl(src.value), alt)];
      }
    }
    assert imgs[..|imgs|] == imgs;
  }

  /** What the legacy extraction keeps of a reference: its normalised source and its alt text. */
  function AsLegacy(r: ImageReference): LegacyImage {
    LegacyImage(r.normalizedSrc, r.alt)
  }

  /** The legacy extraction reports exactly the references the current one finds, in the same
      order, keeping its normalised source and alt text; it merely does not de-duplicate them. */
  lemma {:induction false} ImagesMatchReferences(imgs: seq<DomNode>)
    requires forall k :: 0 <= k < |imgs| ==> imgs[k].Element?
    ensures ImagesOf(imgs) == Seqs.Map(Extract.ImageRefs(imgs), AsLegacy)
  {
    if imgs != [] {
      var rest := imgs[1..];
      ImagesMatchReferences(rest);
      var r := Extract.ImageRefOf(imgs[0]);
      var head := if r.Some? then [r.value] else [];
      assert Extract.ImageRefs(imgs) == head + Extract.ImageRefs(rest);
      Seqs.MapAppend(head, Extract.ImageRefs(rest), AsLegacy);
      assert Seqs.Map(head, AsLegacy) == ImageOf(imgs[0]);
    }
  }

  /** The same image twice is reported twice. */
  lemma DuplicatesKept(img: DomNode)
    requires img.Element? && GetAttr(img.attrs, "src").Some? && GetAttr(img.attrs, "src").value != []
    ensures |ImagesOf([img, img])| == 2
  {
    assert [img, img][1..] == [img];
    assert [img][1..] == [];
  }

  // ----- downloadImage -----

  /**
   * `downloadImage`: fetch the normalised URL; a network failure or a response that is not ok
   * fails, and anything else is accepted whatever its type and size. The file name is the last
   * path segment, else `image-<now>.jpg`; the type is the header, else `image/jpeg`.
   */
  function Download(url: string, fetch: string -> Upload.FetchResult, now: nat): (r: Result<Upload.MediaData, string>)
    ensures r.Ok? ==> r.value.filename != []
  {
    var normalized := Upload.NormalizeImageUrl(url);
    match fetch(normalized)
    case NetworkError(m) => Err(m)
    case Response(ok, _, statusText, header, size) =>
      if !ok then Err("Failed to download image: " + statusText)
      else match Urls.ParseUrl(normalized)
        case None => Err("Invalid URL")
        case Some(u) =>
          Ok(Upload.MediaData(Upload.FileNameOf(Upload.ImageKind, u.path, now), Upload.ContentType(Upload.ImageKind, header), size))
  }

  /** Every download the current pipeline accepts, the legacy one accepts with the same data;
      the legacy one succeeds exactly on an ok response for a parseable URL. */
  lemma DownloadAcceptsMore(url: string, fetch: string -> Upload.FetchResult, now: nat)
    ensures var resp := fetch(Upload.NormalizeImageUrl(url));
      Download(url, fetch, now).Ok? <==> resp.Response? && resp.ok && Urls.ParseUrl(Upload.NormalizeImageUrl(url)).Some?
    ensures Upload.DownloadMedia(Upload.ImageKind, url, fetch, now).Ok? ==>
      Download(url, fetch, now) == Upload.DownloadMedia(Upload.ImageKind, url, fetch, now)
  {
  }

  // ----- uploadImageToPayload -----

  /**
   * What the legacy upload reports: the id of an existing document with the file name whenever
   * it is a number, 0 included; otherwise the create error, or the id handed out next.
   */
  function UploadOutcome(docs: seq<Upload.MediaDoc>, filename: string, lookupFails: bool,
                         createError: Option<string>, nextId: nat): Result<int, string>
  {
    var existing := Upload.CheckExisting(docs, filename, lookupFails);
    if existing.Some? then Ok(existing.value)
    else if createError.Some? then Err(createError.value)
    else Ok(nextId)
  }

  /** A document whose id is 0 is reused by the legacy upload, where the current pipeline
      ignores it and creates a new document. */
  lemma ReusesIdZero(docs: seq<Upload.MediaDoc>, filename: string, lookupFails: bool,
                     createError: Option<string>, nextId: nat)
    requires Upload.CheckExisting(docs, filename, lookupFails) == Some(0)
    ensures UploadOutcome(docs, filename, lookupFails, createError, nextId) == Ok(0)
    ensures Upload.UploadOutcome(docs, filename, lookupFails, createError, nextId)
      == if createError.Some? then Err(createError.value) else Ok(nextId)
  {
  }

  /** Apart from an existing id of 0, the two uploads report the same outcome. */
  lemma AgreesWithCurrent(docs: seq<Upload.MediaDoc>, filename: string, lookupFails: bool,
                          createError: Option<string>, nextId: nat)
    requires Upload.CheckExisting(docs, filename, lookupFails) != Some(0)
    ensures UploadOutcome(docs, filename, lookupFails, createError, nextId)
      == Upload.UploadOutcome(docs, filename, lookupFails, createError, nextId)
  {
  }

  /** The collection after an upload: a created document is appended and the next id advances;
      a reused document or a failed create leaves it as it was. */
  function MediaAfter(m: Upload.Media, data: Upload.MediaData, alt: string, lookupFails: bool, createError: Option<string>): (r: Upload.Media)
    ensures m.docs <= r.docs
  {
    if Upload.CheckExisting(m.docs, data.filename, lookupFails).Some? || createError.Some? then m
    else Upload.Media(m.docs + [Upload.NewDoc(m.nextId, data, alt)], m.nextId + 1)
  }

  /** `id` is the number of some document of the collection. */
  ghost predicate Names(docs: seq<Upload.MediaDoc>, id: int) {
    exists j :: 0 <= j < |docs| && Upload.DocNumber(docs[j].id) == Some(id)
  }

  /** A successful upload reports the number of a document that is in the collection afterwards. */
  lemma UploadedIdIsStored(m: Upload.Media, data: Upload.MediaData, alt: string, lookupFails: bool, createError: Option<string>)
    requires UploadOutcome(m.docs, data.filename, lookupFails, createError, m.nextId).Ok?
    ensures Names(MediaAfter(m, data, alt, lookupFails, createError).docs,
                  UploadOutcome(m.docs, data.filename, lookupFails, createError, m.nextId).value)
  {
    var after := MediaAfter(m, data, alt, lookupFails, createError);
    if Upload.CheckExisting(m.docs, data.filename, lookupFails).None? {
      assert Upload.DocNumber(after.docs[|m.docs|].id) == Some(m.nextId);
    }
  }

  /** `uploadImageToPayload` against the media collection. */
  method UploadImageToPayload(store: Upload.MediaStore, data: Upload.MediaData, alt: string) returns (r: Result<int, string>)
    modifies store
    ensures store.lookupFails == old(store.lookupFails) && store.createError == old(store.createError)
    ensures r == UploadOutcome(old(store.docs), data.filename, old(store.lookupFails), old(store.createError), old(store.nextId))
    ensures Upload.Media(store.docs, store.nextId)
      == MediaAfter(Upload.Media(old(store.docs), old(store.nextId)), data, alt, old(store.lookupFails), old(store.createError))
  {
    var existing := store.CheckExistingMedia(data.filename);
    if existing.Some? {
      return Ok(existing.value);
    }
    if store.createError.Some? {
      return Err(store.createError.value);
    }
    store.docs := store.docs + [Upload.NewDoc(store.nextId, data, alt)];
    r := Ok(store.nextId);
    store.nextId := store.nextId + 1;
  }

  // ----- the image loop of htmlToLexicalContent -----

  /** The collection and the map from image `src` to media id, as the loop leaves them. */
  datatype Batch = Batch(media: Upload.Media, imageMap: JsMaps.JsMap<string, int>)

  /** One image: downloaded, uploaded and recorded under its `src`; a failure at either step
      is skipped and leaves everything as it was. */
  function ProcessImage(b: Batch, image: LegacyImage, fetch: string -> Upload.FetchResult, now: nat,
                        lookupFails: bool, createError: Option<string>): (r: Batch)
    requires b.imageMap.Valid()
    ensures r.imageMap.Valid()
  {
    match Download(image.src, fetch, now)
    case Err(_) => b
    case Ok(data) =>
      match UploadOutcome(b.media.docs, data.filename, lookupFails, createError, b.media.nextId)
      case Err(_) => b
      case Ok(id) => Batch(MediaAfter(b.media, data, image.alt, lookupFails, createError), b.imageMap.Set(image.src, id))
  }

  /** The images processed one after another, starting from `start`. */
  function ProcessAll(images: seq<LegacyImage>, start: Batch, fetch: string -> Upload.FetchResult, now: nat,
                      lookupFails: bool, createError: Option<string>): (r: Batch)
    requires start.imageMap.Valid()
    ensures r.imageMap.Valid()
  {
    if images == [] then start
    else ProcessImage(ProcessAll(Seqs.Init(images), start, fetch, now, lookupFails, createError),
                      images[|images| - 1], fetch, now, lookupFails, createError)
  }

  /** `imageMap.set(image.src, …)` under every key that is set. */
  function SrcsOf(images: seq<LegacyImage>): (r: set<string>)
    ensures forall i :: 0 <= i < |images| ==> images[i].src in r
    ensures forall s :: s in r ==> exists i :: 0 <= i < |images| && images[i].src == s
  {
    set i | 0 <= i < |images| :: images[i].src
  }

  /** The keys of one more image: the earlier ones and its own `src`. */
  lemma SrcsOfSnoc(images: seq<LegacyImage>)
    requires images != []
    ensures SrcsOf(images) == SrcsOf(Seqs.Init(images)) + {images[|images| - 1].src}
  {
    var init := Seqs.Init(images);
    assert forall i :: 0 <= i < |init| ==> init[i] == images[i];
  }

  /** One image keeps the map's keys among the `src`s seen and its ids naming stored documents. */
  lemma ProcessImageRecords(b: Batch, image: LegacyImage, fetch: string -> Upload.FetchResult, now: nat,
                            lookupFails: bool, createError: Option<string>, srcs: set<string>)
    requires b.imageMap.Valid()
    requires forall k :: k in b.imageMap.values ==> k in srcs && Names(b.media.docs, b.imageMap.values[k])
    ensures var r := ProcessImage(b, image, fetch, now, lookupFails, createError);
      && b.media.docs <= r.media.docs
      && (forall k :: k in r.imageMap.values ==> k in srcs + {image.src} && Names(r.media.docs, r.imageMap.values[k]))
  {
    var r := ProcessImage(b, image, fetch, now, lookupFails, createError);
    if Download(image.src, fetch, now).Ok? {
      var data := Download(image.src, fetch, now).value;
      if UploadOutcome(b.media.docs, data.filename, lookupFails, createError, b.media.nextId).Ok? {
        UploadedIdIsStored(b.media, data, image.alt, lookupFails, createError);
        forall k | k in r.imageMap.values
          ensures k in srcs + {image.src} && Names(r.media.docs, r.imageMap.values[k])
        {
          if k != image.src {
            var j :| 0 <= j < |b.media.docs| && Upload.DocNumber(b.media.docs[j].id) == Some(b.imageMap.values[k]);
            assert r.media.docs[j] == b.media.docs[j];
          }
        }
      }
    }
  }

  /** Every key of the map is the `src` of one of the images, and every id it holds names a
      document of the collection; the collection only grows. */
  lemma {:induction false} ProcessAllRecords(images: seq<LegacyImage>, start: Batch, fetch: string -> Upload.FetchResult, now: nat,
                                              lookupFails: bool, createError: Option<string>)
    requires start.imageMap == JsMaps.Empty()
    ensures var r := ProcessAll(images, start, fetch, now, lookupFails, createError);
      && start.media.docs <= r.media.docs
      && (forall k :: k in r.imageMap.values ==> k in SrcsOf(images) && Names(r.media.docs, r.imageMap.values[k]))
  {
    if images != [] {
      var init := Seqs.Init(images);
      var b := ProcessAll(init, start, fetch, now, lookupFails, createError);
      ProcessAllRecords(init, start, fetch, now, lookupFails, createError);
      SrcsOfSnoc(images);
      ProcessImageRecords(b, images[|images| - 1], fetch, now, lookupFails, createError, SrcsOf(init));
    }
  }

  /** When no image can be downloaded, the loop uploads nothing and maps nothing. */
  lemma {:induction false} NothingDownloaded(images: seq<LegacyImage>, start: Batch, fetch: string -> Upload.FetchResult, now: nat,
                                             lookupFails: bool, createError: Option<string>)
    requires start.imageMap.Valid()
    requires forall i :: 0 <= i < |images| ==> Download(images[i].src, fetch, now).Err?
    ensures ProcessAll(images, start, fetch, now, lookupFails, createError) == start
  {
    if images != [] {
      NothingDownloaded(Seqs.Init(images), start, fetch, now, lookupFails, createError);
    }
  }

  /** The loop of `htmlToLexicalContent` over the extracted images. */
  method ProcessImages(store: Upload.MediaStore, images: seq<LegacyImage>, fetch: string -> Upload.FetchResult, now: nat)
    returns (imageMap: JsMaps.JsMap<string, int>)
    modifies store
    ensures store.lookupFails == old(store.lookupFails) && store.createError == old(store.createError)
    ensures Batch(Upload.Media(store.docs, store.nextId), imageMap)
      == ProcessAll(images, Batch(Upload.Media(old(store.docs), old(store.nextId)), JsMaps.Empty()), fetch, now,
                    store.lookupFails, store.createError)
  {
    ghost var start := Batch(Upload.Media(store.docs, store.nextId), JsMaps.Empty());
    imageMap := JsMaps.Empty();
    for i := 0 to |images|
      invariant store.lookupFails == old(store.lookupFails) && store.createError == old(store.createError)
      invariant Batch(Upload.Media(store.docs, store.nextId), imageMap)
        == ProcessAll(images[..i], start, fetch, now, store.lookupFails, store.createError)
    {
      var image := images[i];
      assert Seqs.Init(images[..i + 1]) == images[..i];
      var data := Download(image.src, fetch, now);
      if data.Ok? {
        var mediaId := UploadImageToPayload(store, data.value, image.alt);
        if mediaId.Ok? {
          imageMap := imageMap.Set(image.src, mediaId.value);
        }
      }
    }
    assert images[..|images|] == images;
  }

  // ----- the table branch of htmlToLexicalContent -----

  /** `<table` followed by whitespace or `>` at index `i`, in any letter case. */
  predicate TableTagAt(html: string, i: nat) {
    i + 7 <= |html| && html[i] == '<' && EqualsIgnoreCase(html[i + 1..i + 6], "table")
    && (IsSpace(html[i + 6]) || html[i + 6] == '>')
  }

  /** The test `/<table[\s>]/i` from index `from` on. */
  function TableTagFrom(html: string, from: nat): (b: bool)
    ensures b <==> exists i: nat :: from <= i && TableTagAt(html, i)
    decreases |html| - from
  {
    if from + 7 > |html| then false
    else TableTagAt(html, from) || TableTagFrom(html, from + 1)
  }

  predicate HasTableTag(html: string) {
    TableTagFrom(html, 0)
  }

  /** The root built for HTML holding a table: an empty paragraph, the first table, and an
      empty paragraph; nothing else of the HTML is kept. */
  function TableDocument(table: DomNode): (r: LexNode)
    ensures r.Obj? && r.typ == Some("root") && r.hasChildren && |r.children| == 3
    ensures r.children[0] == Lexical.EmptyParagraph && r.children[2] == Lexical.EmptyParagraph
    ensures r.children[1] == Lexical.ConvertTable(table)
  {
    Obj(Some("root"), map["version" := JNum(1), "direction" := JNull], true,
      [Lexical.EmptyParagraph, Lexical.ConvertTable(table), Lexical.EmptyParagraph])
  }

  /** The table the branch is taken for: the first `table` element of the document, when the
      HTML passes the tag test. */
  function TableBranch(parseHtml: string -> seq<DomNode>, html: string): (r: Option<DomNode>)
    ensures r.Some? ==> HasTableTag(html) && Lexical.TablesIn(parseHtml(html)) != [] && r.value == Lexical.TablesIn(parseHtml(html))[0]
    ensures r.None? <==> !HasTableTag(html) || Lexical.TablesIn(parseHtml(html)) == []
  {
    if HasTableTag(html) then FirstWithTag(parseHtml(html), "table") else None
  }

  // ----- replacePendingUploads and the end of htmlToLexicalContent -----

  /** `imageMap.get(normalizeImageUrl(pending.src))`; without a `src` string nothing is found. */
  function PendingLookup(imageMap: JsMaps.JsMap<string, int>): Option<string> -> Option<int> {
    (src: Option<string>) => if src.Some? then imageMap.Get(Upload.NormalizeImageUrl(src.value)) else None
  }

  /** The legacy lookup agrees with the current pipeline's as long as the map has no empty key. */
  lemma PendingLookupAgrees(imageMap: JsMaps.JsMap<string, int>, src: Option<string>)
    requires "" !in imageMap.values
    ensures PendingLookup(imageMap)(src) == Lexical.PendingLookup(imageMap, Lexical.MediaKey)(src)
  {
    if src.Some? {
      assert Lexical.MediaKey(src.value) == Upload.NormalizeImageUrl(src.value);
    } else {
      assert imageMap.Get("") == None;
    }
  }

  /** The last steps of `htmlToLexicalContent`: the converter's output checked, then its pending
      uploads replaced. `generated` stands for the id given to an upload node without one. */
  function Finish(output: Lexical.ConverterOutput, imageMap: JsMaps.JsMap<string, int>, generated: string): (r: Result<LexNode, string>)
    ensures output.NotAnObject? <==> r == Err("Invalid lexical JSON returned from converter")
    ensures output.Document? && (output.root.None? || !Lexical.LexTruthy(output.root.value))
      <==> r == Err("Lexical JSON missing root property")
    ensures r.Ok? ==> (output.Document? && output.root.Some?
      && r.value == Lexical.ReplacePending(output.root.value, PendingLookup(imageMap), generated))
  {
    match output
    case NotAnObject => Err("Invalid lexical JSON returned from converter")
    case Document(root) =>
      if root.None? || !Lexical.LexTruthy(root.value) then Err("Lexical JSON missing root property")
      else Ok(Lexical.ReplacePending(root.value, PendingLookup(imageMap), generated))
  }

  /** A finished document has no pending upload left and no null child. */
  lemma FinishSettles(output: Lexical.ConverterOutput, imageMap: JsMaps.JsMap<string, int>, generated: string)
    requires Finish(output, imageMap, generated).Ok?
    ensures Lexical.Settled(Finish(output, imageMap, generated).value)
  {
    Lexical.ReplacePendingSettles(output.root.value, PendingLookup(imageMap), generated);
  }

  /**
   * `htmlToLexicalContent`, returning the `root` of the document. HTML holding a table becomes
   * the three-child table document and touches no media; otherwise the images are uploaded one
   * by one and the converter's output has its pending uploads resolved against them.
   */
  method HtmlToLexicalContent(store: Upload.MediaStore, html: string, parseHtml: string -> seq<DomNode>,
                              fetch: string -> Upload.FetchResult, now: nat,
                              converter: string -> Lexical.ConverterOutput, generated: string)
    returns (r: Result<LexNode, string>, ghost imageMap: JsMaps.JsMap<string, int>)
    modifies store
    ensures TableBranch(parseHtml, html).Some? ==>
      r == Ok(TableDocument(TableBranch(parseHtml, html).value)) && unchanged(store)
    ensures TableBranch(parseHtml, html).None? ==>
      && Batch(Upload.Media(store.docs, store.nextId), imageMap)
        == ProcessAll(ImagesOf(Extract.Imgs(parseHtml(html))), Batch(Upload.Media(old(store.docs), old(store.nextId)), JsMaps.Empty()),
                      fetch, now, old(store.lookupFails), old(store.createError))
      && r == Finish(converter(html), imageMap, generated)
  {
    var table := TableBranch(parseHtml, html);
    if table.Some? {
      return Ok(TableDocument(table.value)), JsMaps.Empty();
    }
    var images := ExtractImagesFromHtml(parseHtml, html);
    var uploaded := ProcessImages(store, images, fetch, now);
    imageMap := uploaded;
    r := Finish(converter(html), uploaded, generated);
  }
}
