/**
 * Media download and upload: URL normalisation, the checks a download must pass,
 * the media collection as a store of documents looked up by filename, and the
 * loop that uploads every pending image reference in place.
 */
module Upload {
  import opened Wrappers
  import opened Strings
  import opened Types
  import Urls
  import Constants
  import JsMaps
  import Seqs

  /** The host with the first `.wpcomstaging` removed; an emptied host is refused by the URL setter. */
  function StripStaging(host: string): (h: string)
    ensures |h| <= |host|
  {
    var r := ReplaceFirst(host, Constants.StagingSuffix, "");
    if r == [] then host else r
  }

  /** `normalizeImageUrl`: text that is not an absolute URL comes back verbatim. */
  function NormalizeImageUrl(s: string): (r: string)
    ensures Urls.ParseUrl(s).None? ==> r == s
  {
    match Urls.ParseUrl(s)
    case None => s
    case Some(u) => Urls.Serialize(u.(host := StripStaging(u.host)))
  }

  /** Normalising changes the host only: parsing the result gives the same URL with the staging suffix gone from the host. */
  lemma NormalizeOnlyTouchesHost(s: string)
    requires Urls.ParseUrl(s).Some?
    ensures var u := Urls.ParseUrl(s).value;
      Urls.ParseUrl(NormalizeImageUrl(s)) == Some(u.(host := StripStaging(u.host)))
  {
    var u := Urls.ParseUrl(s).value;
    Urls.ParseThenSerialize(s);
    var h := StripStaging(u.host);
    forall i | 0 <= i < |h| ensures !Urls.EndsAuthority(h[i]) && h[i] != '@' {
      if h != u.host {
        assert h[i] in ReplaceFirst(u.host, Constants.StagingSuffix, "");
        ReplaceFirstEmptySubset(u.host, Constants.StagingSuffix, h[i]);
      }
    }
    Urls.SerializeThenParse(u.(host := h));
  }

  /** A URL without the staging suffix is left as it is. */
  lemma NormalizeWithoutStaging(s: string)
    requires !Contains(s, Constants.StagingSuffix)
    ensures NormalizeImageUrl(s) == s
  {
    if Urls.ParseUrl(s).Some? {
      var u := Urls.ParseUrl(s).value;
      Urls.ParseThenSerialize(s);
      Urls.HostInside(u);
      ContainsInfix(u.scheme + "://" + u.userinfo, u.host, u.path + u.suffix, Constants.StagingSuffix);
      assert StripStaging(u.host) == u.host;
      assert u.(host := u.host) == u;
    }
  }

  /** Images and videos differ only in their allow-list, size ceiling, default type and fallback name. */
  datatype MediaKind = ImageKind | VideoKind {
    function Allowed(): seq<string> {
      match this
      case ImageKind => Constants.SupportedImageTypes
      case VideoKind => Constants.SupportedVideoTypes
    }
    function MaxSize(): nat {
      match this
      case ImageKind => Constants.MaxImageSize
      case VideoKind => Constants.MaxVideoSize
    }
    function DefaultType(): string {
      match this
      case ImageKind => "image/jpeg"
      case VideoKind => "video/mp4"
    }
    function Noun(): string {
      match this
      case ImageKind => "image"
      case VideoKind => "video"
    }
    function Capitalised(): string {
      match this
      case ImageKind => "Image"
      case VideoKind => "Video"
    }
    function Extension(): string {
      match this
      case ImageKind => ".jpg"
      case VideoKind => ".mp4"
    }
  }

  /** What `fetch` answers: a network failure with its message, or a response with its status, content-type header and body size. */
  datatype FetchResult =
    | NetworkError(message: string)
    | Response(ok: bool, status: nat, statusText: string, contentType: Option<string>, size: nat)

  /** A downloaded file as the upload receives it (the bytes themselves are not modelled). */
  datatype MediaData = MediaData(filename: string, mimeType: string, size: nat)

  /** The content type used: the header, or the kind's default when it is missing or empty. */
  function ContentType(kind: MediaKind, header: Option<string>): (t: string)
    ensures header.Some? && header.value != [] ==> t == header.value
  {
    if header.Some? && header.value != [] then header.value else kind.DefaultType()
  }

  predicate IsListed(t: string, list: seq<string>) {
    exists i :: 0 <= i < |list| && list[i] == t
  }

  /** The file name: the last segment of the URL path, or `image-<now>.jpg` / `video-<now>.mp4` when it is empty. */
  function FileNameOf(kind: MediaKind, path: string, now: nat): (f: string)
    ensures f != []
  {
    var last := AfterLast(path, '/');
    if last != [] then last else kind.Noun() + "-" + NatToString(now) + kind.Extension()
  }

  /** `downloadImage` / `downloadVideo`: fetch the normalised URL and validate what comes back. */
  function DownloadMedia(kind: MediaKind, url: string, fetch: string -> FetchResult, now: nat): (r: Result<MediaData, string>)
    ensures r.Ok? ==> IsListed(r.value.mimeType, kind.Allowed()) && r.value.size <= kind.MaxSize() && r.value.filename != []
  {
    var normalized := NormalizeImageUrl(url);
    match fetch(normalized)
    case NetworkError(m) => Err(m)
    case Response(ok, status, statusText, header, size) =>
      if !ok then Err("Failed to download " + kind.Noun() + ": " + NatToString(status) + " " + statusText)
      else
        var t := ContentType(kind, header);
        if !IsListed(t, kind.Allowed()) then Err("Unsupported " + kind.Noun() + " type: " + t)
        else if size > kind.MaxSize() then Err(kind.Capitalised() + " too large: " + NatToString(size) + " bytes")
        else match Urls.ParseUrl(normalized)
          case None => Err("Invalid URL")
          case Some(u) => Ok(MediaData(FileNameOf(kind, u.path, now), t, size))
  }

  /** The download succeeds exactly when the response is ok, its type is listed, its size is within the ceiling and the URL parses. */
  lemma DownloadAccepts(kind: MediaKind, url: string, fetch: string -> FetchResult, now: nat)
    ensures var resp := fetch(NormalizeImageUrl(url));
      DownloadMedia(kind, url, fetch, now).Ok? <==>
        resp.Response? && resp.ok && IsListed(ContentType(kind, resp.contentType), kind.Allowed())
        && resp.size <= kind.MaxSize() && Urls.ParseUrl(NormalizeImageUrl(url)).Some?
  {
  }

  /** A missing content type is taken as JPEG for images and MP4 for videos, both of which are allowed. */
  lemma MissingTypeIsDefault(kind: MediaKind)
    ensures ContentType(kind, None) == kind.DefaultType() && IsListed(kind.DefaultType(), kind.Allowed())
  {
    match kind
    case ImageKind => assert Constants.SupportedImageTypes[0] == "image/jpeg";
    case VideoKind => assert Constants.SupportedVideoTypes[0] == "video/mp4";
  }

  /** A document's id as the collection stores it. */
  datatype DocId = NumId(n: int) | TextId(t: string)

  datatype MediaDoc = MediaDoc(id: DocId, filename: string, alt: string, mimeType: string, size: nat)

  /** `typeof id === 'number' ? id : Number(id)`. */
  function DocNumber(id: DocId): Option<int> {
    match id
    case NumId(n) => Some(n)
    case TextId(t) => ToNumber(t)
  }

  /** The first document with the file name, as a `find` with `limit: 1` returns it. */
  function FindByFilename(docs: seq<MediaDoc>, filename: string): (r: Option<nat>)
    ensures r.Some? ==> r.value < |docs| && docs[r.value].filename == filename
    ensures r.Some? ==> forall j :: 0 <= j < r.value ==> docs[j].filename != filename
    ensures r.None? ==> forall j :: 0 <= j < |docs| ==> docs[j].filename != filename
  {
    if docs == [] then None
    else if docs[0].filename == filename then Some(0)
    else match FindByFilename(docs[1..], filename)
      case None => None
      case Some(j) => Some(j + 1)
  }

  /** `checkExistingMedia`: the numeric id of the first document with the file name; a failed lookup or a `NaN` id gives nothing. */
  function CheckExisting(docs: seq<MediaDoc>, filename: string, lookupFails: bool): (r: Option<int>)
    ensures r.Some? ==> exists j :: 0 <= j < |docs| && docs[j].filename == filename && DocNumber(docs[j].id) == r
  {
    if lookupFails then None
    else match FindByFilename(docs, filename)
      case None => None
      case Some(j) => DocNumber(docs[j].id)
  }

  /** The lookup never fails loudly: it yields nothing exactly when it fails, no document has the name, or the first one's id is not a number. */
  lemma CheckExistingNone(docs: seq<MediaDoc>, filename: string, lookupFails: bool)
    ensures CheckExisting(docs, filename, lookupFails).None? <==>
      lookupFails || FindByFilename(docs, filename).None?
      || DocNumber(docs[FindByFilename(docs, filename).value].id).None?
  {
  }

  /** What an upload reports: a truthy existing id, else the create error, else the id it hands out next. */
  function UploadOutcome(docs: seq<MediaDoc>, filename: string, lookupFails: bool, createError: Option<string>, nextId: nat)
    : Result<int, string>
  {
    var existing := CheckExisting(docs, filename, lookupFails);
    if existing.Some? && existing.value != 0 then Ok(existing.value)
    else if createError.Some? then Err(createError.value)
    else Ok(nextId)
  }

  /** The media collection: its documents, the next id it hands out, and whether lookups or creates fail. */
  class MediaStore {
    var docs: seq<MediaDoc>
    var nextId: nat
    var lookupFails: bool
    var createError: Option<string>

    constructor(docs0: seq<MediaDoc>, nextId0: nat, lookupFails0: bool, createError0: Option<string>)
      ensures docs == docs0 && nextId == nextId0 && lookupFails == lookupFails0 && createError == createError0
    {
      docs := docs0;
      nextId := nextId0;
      lookupFails := lookupFails0;
      createError := createError0;
    }

    /** `checkExistingMedia`. */
    method CheckExistingMedia(filename: string) returns (id: Option<int>)
      ensures id == CheckExisting(docs, filename, lookupFails)
      ensures id.Some? ==> exists j :: 0 <= j < |docs| && docs[j].filename == filename && DocNumber(docs[j].id) == id
      ensures id.None? <==> lookupFails || FindByFilename(docs, filename).None? || DocNumber(docs[FindByFilename(docs, filename).value].id).None?
    {
      if lookupFails {
        return None;
      }
      var j := FindByFilename(docs, filename);
      if j.None? {
        return None;
      }
      id := DocNumber(docs[j.value].id);
    }

    /**
     * `uploadImageToPayload` / `uploadVideoToPayload`: a truthy existing id is returned without
     * creating anything; otherwise a document is created, its alt text defaulting to the file name.
     */
    method UploadMedia(data: MediaData, alt: string) returns (r: Result<int, string>)
      modifies this
      ensures lookupFails == old(lookupFails) && createError == old(createError)
      ensures r == UploadOutcome(old(docs), data.filename, old(lookupFails), old(createError), old(nextId))
      ensures Media(docs, nextId) == MediaAfter(Media(old(docs), old(nextId)), data, alt, old(lookupFails), old(createError))
      ensures var existing := CheckExisting(old(docs), data.filename, old(lookupFails));
        if existing.Some? && existing.value != 0 then
          r == Ok(existing.value) && docs == old(docs) && nextId == old(nextId)
        else if old(createError).Some? then
          r == Err(old(createError).value) && docs == old(docs) && nextId == old(nextId)
        else
          r == Ok(old(nextId)) && nextId == old(nextId) + 1
          && docs == old(docs) + [NewDoc(old(nextId), data, alt)]
    {
      var existing := CheckExistingMedia(data.filename);
      if existing.Some? && existing.value != 0 {
        return Ok(existing.value);
      }
      if createError.Some? {
        return Err(createError.value);
      }
      docs := docs + [NewDoc(nextId, data, alt)];
      r := Ok(nextId);
      nextId := nextId + 1;
    }
  }

  /** After a successful upload, the same file name is found again with the returned id, so a second upload creates nothing. */
  lemma UploadIsIdempotent(docs: seq<MediaDoc>, nextId: nat, data: MediaData, alt: string)
    requires nextId != 0
    requires var e := CheckExisting(docs, data.filename, false);
      (e.Some? && e.value != 0) || FindByFilename(docs, data.filename).None?
    ensures var e := CheckExisting(docs, data.filename, false);
      var after := if e.Some? then docs
        else docs + [NewDoc(nextId, data, alt)];
      var id := if e.Some? then e.value else nextId;
      CheckExisting(after, data.filename, false) == Some(id) && id != 0
  {
    var e := CheckExisting(docs, data.filename, false);
    if e.None? {
      var doc := NewDoc(nextId, data, alt);
      FindAfterAppend(docs, doc);
    }
  }

  lemma {:induction false} FindAfterAppend(docs: seq<MediaDoc>, doc: MediaDoc)
    requires FindByFilename(docs, doc.filename).None?
    ensures FindByFilename(docs + [doc], doc.filename) == Some(|docs|)
  {
    if docs != [] {
      assert (docs + [doc])[1..] == docs[1..] + [doc];
      FindAfterAppend(docs[1..], doc);
    }
  }

  /** The collection's documents and the id it hands out next: what an upload changes. */
  datatype Media = Media(docs: seq<MediaDoc>, nextId: nat)

  /** The document an upload creates, its alt text defaulting to the file name. */
  function NewDoc(id: nat, data: MediaData, alt: string): MediaDoc {
    MediaDoc(NumId(id), data.filename, if alt == [] then data.filename else alt, data.mimeType, data.size)
  }

  /**
   * The collection after an upload: a created document is appended and the next id advances;
   * a reused document or a failed create leaves it as it was.
   */
  function MediaAfter(m: Media, data: MediaData, alt: string, lookupFails: bool, createError: Option<string>): (r: Media)
    ensures m.docs <= r.docs
  {
    var existing := CheckExisting(m.docs, data.filename, lookupFails);
    if (existing.Some? && existing.value != 0) || createError.Some? then m
    else Media(m.docs + [NewDoc(m.nextId, data, alt)], m.nextId + 1)
  }

  /** `id` is the number of a document of `docs` that has the file name. */
  ghost predicate Holds(docs: seq<MediaDoc>, filename: string, id: int) {
    exists j :: 0 <= j < |docs| && docs[j].filename == filename && DocNumber(docs[j].id) == Some(id)
  }

  /** The id a successful upload reports is that of a document with the file name in the collection afterwards. */
  lemma UploadedIdIsStored(m: Media, data: MediaData, alt: string, lookupFails: bool, createError: Option<string>)
    requires UploadOutcome(m.docs, data.filename, lookupFails, createError, m.nextId).Ok?
    ensures Holds(MediaAfter(m, data, alt, lookupFails, createError).docs, data.filename,
                  UploadOutcome(m.docs, data.filename, lookupFails, createError, m.nextId).value)
  {
    var after := MediaAfter(m, data, alt, lookupFails, createError);
    var existing := CheckExisting(m.docs, data.filename, lookupFails);
    if existing.Some? && existing.value != 0 {
      var j :| 0 <= j < |m.docs| && m.docs[j].filename == data.filename && DocNumber(m.docs[j].id) == existing;
      assert after.docs[j] == m.docs[j];
    } else {
      assert after.docs[|m.docs|] == NewDoc(m.nextId, data, alt);
    }
  }

  /** `image.mediaId` read for truthiness. */
  predicate HasMediaId(ref: ImageReference) {
    ref.mediaId.Some? && ref.mediaId.value != 0
  }

  /** A reference the loop leaves alone: skipped, or already uploaded with a truthy id. */
  predicate Untouched(ref: ImageReference) {
    ref.status == Skipped || (ref.status == Uploaded && HasMediaId(ref))
  }

  /** What becomes of one reference: untouched ones stay as they are; any other ends uploaded with an id, or failed with an error. */
  predicate Outcome(before: ImageReference, after: ImageReference) {
    if Untouched(before) then after == before
    else
      after.src == before.src && after.normalizedSrc == before.normalizedSrc && after.alt == before.alt
      && ((after.status == Uploaded && after.mediaId.Some?) || (after.status == Failed && after.error.Some?))
  }

  /** A reference after processing, and the collection after it. */
  datatype Processed = Processed(ref: ImageReference, media: Media)

  /**
   * One iteration of `uploadImages`: an untouched reference is kept; any other is downloaded from
   * its normalised URL and uploaded with its alt text, ending uploaded with the id or failed with
   * the error of the step that failed.
   */
  function ProcessRef(m: Media, image: ImageReference, fetch: string -> FetchResult, now: nat,
                      lookupFails: bool, createError: Option<string>): (p: Processed)
    ensures Outcome(image, p.ref) && m.docs <= p.media.docs
  {
    if Untouched(image) then Processed(image, m)
    else match DownloadMedia(ImageKind, image.normalizedSrc, fetch, now)
      case Err(e) => Processed(image.(status := Failed, error := Some(e)), m)
      case Ok(data) =>
        var after := MediaAfter(m, data, image.alt, lookupFails, createError);
        match UploadOutcome(m.docs, data.filename, lookupFails, createError, m.nextId)
        case Err(e) => Processed(image.(status := Failed, error := Some(e)), after)
        case Ok(id) => Processed(image.(status := Uploaded, mediaId := Some(id)), after)
  }

  /**
   * A reference that is not left alone ends uploaded exactly when its download is accepted and
   * the upload gives an id; it then carries that id, which names a document with the downloaded
   * file name in the collection afterwards.
   */
  lemma ProcessRefUploads(m: Media, image: ImageReference, fetch: string -> FetchResult, now: nat,
                          lookupFails: bool, createError: Option<string>)
    requires !Untouched(image)
    ensures var p := ProcessRef(m, image, fetch, now, lookupFails, createError);
      var d := DownloadMedia(ImageKind, image.normalizedSrc, fetch, now);
      && (p.ref.status == Uploaded <==> d.Ok? && UploadOutcome(m.docs, d.value.filename, lookupFails, createError, m.nextId).Ok?)
      && (p.ref.status == Uploaded ==>
            var id := UploadOutcome(m.docs, d.value.filename, lookupFails, createError, m.nextId).value;
            p.ref.mediaId == Some(id) && Holds(p.media.docs, d.value.filename, id))
  {
    var d := DownloadMedia(ImageKind, image.normalizedSrc, fetch, now);
    if d.Ok? && UploadOutcome(m.docs, d.value.filename, lookupFails, createError, m.nextId).Ok? {
      UploadedIdIsStored(m, d.value, image.alt, lookupFails, createError);
    }
  }

  /** The references after processing, in order, and the collection at the end. */
  datatype Batch = Batch(refs: seq<ImageReference>, media: Media)

  /** `uploadImages`' loop as a fold: each reference processed against the collection the earlier ones left. */
  function ProcessAll(m: Media, images: seq<ImageReference>, fetch: string -> FetchResult, now: nat,
                      lookupFails: bool, createError: Option<string>): (b: Batch)
    ensures |b.refs| == |images| && forall i :: 0 <= i < |images| ==> Outcome(images[i], b.refs[i])
    ensures m.docs <= b.media.docs
  {
    if images == [] then Batch([], m)
    else
      var prev := ProcessAll(m, Seqs.Init(images), fetch, now, lookupFails, createError);
      var p := ProcessRef(prev.media, images[|images| - 1], fetch, now, lookupFails, createError);
      Batch(prev.refs + [p.ref], p.media)
  }

  /** Processing one more reference extends the batch by that reference's step. */
  lemma ProcessAllStep(m: Media, images: seq<ImageReference>, n: nat, fetch: string -> FetchResult, now: nat,
                       lookupFails: bool, createError: Option<string>)
    requires n < |images|
    ensures var prev := ProcessAll(m, images[..n], fetch, now, lookupFails, createError);
      var p := ProcessRef(prev.media, images[n], fetch, now, lookupFails, createError);
      ProcessAll(m, images[..n + 1], fetch, now, lookupFails, createError) == Batch(prev.refs + [p.ref], p.media)
  {
    Seqs.TakeSnoc(images, n);
    Seqs.InitOfSnoc(images[..n], images[n]);
  }

  /** A reference that is in the map: uploaded and carrying an id. */
  predicate Mapped(ref: ImageReference) {
    ref.status == Uploaded && ref.mediaId.Some?
  }

  /** The map `uploadImages` returns for the processed references: each uploaded one sets its normalised URL to its id. */
  function MapOf(refs: seq<ImageReference>): (m: JsMaps.JsMap<string, int>)
    ensures m.Valid()
  {
    if refs == [] then JsMaps.Empty()
    else
      var prev := MapOf(Seqs.Init(refs));
      var x := refs[|refs| - 1];
      if Mapped(x) then prev.Set(x.normalizedSrc, x.mediaId.value) else prev
  }

  /** One more reference sets its URL when it was uploaded, and leaves the map alone otherwise. */
  lemma MapOfSnoc(refs: seq<ImageReference>, x: ImageReference)
    ensures MapOf(refs + [x]) == if Mapped(x) then MapOf(refs).Set(x.normalizedSrc, x.mediaId.value) else MapOf(refs)
  {
    Seqs.InitOfSnoc(refs, x);
  }

  /** `refs[i]` is the last uploaded reference with normalised URL `k`. */
  predicate LastMapped(refs: seq<ImageReference>, k: string, i: int) {
    0 <= i < |refs| && Mapped(refs[i]) && refs[i].normalizedSrc == k
    && forall j :: i < j < |refs| ==> !(Mapped(refs[j]) && refs[j].normalizedSrc == k)
  }

  /**
   * A URL is a key of the map exactly when some uploaded reference has it, and the key holds the
   * id of the last such reference: a later upload of the same URL overwrites an earlier one.
   */
  lemma {:induction false} MapOfLastWins(refs: seq<ImageReference>)
    ensures forall k :: k in MapOf(refs).values <==> exists i :: 0 <= i < |refs| && Mapped(refs[i]) && refs[i].normalizedSrc == k
    ensures forall k :: k in MapOf(refs).values ==> exists i :: LastMapped(refs, k, i) && refs[i].mediaId == Some(MapOf(refs).values[k])
  {
    if refs != [] {
      var init := Seqs.Init(refs);
      var x := refs[|refs| - 1];
      MapOfLastWins(init);
      assert forall i :: 0 <= i < |init| ==> init[i] == refs[i];
      var m := MapOf(refs);
      forall k | k in m.values
        ensures exists i :: LastMapped(refs, k, i) && refs[i].mediaId == Some(m.values[k])
      {
        if Mapped(x) && x.normalizedSrc == k {
          assert LastMapped(refs, k, |refs| - 1);
        } else {
          var i :| LastMapped(init, k, i) && init[i].mediaId == Some(MapOf(init).values[k]);
          assert LastMapped(refs, k, i);
        }
      }
      forall k | exists i :: 0 <= i < |refs| && Mapped(refs[i]) && refs[i].normalizedSrc == k
        ensures k in m.values
      {
        var i :| 0 <= i < |refs| && Mapped(refs[i]) && refs[i].normalizedSrc == k;
        if i < |init| {
          assert init[i] == refs[i];
        }
      }
    }
  }

  /** The map is empty exactly when no reference is uploaded with an id. */
  lemma MapOfEmpty(refs: seq<ImageReference>)
    ensures MapOf(refs).order == [] <==> !exists i :: 0 <= i < |refs| && Mapped(refs[i])
  {
    MapOfLastWins(refs);
    var m := MapOf(refs);
    if exists i :: 0 <= i < |refs| && Mapped(refs[i]) {
      var i :| 0 <= i < |refs| && Mapped(refs[i]);
      assert refs[i].normalizedSrc in m.values;
    }
  }

  /** Every key of the map is the normalised URL of one of the references as they were before processing. */
  lemma MapKeysFromInputs(before: seq<ImageReference>, after: seq<ImageReference>)
    requires |before| == |after| && forall i :: 0 <= i < |after| ==> Outcome(before[i], after[i])
    ensures forall k :: k in MapOf(after).values ==> exists i :: 0 <= i < |before| && before[i].normalizedSrc == k
  {
    MapOfLastWins(after);
    forall k | k in MapOf(after).values ensures exists i :: 0 <= i < |before| && before[i].normalizedSrc == k {
      var i :| 0 <= i < |after| && Mapped(after[i]) && after[i].normalizedSrc == k;
      assert Outcome(before[i], after[i]);
    }
  }

  /** One iteration of `uploadImages`: the reference after processing, against the collection in `store`. */
  method ProcessImage(store: MediaStore, image: ImageReference, fetch: string -> FetchResult, now: nat)
    returns (after: ImageReference)
    modifies store
    ensures store.lookupFails == old(store.lookupFails) && store.createError == old(store.createError)
    ensures Processed(after, Media(store.docs, store.nextId))
      == ProcessRef(Media(old(store.docs), old(store.nextId)), image, fetch, now, old(store.lookupFails), old(store.createError))
    ensures Outcome(image, after)
    ensures Untouched(image) ==> store.docs == old(store.docs)
  {
    if Untouched(image) {
      return image;
    }
    var download := DownloadMedia(ImageKind, image.normalizedSrc, fetch, now);
    if download.Err? {
      return image.(status := Failed, error := Some(download.error));
    }
    var uploaded := store.UploadMedia(download.value, image.alt);
    if uploaded.Err? {
      after := image.(status := Failed, error := Some(uploaded.error));
    } else {
      after := image.(status := Uploaded, mediaId := Some(uploaded.value));
    }
  }

  /** The first `n` references of `images` and the collection are those the fold over `input[..n]` gives. */
  ghost predicate Reached(start: Media, input: seq<ImageReference>, n: nat, images: seq<ImageReference>, media: Media,
                          fetch: string -> FetchResult, now: nat, lookupFails: bool, createError: Option<string>)
  {
    n <= |input| == |images| && images[n..] == input[n..]
    && ProcessAll(start, input[..n], fetch, now, lookupFails, createError) == Batch(images[..n], media)
  }

  /** The `n`-th reference processed and written back in place. */
  method ProcessAt(store: MediaStore, images: array<ImageReference>, n: nat, fetch: string -> FetchResult, now: nat,
                   ghost start: Media, ghost input: seq<ImageReference>)
    returns (after: ImageReference)
    requires n < images.Length
    requires Reached(start, input, n, images[..], Media(store.docs, store.nextId), fetch, now, store.lookupFails, store.createError)
    modifies store, images
    ensures store.lookupFails == old(store.lookupFails) && store.createError == old(store.createError)
    ensures Reached(start, input, n + 1, images[..], Media(store.docs, store.nextId), fetch, now, store.lookupFails, store.createError)
    ensures images[..n + 1] == old(images[..n]) + [after]
  {
    ProcessAllStep(start, input, n, fetch, now, store.lookupFails, store.createError);
    ghost var done := images[..n];
    assert images[n] == input[n];
    assert images[n + 1..] == input[n + 1..] by {
      assert images[n..] == [images[n]] + images[n + 1..] && input[n..] == [input[n]] + input[n + 1..];
    }
    ghost var rest := images[n + 1..];
    after := ProcessImage(store, images[n], fetch, now);
    images[n] := after;
    assert images[..n + 1] == done + [after];
    assert images[n + 1..] == rest;
  }

  /**
   * `uploadImages`: processes every reference in order, updating it in place, and returns the map
   * from normalised URL to media id.
   */
  method UploadImages(store: MediaStore, images: array<ImageReference>, fetch: string -> FetchResult, now: nat)
    returns (imageMap: JsMaps.JsMap<string, int>)
    modifies store, images
    ensures store.lookupFails == old(store.lookupFails) && store.createError == old(store.createError)
    ensures var b := ProcessAll(Media(old(store.docs), old(store.nextId)), old(images[..]), fetch, now,
                                old(store.lookupFails), old(store.createError));
      images[..] == b.refs && Media(store.docs, store.nextId) == b.media
    ensures imageMap == MapOf(images[..])
    ensures forall i :: 0 <= i < images.Length ==> Outcome(old(images[i]), images[i])
  {
    ghost var start, input := Media(store.docs, store.nextId), images[..];
    imageMap := JsMaps.Empty();
    var n := 0;
    while n < images.Length
      invariant 0 <= n <= images.Length
      invariant store.lookupFails == old(store.lookupFails) && store.createError == old(store.createError)
      invariant Reached(start, input, n, images[..], Media(store.docs, store.nextId), fetch, now, store.lookupFails, store.createError)
      invariant imageMap == MapOf(images[..n])
    {
      ghost var done := images[..n];
      var after := ProcessAt(store, images, n, fetch, now, start, input);
      MapOfSnoc(done, after);
      if Mapped(after) {
        imageMap := imageMap.Set(after.normalizedSrc, after.mediaId.value);
      }
      n := n + 1;
    }
    assert images[..] == images[..n];
    assert input[..n] == input;
    assert forall i :: 0 <= i < images.Length ==> old(images[i]) == input[i];
  }
}
