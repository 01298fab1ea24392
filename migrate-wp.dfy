/**
 * The migration driver: one post is split into chunks, its images are uploaded up front, the
 * chunks are converted and merged into one Lexical document, and the document is written; a run
 * over many posts counts what happened to each.
 */
module MigrateWp {
  import opened Wrappers
  import opened Strings
  import opened Types
  import Json
  import opened Dom
  import Seqs
  import JsMaps
  import Upload
  import Extract
  import ChunkSplitter
  import HtmlEngine
  import MergeLexical
  import UnsupportedBlocks

  /** The options the driver reads; `continueOnError` keeps its three states (unset, false, true). */
  datatype MigrationOptions = MigrationOptions(dryRun: bool, skipImages: bool, continueOnError: Option<bool>)

  /** `options.continueOnError ?? true`, what the chunk conversion is run with. */
  function ConversionContinues(options: MigrationOptions): bool {
    options.continueOnError.GetOr(true)
  }

  /** `!options.continueOnError`: an unset option counts as false here. */
  predicate FailFast(options: MigrationOptions) {
    options.continueOnError != Some(true)
  }

  /** The inner HTML of each chunk, in order. */
  function Htmls(chunks: seq<WPChunk>): (hs: seq<string>)
    ensures |hs| == |chunks| && forall k :: 0 <= k < |chunks| ==> hs[k] == chunks[k].html
  {
    seq(|chunks|, k requires 0 <= k < |chunks| => chunks[k].html)
  }

  /** The images of a post, one per normalised URL, as they are counted and uploaded. */
  function PostImages(parseHtml: string -> seq<DomNode>, chunks: seq<WPChunk>): seq<ImageReference> {
    Seqs.DedupBy(Extract.AllImageRefs(parseHtml, Htmls(chunks)), Extract.NormalizedSrcOf, {})
  }

  /** The normalised URL of each image, in order. */
  function Srcs(images: seq<ImageReference>): (urls: seq<string>)
    ensures |urls| == |images| && forall k :: 0 <= k < |images| ==> urls[k] == images[k].normalizedSrc
  {
    seq(|images|, k requires 0 <= k < |images| => images[k].normalizedSrc)
  }

  /**
   * Step 2 of `migratePost`: the images of all chunks, uploaded before any chunk is converted, and
   * the map from normalised URL to media id that the upload gives.
   */
  method UploadPostImages(parseHtml: string -> seq<DomNode>, store: Upload.MediaStore, chunks: seq<WPChunk>,
                          fetch: string -> Upload.FetchResult, now: nat)
    returns (uploaded: JsMaps.JsMap<string, int>)
    modifies store
    ensures store.lookupFails == old(store.lookupFails) && store.createError == old(store.createError)
    ensures var b := Upload.ProcessAll(Upload.Media(old(store.docs), old(store.nextId)), PostImages(parseHtml, chunks), fetch, now,
                                       old(store.lookupFails), old(store.createError));
      uploaded == Upload.MapOf(b.refs) && Upload.Media(store.docs, store.nextId) == b.media
    ensures forall k :: k in uploaded.values ==> k in Srcs(PostImages(parseHtml, chunks))
    ensures PostImages(parseHtml, chunks) == [] ==> uploaded == JsMaps.Empty() && unchanged(store)
  {
    var images := Extract.ExtractImagesFromChunks(parseHtml, Htmls(chunks));
    ghost var b := Upload.ProcessAll(Upload.Media(store.docs, store.nextId), images, fetch, now, store.lookupFails, store.createError);
    if |images| == 0 {
      return JsMaps.Empty();
    }
    var pending := new ImageReference[|images|](k requires 0 <= k < |images| => images[k]);
    assert pending[..] == images;
    uploaded := Upload.UploadImages(store, pending, fetch, now);
    Upload.MapKeysFromInputs(images, b.refs);
    forall key | key in uploaded.values ensures key in Srcs(images) {
      var i :| 0 <= i < |images| && images[i].normalizedSrc == key;
      assert Srcs(images)[i] == key;
    }
  }

  /** The collection and the shared image map as the chunk conversion starts. */
  datatype Prepared = Prepared(media: Upload.Media, imageMap: JsMaps.JsMap<string, int>)

  /**
   * Step 2 against the collection `m`: unless images are skipped, the post's images are uploaded
   * and every entry of the upload map is copied into the (empty) shared map.
   */
  function Prepare(parseHtml: string -> seq<DomNode>, m: Upload.Media, chunks: seq<WPChunk>, options: MigrationOptions,
                   fetch: string -> Upload.FetchResult, now: nat, lookupFails: bool, createError: Option<string>): (p: Prepared)
    ensures p.imageMap.Valid()
    ensures options.skipImages ==> p == Prepared(m, JsMaps.Empty())
  {
    if options.skipImages then Prepared(m, JsMaps.Empty())
    else
      var b := Upload.ProcessAll(m, PostImages(parseHtml, chunks), fetch, now, lookupFails, createError);
      var uploaded := Upload.MapOf(b.refs);
      Prepared(b.media, JsMaps.SetEach(JsMaps.Empty(), uploaded.order, uploaded.values))
  }

  /** Step 2 of `migratePost` in place: the shared map, filled from the upload unless images are skipped. */
  method PrepareImages(parseHtml: string -> seq<DomNode>, store: Upload.MediaStore, chunks: seq<WPChunk>, options: MigrationOptions,
                       fetch: string -> Upload.FetchResult, now: nat)
    returns (imageMap: JsMaps.MapObject<string, int>)
    modifies store
    ensures fresh(imageMap)
    ensures store.lookupFails == old(store.lookupFails) && store.createError == old(store.createError)
    ensures Prepared(Upload.Media(store.docs, store.nextId), imageMap.contents)
      == Prepare(parseHtml, Upload.Media(old(store.docs), old(store.nextId)), chunks, options, fetch, now,
                 old(store.lookupFails), old(store.createError))
  {
    imageMap := new JsMaps.MapObject(JsMaps.Empty());
    if !options.skipImages {
      var uploaded := UploadPostImages(parseHtml, store, chunks, fetch, now);
      imageMap.SetAll(uploaded);
    }
  }

  /** The post `migratePost` overwrites with the converted content. */
  const UpdatedPostId := 4

  /** The `payload.update` of a post: the id written to, the title, the slug and the merged content. */
  datatype PostUpdate = PostUpdate(id: int, title: string, slug: string, content: Merged)

  function ConversionFailed(errors: seq<string>): string {
    "Conversion failed: " + Join(errors, ", ")
  }

  /**
   * `migratePost`. `persisted` stands for what writing the document gives: the stored document's id,
   * or the error it fails with; `written` is the update that is sent, when one is. An `Err` result
   * is an exception; `Ok(None)` is `null` (no chunks, or a dry run) and also a stored id that is
   * not a number (`NaN`), which the caller treats alike.
   */
  method MigratePost(env: UnsupportedBlocks.Collaborators, store: Upload.MediaStore, post: WPPost, options: MigrationOptions,
                     parseJson: string -> Option<Json.Json>, fetch: string -> Upload.FetchResult, now: nat,
                     persisted: Result<Upload.DocId, string>)
    returns (r: Result<Option<int>, string>, chunks: seq<WPChunk>, ghost results: seq<ConversionResult>, written: Option<PostUpdate>)
    modifies store
    ensures chunks == ChunkSplitter.Chunks(post.content, parseJson)
    ensures chunks == [] ==> r == Ok(None) && unchanged(store) && written.None?
    ensures |results| <= |chunks|
    ensures chunks != [] ==>
      var p := Prepare(env.parseHtml, Upload.Media(old(store.docs), old(store.nextId)), chunks, options, fetch, now,
                       old(store.lookupFails), old(store.createError));
      HtmlEngine.RunAll(env, p.media, p.imageMap, chunks[..|results|], fetch, now, old(store.lookupFails), old(store.createError)).results
        == results
    ensures chunks != [] && r.Ok? ==> |results| == |chunks| && HtmlEngine.AllFit(chunks, results)
    ensures chunks != [] && r.Ok? && FailFast(options) ==> HtmlEngine.Gather(chunks, results).errors == []
    ensures options.dryRun ==> written.None? && (r.Err? || r == Ok(None))
    ensures written.Some? ==>
      && |results| == |chunks|
      && MergeLexical.MergeNodesPreservingOrder(HtmlEngine.Gather(chunks, results).nodes, env.blockId).Ok?
      && written.value == PostUpdate(UpdatedPostId, post.title, post.slug,
                                     MergeLexical.MergeNodesPreservingOrder(HtmlEngine.Gather(chunks, results).nodes, env.blockId).value)
      && r == (if persisted.Ok? then Ok(Upload.DocNumber(persisted.value)) else Err(persisted.error))
    ensures chunks != [] && !options.dryRun && r.Ok? ==> written.Some?
    ensures r.Ok? && r.value.Some? ==> persisted.Ok? && r.value == Upload.DocNumber(persisted.value)
  {
    results := [];
    written := None;
    chunks := ChunkSplitter.SplitIntoChunks(post.content, parseJson);
    if |chunks| == 0 {
      return Ok(None), chunks, results, written;
    }

    ghost var lookupFails, createError := store.lookupFails, store.createError;
    ghost var p := Prepare(env.parseHtml, Upload.Media(store.docs, store.nextId), chunks, options, fetch, now, lookupFails, createError);
    var imageMap := PrepareImages(env.parseHtml, store, chunks, options, fetch, now);

    var conversion;
    conversion, results := HtmlEngine.ConvertChunksWithStats(env, store, imageMap, chunks, fetch, now, ConversionContinues(options));
    assert HtmlEngine.RunAll(env, p.media, p.imageMap, chunks[..|results|], fetch, now, lookupFails, createError).results == results;
    if conversion.Err? {
      r := Err(conversion.error);
    } else if |conversion.value.errors| > 0 && FailFast(options) {
      r := Err(ConversionFailed(conversion.value.errors));
    } else {
      r, written := Publish(env.blockId, post, options, conversion.value.nodes, persisted);
    }
  }

  /**
   * The end of `migratePost`: merges the converted nodes, stops there on a dry run, and otherwise
   * writes post 4 and returns what the write gives.
   */
  method Publish(blockId: nat -> string, post: WPPost, options: MigrationOptions, nodes: seq<ConvertedNode>,
                 persisted: Result<Upload.DocId, string>)
    returns (r: Result<Option<int>, string>, written: Option<PostUpdate>)
    ensures MergeLexical.MergeNodesPreservingOrder(nodes, blockId).Err? ==>
      written.None? && r == Err(MergeLexical.MergeNodesPreservingOrder(nodes, blockId).error)
    ensures options.dryRun ==> written.None? && (r.Err? || r == Ok(None))
    ensures written.Some? ==>
      && MergeLexical.MergeNodesPreservingOrder(nodes, blockId).Ok?
      && written.value == PostUpdate(UpdatedPostId, post.title, post.slug, MergeLexical.MergeNodesPreservingOrder(nodes, blockId).value)
      && r == (if persisted.Ok? then Ok(Upload.DocNumber(persisted.value)) else Err(persisted.error))
    ensures !options.dryRun && MergeLexical.MergeNodesPreservingOrder(nodes, blockId).Ok? ==> written.Some?
    ensures r.Ok? && r.value.Some? ==> persisted.Ok? && r.value == Upload.DocNumber(persisted.value)
  {
    written := None;
    var merged := MergeLexical.MergeNodesPreservingOrder(nodes, blockId);
    if merged.Err? {
      return Err(merged.error), written;
    }
    // The structure check after merging always passes, so its exception is never raised.
    assert MergeLexical.ValidateMergedStructure(merged.value);

    if options.dryRun {
      return Ok(None), written;
    }
    written := Some(PostUpdate(UpdatedPostId, post.title, post.slug, merged.value));
    if persisted.Err? {
      return Err(persisted.error), written;
    }
    r := Ok(Upload.DocNumber(persisted.value));
  }

  // ---------------------------------------------------------------- The run over all posts

  /** What `migratePost` gave for one post: an id (`None` for `null` or `NaN`), or an exception. */
  datatype PostOutcome = Returned(id: Option<int>) | Threw(message: string)

  /** The counters of a run; the elapsed time is not modelled. */
  datatype MigrationStats = MigrationStats(totalPosts: nat, successfulPosts: nat, failedPosts: nat,
                                           totalChunks: nat, totalImages: nat, totalErrors: nat)

  const NoStats := MigrationStats(0, 0, 0, 0, 0, 0)

  /** `if (postId)`: an id that is not `null`, `NaN` or 0. */
  predicate Migrated(o: PostOutcome) {
    o.Returned? && o.id.Some? && o.id.value != 0
  }

  /** How many chunks a post splits into. */
  function ChunkCount(post: WPPost, parseJson: string -> Option<Json.Json>): nat {
    |ChunkSplitter.Chunks(post.content, parseJson)|
  }

  /** How many distinct images a post's chunks hold, or 0 when images are skipped. */
  function ImageCount(post: WPPost, options: MigrationOptions, parseJson: string -> Option<Json.Json>,
                      parseHtml: string -> seq<DomNode>): nat {
    if options.skipImages then 0 else |PostImages(parseHtml, ChunkSplitter.Chunks(post.content, parseJson))|
  }

  /** One more post, with its chunk and image counts and its outcome: one success or one failure. */
  function Count(prev: MigrationStats, chunks: nat, images: nat, outcome: PostOutcome): MigrationStats {
    if Migrated(outcome) then
      MigrationStats(prev.totalPosts + 1, prev.successfulPosts + 1, prev.failedPosts,
                     prev.totalChunks + chunks, prev.totalImages + images, prev.totalErrors)
    else
      MigrationStats(prev.totalPosts + 1, prev.successfulPosts, prev.failedPosts + 1,
                     prev.totalChunks + chunks, prev.totalImages + images, prev.totalErrors + 1)
  }

  /** The counters after `posts`, added up post by post. */
  function Counters(posts: seq<WPPost>, options: MigrationOptions, parseJson: string -> Option<Json.Json>,
                    parseHtml: string -> seq<DomNode>, migratePost: WPPost -> PostOutcome): MigrationStats
  {
    if posts == [] then NoStats
    else
      var post := posts[|posts| - 1];
      Count(Counters(Seqs.Init(posts), options, parseJson, parseHtml, migratePost),
            ChunkCount(post, parseJson), ImageCount(post, options, parseJson, parseHtml), migratePost(post))
  }

  predicate NoneThrew(posts: seq<WPPost>, migratePost: WPPost -> PostOutcome) {
    forall k :: 0 <= k < |posts| ==> migratePost(posts[k]).Returned?
  }

  /** The run is aborted by the `k`-th post, the first whose migration threw. */
  predicate FirstThrow(posts: seq<WPPost>, migratePost: WPPost -> PostOutcome, k: nat) {
    k < |posts| && migratePost(posts[k]).Threw? && NoneThrew(posts[..k], migratePost)
  }

  lemma CountersStep(posts: seq<WPPost>, i: nat, options: MigrationOptions, parseJson: string -> Option<Json.Json>,
                     parseHtml: string -> seq<DomNode>, migratePost: WPPost -> PostOutcome)
    requires i < |posts|
    ensures Counters(posts[..i + 1], options, parseJson, parseHtml, migratePost)
         == Count(Counters(posts[..i], options, parseJson, parseHtml, migratePost), ChunkCount(posts[i], parseJson),
                  ImageCount(posts[i], options, parseJson, parseHtml), migratePost(posts[i]))
  {
    Seqs.InitOfSnoc(posts[..i], posts[i]);
    assert posts[..i + 1] == posts[..i] + [posts[i]];
  }

  /**
   * `migrate`, over the posts already fetched and with `migratePost` as given outcomes: with no
   * posts every counter is 0; otherwise each post adds its chunks and images and counts as a
   * success or a failure. Without `continueOnError` the first post whose migration throws aborts
   * the run with its exception.
   */
  method Migrate(posts: seq<WPPost>, options: MigrationOptions, parseJson: string -> Option<Json.Json>,
                 parseHtml: string -> seq<DomNode>, migratePost: WPPost -> PostOutcome)
    returns (r: Result<MigrationStats, string>)
    ensures posts == [] ==> r == Ok(NoStats)
    ensures r.Ok? ==> r.value == Counters(posts, options, parseJson, parseHtml, migratePost)
    ensures r.Ok? <==> !FailFast(options) || NoneThrew(posts, migratePost)
    ensures r.Err? ==> exists k: nat :: FirstThrow(posts, migratePost, k) && r.error == migratePost(posts[k]).message
  {
    if |posts| == 0 {
      return Ok(NoStats);
    }
    var stats := NoStats;
    for i := 0 to |posts|
      invariant stats == Counters(posts[..i], options, parseJson, parseHtml, migratePost)
      invariant FailFast(options) ==> NoneThrew(posts[..i], migratePost)
    {
      var post := posts[i];
      var chunks := ChunkSplitter.SplitIntoChunks(post.content, parseJson);
      var images: nat := 0;
      if !options.skipImages {
        var found := Extract.ExtractImagesFromChunks(parseHtml, Htmls(chunks));
        images := |found|;
      }
      var outcome := migratePost(post);
      if outcome.Threw? && FailFast(options) {
        assert FirstThrow(posts, migratePost, i);
        return Err(outcome.message);
      }
      CountersStep(posts, i, options, parseJson, parseHtml, migratePost);
      if FailFast(options) {
        NoneThrewStep(posts, i, migratePost);
      }
      stats := Count(stats, |chunks|, images, outcome);
    }
    assert posts[..|posts|] == posts;
    r := Ok(stats);
  }

  lemma NoneThrewStep(posts: seq<WPPost>, i: nat, migratePost: WPPost -> PostOutcome)
    requires i < |posts| && NoneThrew(posts[..i], migratePost) && migratePost(posts[i]).Returned?
    ensures NoneThrew(posts[..i + 1], migratePost)
  {
    assert forall k :: 0 <= k < i ==> posts[..i + 1][k] == posts[..i][k];
  }

  /** Every post counts once, as a success or a failure, and every failure is one error. */
  lemma {:induction false} CountersAddUp(posts: seq<WPPost>, options: MigrationOptions, parseJson: string -> Option<Json.Json>,
                                         parseHtml: string -> seq<DomNode>, migratePost: WPPost -> PostOutcome)
    ensures var s := Counters(posts, options, parseJson, parseHtml, migratePost);
      s.totalPosts == |posts| && s.successfulPosts + s.failedPosts == |posts| && s.totalErrors == s.failedPosts
  {
    if posts != [] {
      CountersAddUp(Seqs.Init(posts), options, parseJson, parseHtml, migratePost);
    }
  }

  /** With images skipped no image is counted. */
  lemma {:induction false} SkippedImagesNotCounted(posts: seq<WPPost>, options: MigrationOptions, parseJson: string -> Option<Json.Json>,
                                                   parseHtml: string -> seq<DomNode>, migratePost: WPPost -> PostOutcome)
    requires options.skipImages
    ensures Counters(posts, options, parseJson, parseHtml, migratePost).totalImages == 0
  {
    if posts != [] {
      SkippedImagesNotCounted(Seqs.Init(posts), options, parseJson, parseHtml, migratePost);
    }
  }
}
