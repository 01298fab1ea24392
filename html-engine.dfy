/**
 * The conversion engine: each WordPress chunk is routed, by the type detected for it, to the
 * Lexical converter, to a Payload block converter, or to a best-effort Lexical conversion, and
 * the results of a whole post are gathered with per-chunk prefixes and counters.
 */
module HtmlEngine {
  import opened Wrappers
  import opened Strings
  import opened Types
  import Seqs
  import JsMaps
  import Registry
  import Upload
  import Lexical
  import UnsupportedBlocks

  /** The chunk the converters receive: the detected type in place of the declared one, everything else kept. */
  function DetectedChunk(chunk: WPChunk): (d: WPChunk)
    ensures d.typ == Registry.DetectBlockType(chunk.html, chunk.typ, chunk.attributes)
    ensures d.html == chunk.html && d.attributes == chunk.attributes
    ensures d.rawComment == chunk.rawComment && d.index == chunk.index
  {
    chunk.(typ := Registry.DetectBlockType(chunk.html, chunk.typ, chunk.attributes))
  }

  function NotRecognized(typ: string): string {
    "Block type \"" + typ + "\" not recognized, conversion may be incomplete"
  }

  /** The `custom` strategy: the Lexical result when it succeeds, else its errors behind a "not recognized" warning. */
  function CustomResult(typ: string, lexical: ConversionResult): ConversionResult {
    if lexical.success then lexical
    else ConversionResult([], [NotRecognized(typ)], lexical.errors, false)
  }

  /** What the Lexical converter gives for a chunk, before any upload of this chunk. */
  function LexicalOf(env: UnsupportedBlocks.Collaborators, imageMap: JsMaps.JsMap<string, int>, chunk: WPChunk): ConversionResult {
    Lexical.LexicalResult(chunk.html, imageMap, env.parseHtml, env.serializeHtml, env.converter, env.generated)
  }

  /**
   * What a conversion of `chunk` looks like, whatever the store and image map held: a Lexical
   * result has no warnings and fails with exactly one error; a Payload block result fails without
   * nodes and succeeds with blocks only; a custom result that fails carries the "not recognized"
   * warning and the one Lexical error.
   */
  predicate Fits(chunk: WPChunk, r: ConversionResult) {
    var d := DetectedChunk(chunk);
    match Registry.GetConversionStrategy(d.typ)
    case LexicalStrategy =>
      r.warnings == [] && (r.success <==> r.errors == []) && (!r.success ==> r.nodes == [] && |r.errors| == 1)
      && forall k :: 0 <= k < |r.nodes| ==> r.nodes[k].Lex?
    case CmsBlockStrategy =>
      UnsupportedBlocks.Shaped(r)
    case CustomStrategy =>
      (r.success ==> r.warnings == [] && r.errors == [] && forall k :: 0 <= k < |r.nodes| ==> r.nodes[k].Lex?)
      && (!r.success ==> r.nodes == [] && r.warnings == [NotRecognized(d.typ)] && |r.errors| == 1)
  }

  /** Each of `results` fits the chunk it came from. */
  predicate AllFit(chunks: seq<WPChunk>, results: seq<ConversionResult>)
    requires |results| <= |chunks|
  {
    forall k :: 0 <= k < |results| ==> Fits(chunks[k], results[k])
  }

  /** A result that fits its chunk extends the results that fit theirs. */
  lemma AllFitSnoc(chunks: seq<WPChunk>, results: seq<ConversionResult>, r: ConversionResult)
    requires |results| < |chunks| && AllFit(chunks, results) && Fits(chunks[|results|], r)
    ensures AllFit(chunks, results + [r])
  {
    assert forall k :: 0 <= k < |results| ==> (results + [r])[k] == results[k];
  }

  /** Results that fit all chunks but the last, and one that fits the last, fit all the chunks. */
  lemma AllFitLast(chunks: seq<WPChunk>, results: seq<ConversionResult>, r: ConversionResult)
    requires |chunks| > 0 && |results| == |chunks| - 1
    requires AllFit(Seqs.Init(chunks), results) && Fits(chunks[|chunks| - 1], r)
    ensures AllFit(chunks, results + [r])
  {
    forall k | 0 <= k < |results| ensures Fits(chunks[k], results[k]) {
      assert Seqs.Init(chunks)[k] == chunks[k];
    }
    AllFitSnoc(chunks, results, r);
  }

  /** Whatever the strategy, a failed chunk contributes no nodes. */
  lemma FailedChunkHasNoNodes(chunk: WPChunk, r: ConversionResult)
    requires Fits(chunk, r)
    ensures !r.success ==> r.nodes == []
  {
    match Registry.GetConversionStrategy(DetectedChunk(chunk).typ)
    case LexicalStrategy =>
    case CmsBlockStrategy =>
    case CustomStrategy =>
  }

  /** Only the Payload block converters upload media or record uploaded images. */
  predicate UploadsFor(chunk: WPChunk) {
    Registry.GetConversionStrategy(DetectedChunk(chunk).typ) == Registry.CmsBlockStrategy
  }

  /**
   * What `convertChunk` does against the collection `m` and the shared map `imageMap`: the chunk's
   * type is detected, then it is converted to Lexical, handed to the block router, or converted to
   * Lexical with a "not recognized" warning when that fails. Only the router uploads or records.
   */
  function ChunkStep(env: UnsupportedBlocks.Collaborators, m: Upload.Media, imageMap: JsMaps.JsMap<string, int>, chunk: WPChunk,
                     fetch: string -> Upload.FetchResult, now: nat, lookupFails: bool, createError: Option<string>)
    : (s: UnsupportedBlocks.BlockStep)
    requires imageMap.Valid()
    ensures s.imageMap.Valid()
    ensures !UploadsFor(chunk) ==> s.media == m && s.imageMap == imageMap
  {
    var d := DetectedChunk(chunk);
    match Registry.GetConversionStrategy(d.typ)
    case LexicalStrategy => UnsupportedBlocks.BlockStep(LexicalOf(env, imageMap, d), m, imageMap)
    case CustomStrategy => UnsupportedBlocks.BlockStep(CustomResult(d.typ, LexicalOf(env, imageMap, d)), m, imageMap)
    case CmsBlockStrategy => UnsupportedBlocks.BlockOf(env, m, imageMap, d, fetch, now, lookupFails, createError)
  }

  /** Every chunk's result fits its chunk, whatever the collection and map held. */
  lemma ChunkStepFits(env: UnsupportedBlocks.Collaborators, m: Upload.Media, imageMap: JsMaps.JsMap<string, int>, chunk: WPChunk,
                      fetch: string -> Upload.FetchResult, now: nat, lookupFails: bool, createError: Option<string>)
    requires imageMap.Valid()
    ensures Fits(chunk, ChunkStep(env, m, imageMap, chunk, fetch, now, lookupFails, createError).result)
  {
    var d := DetectedChunk(chunk);
    if Registry.GetConversionStrategy(d.typ) == Registry.CmsBlockStrategy {
      UnsupportedBlocks.BlockShaped(env, m, imageMap, d, fetch, now, lookupFails, createError);
    }
  }

  /**
   * `convertChunk`: detects the chunk's type, then converts it to Lexical, to a Payload block, or
   * tries Lexical and reports the type as not recognized when that fails. Only the block
   * converters upload anything.
   */
  method ConvertChunk(env: UnsupportedBlocks.Collaborators, store: Upload.MediaStore, imageMap: JsMaps.MapObject<string, int>,
                      chunk: WPChunk, fetch: string -> Upload.FetchResult, now: nat)
    returns (r: ConversionResult)
    requires imageMap.contents.Valid()
    modifies store, imageMap
    ensures store.lookupFails == old(store.lookupFails) && store.createError == old(store.createError)
    ensures UnsupportedBlocks.BlockStep(r, Upload.Media(store.docs, store.nextId), imageMap.contents)
      == ChunkStep(env, Upload.Media(old(store.docs), old(store.nextId)), old(imageMap.contents), chunk, fetch, now,
                   old(store.lookupFails), old(store.createError))
    ensures Fits(chunk, r)
    ensures !UploadsFor(chunk) ==> imageMap.contents == old(imageMap.contents) && unchanged(store)
  {
    ChunkStepFits(env, Upload.Media(store.docs, store.nextId), imageMap.contents, chunk, fetch, now, store.lookupFails, store.createError);
    var detected := DetectedChunk(chunk);
    var strategy := Registry.GetConversionStrategy(detected.typ);
    match strategy {
      case LexicalStrategy =>
        r := Lexical.ConvertToLexical(detected, imageMap.contents, env.parseHtml, env.serializeHtml, env.converter, env.generated);
      case CmsBlockStrategy =>
        r := UnsupportedBlocks.ConvertUnsupportedBlock(env, store, imageMap, detected, fetch, now);
      case CustomStrategy =>
        var lexical := Lexical.ConvertToLexical(detected, imageMap.contents, env.parseHtml, env.serializeHtml, env.converter, env.generated);
        if !lexical.success {
          return ConversionResult([], [NotRecognized(detected.typ)], lexical.errors, false);
        }
        r := lexical;
    }
  }

  /** The results of a run of chunks, in order, with the collection and shared map it leaves. */
  datatype Run = Run(results: seq<ConversionResult>, media: Upload.Media, imageMap: JsMaps.JsMap<string, int>)

  /** The chunks converted one after another, each against the collection and map the earlier ones left. */
  function RunAll(env: UnsupportedBlocks.Collaborators, m: Upload.Media, imageMap: JsMaps.JsMap<string, int>, chunks: seq<WPChunk>,
                  fetch: string -> Upload.FetchResult, now: nat, lookupFails: bool, createError: Option<string>): (run: Run)
    requires imageMap.Valid()
    ensures run.imageMap.Valid() && |run.results| == |chunks|
  {
    if chunks == [] then Run([], m, imageMap)
    else
      var prev := RunAll(env, m, imageMap, Seqs.Init(chunks), fetch, now, lookupFails, createError);
      var s := ChunkStep(env, prev.media, prev.imageMap, chunks[|chunks| - 1], fetch, now, lookupFails, createError);
      Run(prev.results + [s.result], s.media, s.imageMap)
  }

  /** Converting one more chunk extends the run by that chunk's step. */
  lemma RunAllStep(env: UnsupportedBlocks.Collaborators, m: Upload.Media, imageMap: JsMaps.JsMap<string, int>, chunks: seq<WPChunk>,
                   i: nat, fetch: string -> Upload.FetchResult, now: nat, lookupFails: bool, createError: Option<string>)
    requires imageMap.Valid() && i < |chunks|
    ensures var prev := RunAll(env, m, imageMap, chunks[..i], fetch, now, lookupFails, createError);
      var s := ChunkStep(env, prev.media, prev.imageMap, chunks[i], fetch, now, lookupFails, createError);
      RunAll(env, m, imageMap, chunks[..i + 1], fetch, now, lookupFails, createError) == Run(prev.results + [s.result], s.media, s.imageMap)
  {
    Seqs.TakeSnoc(chunks, i);
    Seqs.InitOfSnoc(chunks[..i], chunks[i]);
  }

  /** Every result of a run fits the chunk it came from. */
  lemma {:induction false} RunAllFits(env: UnsupportedBlocks.Collaborators, m: Upload.Media, imageMap: JsMaps.JsMap<string, int>,
                                      chunks: seq<WPChunk>, fetch: string -> Upload.FetchResult, now: nat,
                                      lookupFails: bool, createError: Option<string>)
    requires imageMap.Valid()
    ensures AllFit(chunks, RunAll(env, m, imageMap, chunks, fetch, now, lookupFails, createError).results)
  {
    if chunks != [] {
      var init := Seqs.Init(chunks);
      var prev := RunAll(env, m, imageMap, init, fetch, now, lookupFails, createError);
      RunAllFits(env, m, imageMap, init, fetch, now, lookupFails, createError);
      var s := ChunkStep(env, prev.media, prev.imageMap, chunks[|chunks| - 1], fetch, now, lookupFails, createError);
      ChunkStepFits(env, prev.media, prev.imageMap, chunks[|chunks| - 1], fetch, now, lookupFails, createError);
      assert RunAll(env, m, imageMap, chunks, fetch, now, lookupFails, createError).results == prev.results + [s.result];
      AllFitLast(chunks, prev.results, s.result);
    }
  }

  /** The `i`-th chunk converted after the first `i`, extending their run. */
  method ConvertNext(env: UnsupportedBlocks.Collaborators, store: Upload.MediaStore, imageMap: JsMaps.MapObject<string, int>,
                     chunks: seq<WPChunk>, i: nat, fetch: string -> Upload.FetchResult, now: nat,
                     ghost m0: Upload.Media, ghost map0: JsMaps.JsMap<string, int>, ghost results: seq<ConversionResult>)
    returns (result: ConversionResult)
    requires i < |chunks| && map0.Valid()
    requires Run(results, Upload.Media(store.docs, store.nextId), imageMap.contents)
      == RunAll(env, m0, map0, chunks[..i], fetch, now, store.lookupFails, store.createError)
    modifies store, imageMap
    ensures store.lookupFails == old(store.lookupFails) && store.createError == old(store.createError)
    ensures Run(results + [result], Upload.Media(store.docs, store.nextId), imageMap.contents)
      == RunAll(env, m0, map0, chunks[..i + 1], fetch, now, store.lookupFails, store.createError)
    ensures Fits(chunks[i], result)
  {
    RunAllStep(env, m0, map0, chunks, i, fetch, now, store.lookupFails, store.createError);
    result := ConvertChunk(env, store, imageMap, chunks[i], fetch, now);
  }

  /** `convertChunks`: one result per chunk, in order, each chunk converted against what the earlier ones left. */
  method ConvertChunks(env: UnsupportedBlocks.Collaborators, store: Upload.MediaStore, imageMap: JsMaps.MapObject<string, int>,
                       chunks: seq<WPChunk>, fetch: string -> Upload.FetchResult, now: nat)
    returns (results: seq<ConversionResult>)
    requires imageMap.contents.Valid()
    modifies store, imageMap
    ensures store.lookupFails == old(store.lookupFails) && store.createError == old(store.createError)
    ensures Run(results, Upload.Media(store.docs, store.nextId), imageMap.contents)
      == RunAll(env, Upload.Media(old(store.docs), old(store.nextId)), old(imageMap.contents), chunks, fetch, now,
                old(store.lookupFails), old(store.createError))
    ensures |results| == |chunks| && forall k :: 0 <= k < |chunks| ==> Fits(chunks[k], results[k])
  {
    ghost var m0 := Upload.Media(store.docs, store.nextId);
    ghost var map0 := imageMap.contents;
    results := [];
    for i := 0 to |chunks|
      invariant store.lookupFails == old(store.lookupFails) && store.createError == old(store.createError)
      invariant Run(results, Upload.Media(store.docs, store.nextId), imageMap.contents)
        == RunAll(env, m0, map0, chunks[..i], fetch, now, store.lookupFails, store.createError)
    {
      var result := ConvertNext(env, store, imageMap, chunks, i, fetch, now, m0, map0, results);
      results := results + [result];
    }
    assert chunks[..|chunks|] == chunks;
    RunAllFits(env, m0, map0, chunks, fetch, now, store.lookupFails, store.createError);
  }

  // ---------------------------------------------------------------- Statistics

  datatype Stats = Stats(total: nat, successful: nat, failed: nat, skipped: nat)

  /** What `convertChunksWithStats` returns for a whole post. */
  datatype Combined = Combined(nodes: seq<ConvertedNode>, warnings: seq<string>, errors: seq<string>, stats: Stats)

  /** The lists and counters gathered from the chunks converted so far. */
  datatype Tally = Tally(nodes: seq<ConvertedNode>, warnings: seq<string>, errors: seq<string>, successful: nat, failed: nat)

  function ChunkPrefix(index: nat): string {
    "[Chunk " + NatToString(index) + "] "
  }

  /** Each message tagged with the chunk it came from. */
  function Prefixed(index: nat, messages: seq<string>): (r: seq<string>)
    ensures |r| == |messages| && forall k :: 0 <= k < |r| ==> r[k] == ChunkPrefix(index) + messages[k]
  {
    seq(|messages|, k requires 0 <= k < |messages| => ChunkPrefix(index) + messages[k])
  }

  /** One more chunk's result: its nodes and warnings when it succeeded, its errors when it failed. */
  function Add(t: Tally, index: nat, r: ConversionResult): Tally {
    if r.success then Tally(t.nodes + r.nodes, t.warnings + Prefixed(index, r.warnings), t.errors, t.successful + 1, t.failed)
    else Tally(t.nodes, t.warnings, t.errors + Prefixed(index, r.errors), t.successful, t.failed + 1)
  }

  /** The tally of `results`, the k-th the result for `chunks[k]`. */
  function Gather(chunks: seq<WPChunk>, results: seq<ConversionResult>): Tally
    requires |chunks| == |results|
  {
    if results == [] then Tally([], [], [], 0, 0)
    else Add(Gather(Seqs.Init(chunks), Seqs.Init(results)), chunks[|chunks| - 1].index, results[|results| - 1])
  }

  function WithStats(chunks: seq<WPChunk>, t: Tally): Combined {
    Combined(t.nodes, t.warnings, t.errors, Stats(|chunks|, t.successful, t.failed, 0))
  }

  function FailureMessage(index: nat, r: ConversionResult): string {
    "Conversion failed for chunk " + NatToString(index) + ": " + Join(r.errors, ", ")
  }

  predicate AllSucceeded(results: seq<ConversionResult>) {
    forall k :: 0 <= k < |results| ==> results[k].success
  }

  /** The conversion was aborted by its last result, the first that failed, with `error`. */
  predicate AbortedAt(chunks: seq<WPChunk>, results: seq<ConversionResult>, error: string) {
    0 < |results| <= |chunks|
    && AllSucceeded(results[..|results| - 1])
    && !results[|results| - 1].success
    && error == FailureMessage(chunks[|results| - 1].index, results[|results| - 1])
  }

  /** Gathering one more result adds it to the tally of the earlier ones. */
  lemma GatherStep(chunks: seq<WPChunk>, results: seq<ConversionResult>, r: ConversionResult)
    requires |results| < |chunks|
    ensures Gather(chunks[..|results| + 1], results + [r]) == Add(Gather(chunks[..|results|], results), chunks[|results|].index, r)
  {
    var i := |results|;
    var cs, rs := chunks[..i + 1], results + [r];
    Seqs.TakeSnoc(chunks, i);
    Seqs.InitOfSnoc(chunks[..i], chunks[i]);
    Seqs.InitOfSnoc(results, r);
    assert Seqs.Init(cs) == chunks[..i] && Seqs.Init(rs) == results;
    assert cs[|cs| - 1] == chunks[i] && rs[|rs| - 1] == r;
  }

  lemma SucceededSnoc(results: seq<ConversionResult>, r: ConversionResult)
    requires AllSucceeded(results) && r.success
    ensures AllSucceeded(results + [r])
  {
    assert forall k :: 0 <= k < |results| ==> (results + [r])[k] == results[k];
  }

  /** The first failure after a run of successes is the one the conversion aborts on. */
  lemma AbortedAtSnoc(chunks: seq<WPChunk>, results: seq<ConversionResult>, r: ConversionResult)
    requires |results| < |chunks| && AllSucceeded(results) && !r.success
    ensures AbortedAt(chunks, results + [r], FailureMessage(chunks[|results|].index, r))
  {
    assert (results + [r])[..|results|] == results;
  }

  /**
   * `convertChunksWithStats`: converts the chunks in order, keeping the nodes and (prefixed)
   * warnings of those that succeed and the (prefixed) errors of those that fail. Without
   * `continueOnError` the first failure aborts the whole conversion with its message.
   */
  method ConvertChunksWithStats(env: UnsupportedBlocks.Collaborators, store: Upload.MediaStore,
                                imageMap: JsMaps.MapObject<string, int>, chunks: seq<WPChunk>,
                                fetch: string -> Upload.FetchResult, now: nat, continueOnError: bool)
    returns (out: Result<Combined, string>, ghost results: seq<ConversionResult>)
    requires imageMap.contents.Valid()
    modifies store, imageMap
    ensures store.lookupFails == old(store.lookupFails) && store.createError == old(store.createError)
    ensures |results| <= |chunks|
    ensures Run(results, Upload.Media(store.docs, store.nextId), imageMap.contents)
      == RunAll(env, Upload.Media(old(store.docs), old(store.nextId)), old(imageMap.contents), chunks[..|results|], fetch, now,
                old(store.lookupFails), old(store.createError))
    ensures AllFit(chunks, results)
    ensures out.Ok? ==> |results| == |chunks| && out.value == WithStats(chunks, Gather(chunks, results))
    ensures continueOnError ==> out.Ok?
    ensures !continueOnError ==> (out.Ok? <==> |results| == |chunks| && AllSucceeded(results))
    ensures !continueOnError && out.Err? ==> AbortedAt(chunks, results, out.error)
  {
    ghost var m0 := Upload.Media(store.docs, store.nextId);
    ghost var map0 := imageMap.contents;
    var tally := Tally([], [], [], 0, 0);
    results := [];
    var i := 0;
    while i < |chunks|
      invariant 0 <= i <= |chunks| && |results| == i
      invariant store.lookupFails == old(store.lookupFails) && store.createError == old(store.createError)
      invariant Run(results, Upload.Media(store.docs, store.nextId), imageMap.contents)
        == RunAll(env, m0, map0, chunks[..i], fetch, now, store.lookupFails, store.createError)
      invariant AllFit(chunks, results)
      invariant !continueOnError ==> AllSucceeded(results)
      invariant tally == Gather(chunks[..i], results)
    {
      var chunk := chunks[i];
      var result := ConvertNext(env, store, imageMap, chunks, i, fetch, now, m0, map0, results);
      AllFitSnoc(chunks, results, result);
      GatherStep(chunks, results, result);
      if !continueOnError {
        if result.success {
          SucceededSnoc(results, result);
        } else {
          AbortedAtSnoc(chunks, results, result);
        }
      }
      results := results + [result];
      tally := Add(tally, chunk.index, result);
      if !result.success && !continueOnError {
        return Err(FailureMessage(chunk.index, result)), results;
      }
      i := i + 1;
    }
    assert chunks[..i] == chunks;
    out := Ok(WithStats(chunks, tally));
  }

  // ---------------------------------------------------------------- What the tally holds

  predicate Succeeded(r: ConversionResult) {
    r.success
  }

  predicate Failed(r: ConversionResult) {
    !r.success
  }

  function NodesOf(r: ConversionResult): seq<ConvertedNode> {
    r.nodes
  }

  /** Every chunk is counted once, as successful or as failed; none is skipped. */
  lemma {:induction false} GatherCounts(chunks: seq<WPChunk>, results: seq<ConversionResult>)
    requires |chunks| == |results|
    ensures var t := Gather(chunks, results);
      t.successful + t.failed == |results|
      && t.successful == |Seqs.Filter(results, Succeeded)| && t.failed == |Seqs.Filter(results, Failed)|
  {
    if results != [] {
      var init := Seqs.Init(results);
      var last := results[|results| - 1];
      GatherCounts(Seqs.Init(chunks), init);
      assert results == init + [last];
      Seqs.FilterAppend(init, [last], Succeeded);
      Seqs.FilterAppend(init, [last], Failed);
      assert [last][1..] == [];
    }
  }

  /** The nodes are those of the successful chunks, concatenated in chunk order. */
  lemma {:induction false} GatherNodes(chunks: seq<WPChunk>, results: seq<ConversionResult>)
    requires |chunks| == |results|
    ensures Gather(chunks, results).nodes == Seqs.Flatten(Seqs.Map(Seqs.Filter(results, Succeeded), NodesOf))
  {
    if results != [] {
      var init := Seqs.Init(results);
      var last := results[|results| - 1];
      GatherNodes(Seqs.Init(chunks), init);
      assert results == init + [last];
      Seqs.FilterAppend(init, [last], Succeeded);
      assert [last][1..] == [];
      var kept := Seqs.Filter(init, Succeeded);
      if last.success {
        assert Seqs.Filter([last], Succeeded) == [last];
        Seqs.MapAppend(kept, [last], NodesOf);
        Seqs.FlattenSnoc(Seqs.Map(kept, NodesOf), last.nodes);
      } else {
        assert Seqs.Filter([last], Succeeded) == [];
        assert kept + [] == kept;
      }
    }
  }

  /** `m` is a prefixed warning of a chunk that succeeded. */
  ghost predicate WarnedBy(chunks: seq<WPChunk>, results: seq<ConversionResult>, m: string)
    requires |chunks| == |results|
  {
    exists k :: 0 <= k < |results| && results[k].success && m in Prefixed(chunks[k].index, results[k].warnings)
  }

  /** `m` is a prefixed error of a chunk that failed. */
  ghost predicate FailedWith(chunks: seq<WPChunk>, results: seq<ConversionResult>, m: string)
    requires |chunks| == |results|
  {
    exists k :: 0 <= k < |results| && !results[k].success && m in Prefixed(chunks[k].index, results[k].errors)
  }

  /** Warnings come only from successful chunks and errors only from failed ones, each behind its chunk's prefix. */
  lemma {:induction false} GatherMessages(chunks: seq<WPChunk>, results: seq<ConversionResult>)
    requires |chunks| == |results|
    ensures forall m :: m in Gather(chunks, results).warnings ==> WarnedBy(chunks, results, m)
    ensures forall m :: m in Gather(chunks, results).errors ==> FailedWith(chunks, results, m)
  {
    if results != [] {
      var n := |results| - 1;
      var ic := Seqs.Init(chunks);
      var ir := Seqs.Init(results);
      GatherMessages(ic, ir);
      var prev := Gather(ic, ir);
      var t := Gather(chunks, results);
      assert t == Add(prev, chunks[n].index, results[n]);
      forall m | m in t.warnings
        ensures WarnedBy(chunks, results, m)
      {
        if m in prev.warnings {
          assert WarnedBy(ic, ir, m);
          var k :| 0 <= k < |ir| && ir[k].success && m in Prefixed(ic[k].index, ir[k].warnings);
          assert ir[k] == results[k] && ic[k] == chunks[k];
        } else {
          assert results[n].success && m in Prefixed(chunks[n].index, results[n].warnings);
        }
      }
      forall m | m in t.errors
        ensures FailedWith(chunks, results, m)
      {
        if m in prev.errors {
          assert FailedWith(ic, ir, m);
          var k :| 0 <= k < |ir| && !ir[k].success && m in Prefixed(ic[k].index, ir[k].errors);
          assert ir[k] == results[k] && ic[k] == chunks[k];
        } else {
          assert !results[n].success && m in Prefixed(chunks[n].index, results[n].errors);
        }
      }
    }
  }
}
