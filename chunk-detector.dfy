/**
 * The chunk detector: refines each chunk's declared type through the registry,
 * reports how the refined type converts, and rates how sure the refinement is.
 */
module ChunkDetector {
  import opened Wrappers
  import opened Strings
  import opened Types
  import Constants
  import Registry
  import Seqs

  /** What the detector concludes about one chunk. */
  datatype ChunkDetection = ChunkDetection(
    typ: string,
    isLexicalSupported: bool,
    isCmsBlock: bool,
    cmsBlockSlug: Option<Constants.CmsBlock>,
    confidence: real)

  /** `!chunk.rawComment`: the chunk has no block comment, or an empty one. */
  predicate NoComment(c: WPChunk) {
    c.rawComment.None? || c.rawComment.value == []
  }

  /** The confidence rule, applied in order: declared match, missing comment, embed provider. */
  function Confidence(c: WPChunk, detected: string): (r: real)
    ensures r == 0.6 || r == 0.7 || r == 0.8 || r == 0.9 || r == 0.95
  {
    var byMatch := if detected == c.typ then 0.95 else 0.8;
    var byComment := if NoComment(c) then 0.7 else byMatch;
    if detected == Constants.Embed then
      (if Contains(c.html, "youtube") || Contains(c.html, "youtu.be") then 0.9 else 0.6)
    else byComment
  }

  /** `detectChunk`. */
  function DetectChunk(c: WPChunk): (d: ChunkDetection)
    ensures d.isCmsBlock <==> d.cmsBlockSlug.Some?
    ensures d.isLexicalSupported ==> !d.isCmsBlock
    ensures d.typ != []
  {
    var t := Registry.DetectBlockType(c.html, c.typ, c.attributes);
    Registry.MappedTypesAreNotLexical(t);
    ChunkDetection(t, Registry.IsLexicalSupported(t), Registry.HasCmsBlockMapping(t),
      if Registry.HasCmsBlockMapping(t) then Registry.GetCmsBlockMapping(t) else None,
      Confidence(c, t))
  }

  /** The detection agrees with the registry for the refined type. */
  lemma DetectionAgreesWithRegistry(c: WPChunk)
    ensures var d := DetectChunk(c);
      d.typ == Registry.DetectBlockType(c.html, c.typ, c.attributes)
      && (d.isLexicalSupported <==> Registry.IsLexicalSupported(d.typ))
      && (d.isCmsBlock <==> Registry.HasCmsBlockMapping(d.typ))
      && d.cmsBlockSlug == Registry.GetCmsBlockMapping(d.typ)
  {
    var t := Registry.DetectBlockType(c.html, c.typ, c.attributes);
    assert Registry.GetCmsBlockMapping(t).Some? <==> Registry.HasCmsBlockMapping(t);
  }

  /** Confidence in terms of the chunk: 0.95 for a kept type, 0.8 for a refined one, 0.7 without a comment, and for embeds 0.9 or 0.6 by whether YouTube is mentioned. */
  lemma ConfidenceRule(c: WPChunk)
    ensures var d := DetectChunk(c);
      && (d.typ == Constants.Embed ==> (d.confidence == 0.9 <==> Contains(c.html, "youtube") || Contains(c.html, "youtu.be")))
      && (d.typ == Constants.Embed ==> (d.confidence == 0.6 <==> !Contains(c.html, "youtube") && !Contains(c.html, "youtu.be")))
      && (d.typ != Constants.Embed && NoComment(c) ==> d.confidence == 0.7)
      && (d.typ != Constants.Embed && !NoComment(c) ==> (d.confidence == 0.95 <==> d.typ == c.typ))
      && (d.typ != Constants.Embed && !NoComment(c) ==> (d.confidence == 0.8 <==> d.typ != c.typ))
  {
  }

  /** `getChunkStrategy`. */
  function GetChunkStrategy(c: WPChunk): (s: Registry.Strategy)
    ensures s == Registry.GetConversionStrategy(DetectChunk(c).typ)
  {
    var d := DetectChunk(c);
    if d.isLexicalSupported then Registry.LexicalStrategy
    else if d.isCmsBlock then Registry.CmsBlockStrategy
    else Registry.CustomStrategy
  }

  /** `batchDetectChunks`. */
  function BatchDetectChunks(chunks: seq<WPChunk>): (ds: seq<ChunkDetection>)
    ensures |ds| == |chunks|
    ensures forall i :: 0 <= i < |chunks| ==> ds[i] == DetectChunk(chunks[i])
  {
    seq(|chunks|, i requires 0 <= i < |chunks| => DetectChunk(chunks[i]))
  }

  /** Chunks whose strategy is `s`. */
  function HasStrategy(s: Registry.Strategy): (p: WPChunk -> bool)
    ensures forall c :: p(c) == (GetChunkStrategy(c) == s)
  {
    c => GetChunkStrategy(c) == s
  }

  /** `filterChunksByStrategy`. */
  function FilterChunksByStrategy(chunks: seq<WPChunk>, s: Registry.Strategy): (r: seq<WPChunk>)
    ensures forall k :: 0 <= k < |r| ==> GetChunkStrategy(r[k]) == s
  {
    Seqs.Filter(chunks, HasStrategy(s))
  }

  /** The filter keeps exactly the chunks with the strategy, in their original order. */
  lemma FilterExactly(chunks: seq<WPChunk>, s: Registry.Strategy)
    ensures forall c :: c in FilterChunksByStrategy(chunks, s) <==> c in chunks && GetChunkStrategy(c) == s
    ensures forall a, b :: chunks == a + b ==>
      FilterChunksByStrategy(chunks, s) == FilterChunksByStrategy(a, s) + FilterChunksByStrategy(b, s)
  {
    var p := HasStrategy(s);
    forall c | c in chunks && GetChunkStrategy(c) == s ensures c in FilterChunksByStrategy(chunks, s) {
      var i :| 0 <= i < |chunks| && chunks[i] == c;
      Seqs.FilterKeeps(chunks, p, i);
    }
    forall c | c in FilterChunksByStrategy(chunks, s) ensures c in chunks {
      Seqs.FilterSubset(chunks, p, c);
    }
    forall a, b | chunks == a + b
      ensures FilterChunksByStrategy(chunks, s) == FilterChunksByStrategy(a, s) + FilterChunksByStrategy(b, s)
    {
      Seqs.FilterAppend(a, b, p);
    }
  }

  /** The three filters split the chunks: their sizes add up to the number of chunks. */
  lemma {:induction false} FiltersPartition(chunks: seq<WPChunk>)
    ensures |FilterChunksByStrategy(chunks, Registry.LexicalStrategy)|
      + |FilterChunksByStrategy(chunks, Registry.CmsBlockStrategy)|
      + |FilterChunksByStrategy(chunks, Registry.CustomStrategy)| == |chunks|
  {
    if chunks != [] {
      FiltersPartition(chunks[1..]);
      var c := chunks[0];
      assert forall s ::
        |FilterChunksByStrategy(chunks, s)| == (if GetChunkStrategy(c) == s then 1 else 0) + |FilterChunksByStrategy(chunks[1..], s)|;
    }
  }

  /** `validateDetection`: a detection is valid exactly when it names a type; low confidence only warns. */
  function ValidateDetection(d: ChunkDetection): (ok: bool)
    ensures ok <==> d.typ != []
  {
    d.typ != []
  }

  /** Every detection the detector produces is valid. */
  lemma DetectionsAreValid(c: WPChunk)
    ensures ValidateDetection(DetectChunk(c))
  {
  }
}
