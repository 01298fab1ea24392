/**
 * Cutting post content into block chunks. A block runs from an opening comment
 * `<!-- wp:T {attrs} -->` to the first closing comment `<!-- /wp:T -->` of the same
 * type (compared without regard to ASCII case); text outside every block becomes
 * one trailing paragraph chunk.
 */
module ChunkSplitter {
  import opened Wrappers
  import opened Strings
  import opened Json
  import opened Types
  import Constants

  /** The characters of a block type token: ASCII letters, digits, '/' and '-'. */
  predicate IsTypeChar(c: char) {
    IsAsciiLetter(c) || IsDigit(c) || c == '/' || c == '-'
  }

  /** The end of the whitespace run starting at `i`. */
  function SpacesFrom(s: string, i: nat): (j: nat)
    requires i <= |s|
    ensures i <= j <= |s|
    decreases |s| - i
  {
    if i < |s| && IsSpace(s[i]) then SpacesFrom(s, i + 1) else i
  }

  /** The run is whitespace and maximal (kept out of the function's contract, which many proofs unfold). */
  lemma {:induction false} SpacesFromRun(s: string, i: nat)
    requires i <= |s|
    ensures forall k :: i <= k < SpacesFrom(s, i) ==> IsSpace(s[k])
    ensures SpacesFrom(s, i) == |s| || !IsSpace(s[SpacesFrom(s, i)])
    decreases |s| - i
  {
    if i < |s| && IsSpace(s[i]) {
      SpacesFromRun(s, i + 1);
    }
  }

  /** The end of the type-token run starting at `i`. */
  function TokenFrom(s: string, i: nat): (j: nat)
    requires i <= |s|
    ensures i <= j <= |s|
    decreases |s| - i
  {
    if i < |s| && IsTypeChar(s[i]) then TokenFrom(s, i + 1) else i
  }

  /** The run is made of type characters and is maximal. */
  lemma {:induction false} TokenFromRun(s: string, i: nat)
    requires i <= |s|
    ensures forall k :: i <= k < TokenFrom(s, i) ==> IsTypeChar(s[k])
    ensures TokenFrom(s, i) == |s| || !IsTypeChar(s[TokenFrom(s, i)])
    decreases |s| - i
  {
    if i < |s| && IsTypeChar(s[i]) {
      TokenFromRun(s, i + 1);
    }
  }

  /** `<!--` at `p`. */
  predicate CommentOpenAt(s: string, p: nat) {
    p + 4 <= |s| && s[p] == '<' && s[p + 1] == '!' && s[p + 2] == '-' && s[p + 3] == '-'
  }

  /** `-->` at `p`. */
  predicate CommentCloseAt(s: string, p: nat) {
    p + 3 <= |s| && s[p] == '-' && s[p + 1] == '-' && s[p + 2] == '>'
  }

  /** `wp:` at `p`, in any case. */
  predicate WpAt(s: string, p: nat) {
    p + 3 <= |s| && Lower(s[p]) == 'w' && Lower(s[p + 1]) == 'p' && s[p + 2] == ':'
  }

  /** `t` at `i` up to ASCII case, compared from its `k`-th character on (the `\1` back-reference under `i`). */
  predicate TypeAt(s: string, t: string, i: nat, k: nat)
    requires k <= |t|
    decreases |t| - k
  {
    k == |t| || (i + k < |s| && Lower(s[i + k]) == Lower(t[k]) && TypeAt(s, t, i, k + 1))
  }

  /** The first `}` at or after `i`. */
  function BraceFrom(s: string, i: nat): (r: Option<nat>)
    requires i <= |s|
    ensures r.Some? ==> i <= r.value < |s| && s[r.value] == '}'
    decreases |s| - i
  {
    if i == |s| then None else if s[i] == '}' then Some(i) else BraceFrom(s, i + 1)
  }

  /** `[^}]*}`: the brace found is the first one, and nothing is found only when none follows. */
  lemma {:induction false} BraceFromFirst(s: string, i: nat)
    requires i <= |s|
    ensures BraceFrom(s, i).Some? ==> forall k :: i <= k < BraceFrom(s, i).value ==> s[k] != '}'
    ensures BraceFrom(s, i).None? ==> forall k :: i <= k < |s| ==> s[k] != '}'
    decreases |s| - i
  {
    if i < |s| && s[i] != '}' {
      BraceFromFirst(s, i + 1);
    }
  }

  /** `<!--`, optional whitespace and `wp:` (any case) at `p`: the index just after them. */
  function MarkerBody(s: string, p: nat): (r: Option<nat>)
    ensures r.Some? ==> p + 7 <= r.value <= |s|
  {
    if !CommentOpenAt(s, p) then None
    else
      var w := SpacesFrom(s, p + 4);
      if WpAt(s, w) then Some(w + 3) else None
  }

  /** An opening comment: its type token, its attribute text if any, and the index after `-->`. */
  datatype Opening = Opening(typ: string, attrs: Option<string>, end: nat)

  /**
   * The opening comment at `p`, as `<!--\s*wp:([a-z0-9\/-]+)(?:\s+({[^}]*}))?\s*-->` (case-insensitive)
   * matches it: the whole token run, with or without an attribute object, or, when the run ends in
   * `--` right before `>`, the run without those two dashes.
   */
  function OpenAt(s: string, p: nat): (r: Option<Opening>)
    ensures r.Some? ==> p < r.value.end <= |s| && r.value.typ != []
  {
    match MarkerBody(s, p)
    case None => None
    case Some(t0) =>
      var t1 := TokenFrom(s, t0);
      var a := SpacesFrom(s, t1);
      var brace := if a > t1 && a < |s| && s[a] == '{' then BraceFrom(s, a + 1) else None;
      if t1 == t0 then None
      else if brace.Some? && CommentCloseAt(s, SpacesFrom(s, brace.value + 1)) then
        Some(Opening(s[t0..t1], Some(s[a..brace.value + 1]), SpacesFrom(s, brace.value + 1) + 3))
      else if CommentCloseAt(s, a) then Some(Opening(s[t0..t1], None, a + 3))
      else if t1 - t0 >= 3 && s[t1 - 2] == '-' && s[t1 - 1] == '-' && t1 < |s| && s[t1] == '>' then
        Some(Opening(s[t0..t1 - 2], None, t1 + 1))
      else None
  }

  /** An opening's type is a non-empty run of type characters. */
  lemma OpenAtToken(s: string, p: nat)
    requires OpenAt(s, p).Some?
    ensures forall k :: 0 <= k < |OpenAt(s, p).value.typ| ==> IsTypeChar(OpenAt(s, p).value.typ[k])
    ensures MarkerBody(s, p).Some? && MarkerBody(s, p).value < |s| && IsTypeChar(s[MarkerBody(s, p).value])
  {
    TokenFromRun(s, MarkerBody(s, p).value);
  }

  /** The closing comment `<!--\s*\/wp:T\s*-->` for type `t` at `e` (case-insensitive): the index after it. */
  function CloseAt(s: string, t: string, e: nat): (r: Option<nat>)
    ensures r.Some? ==> e < r.value <= |s|
  {
    if !CommentOpenAt(s, e) then None
    else
      var w := SpacesFrom(s, e + 4);
      if !(w < |s| && s[w] == '/' && WpAt(s, w + 1)) || !(w + 4 + |t| <= |s| && TypeAt(s, t, w + 4, 0)) then None
      else
        var x := SpacesFrom(s, w + 4 + |t|);
        if CommentCloseAt(s, x) then Some(x + 3) else None
  }

  /** The first closing comment for `t` at or after `e`: where it starts and where it ends. */
  function FirstClose(s: string, t: string, e: nat): (r: Option<(nat, nat)>)
    requires e <= |s|
    ensures r.Some? ==> e <= r.value.0 < r.value.1 <= |s|
    decreases |s| - e
  {
    if CloseAt(s, t, e).Some? then Some((e, CloseAt(s, t, e).value))
    else if e == |s| then None
    else FirstClose(s, t, e + 1)
  }

  /** The closing comment found is the first one: lazy matching of the block body. */
  lemma {:induction false} FirstCloseIsFirst(s: string, t: string, e: nat)
    requires e <= |s|
    ensures var r := FirstClose(s, t, e);
      && (r.Some? ==> CloseAt(s, t, r.value.0) == Some(r.value.1))
      && (r.Some? ==> forall k :: e <= k < r.value.0 ==> CloseAt(s, t, k).None?)
      && (r.None? ==> forall k :: e <= k <= |s| ==> CloseAt(s, t, k).None?)
    decreases |s| - e
  {
    if CloseAt(s, t, e).None? && e < |s| {
      FirstCloseIsFirst(s, t, e + 1);
    }
  }

  /** One matched block: the opening at `start`, the body `[bodyStart, bodyEnd)` and the closing up to `end`. */
  datatype BlockMatch = BlockMatch(start: nat, typ: string, attrs: Option<string>, bodyStart: nat, bodyEnd: nat, end: nat)

  /** The block whose opening comment is at `p`, closed lazily by the first closing comment of its type. */
  function BlockAt(s: string, p: nat): (r: Option<BlockMatch>)
    ensures r.Some? ==> r.value.start == p < r.value.bodyStart <= r.value.bodyEnd < r.value.end <= |s|
  {
    match OpenAt(s, p)
    case None => None
    case Some(o) =>
      match FirstClose(s, o.typ, o.end)
      case None => None
      case Some(c) => Some(BlockMatch(p, o.typ, o.attrs, o.end, c.0, c.1))
  }

  /**
   * A block is its opening comment followed by the first closing comment carrying the same type:
   * inner blocks of other types, and text that only looks like a closing comment, stay in the body.
   */
  lemma BlockAtCloses(s: string, p: nat)
    requires BlockAt(s, p).Some?
    ensures var m := BlockAt(s, p).value;
      && OpenAt(s, p) == Some(Opening(m.typ, m.attrs, m.bodyStart))
      && CloseAt(s, m.typ, m.bodyEnd) == Some(m.end)
      && forall k :: m.bodyStart <= k < m.bodyEnd ==> CloseAt(s, m.typ, k).None?
  {
    FirstCloseIsFirst(s, OpenAt(s, p).value.typ, OpenAt(s, p).value.end);
  }

  /** Without any closing comment of its type after it, an opening comment starts no block. */
  lemma UnclosedOpeningIsNoBlock(s: string, p: nat)
    requires OpenAt(s, p).Some?
    requires forall k :: OpenAt(s, p).value.end <= k <= |s| ==> CloseAt(s, OpenAt(s, p).value.typ, k).None?
    ensures BlockAt(s, p).None?
  {
    var o := OpenAt(s, p).value;
    FirstCloseIsFirst(s, o.typ, o.end);
  }

  /** The block matcher of a post: what the block pattern matches when tried at each position. */
  function BlockMatcher(s: string): (at: nat -> Option<BlockMatch>)
    ensures forall p :: at(p) == BlockAt(s, p)
  {
    (p: nat) => BlockAt(s, p)
  }

  /** Every match of `at` starts where it is tried and ends within the first `n` characters. */
  ghost predicate Fits(at: nat -> Option<BlockMatch>, n: nat) {
    forall p :: at(p).Some? ==> p == at(p).value.start < at(p).value.bodyStart <= at(p).value.bodyEnd < at(p).value.end <= n
  }

  lemma BlockMatcherFits(s: string)
    ensures Fits(BlockMatcher(s), |s|)
  {
  }

  /**
   * The first match at or after `from`, as a global `exec` resuming at `lastIndex = from` finds it:
   * the matcher is tried at each position in turn.
   */
  function NextBlock(at: nat -> Option<BlockMatch>, from: nat, n: nat): (r: Option<BlockMatch>)
    requires from <= n && Fits(at, n)
    ensures r.Some? ==> from <= r.value.start && at(r.value.start) == r
    ensures r.Some? ==> forall p :: from <= p < r.value.start ==> at(p).None?
    ensures r.None? ==> forall p :: from <= p ==> at(p).None?
    decreases n - from
  {
    if at(from).Some? then at(from)
    else if from == n then None
    else NextBlock(at, from + 1, n)
  }

  /** Every match from `from` on, in order, each search resuming where the previous match ended. */
  function Blocks(at: nat -> Option<BlockMatch>, from: nat, n: nat): (ms: seq<BlockMatch>)
    requires from <= n && Fits(at, n)
    ensures forall k :: 0 <= k < |ms| ==> from <= ms[k].start && at(ms[k].start) == Some(ms[k])
    ensures forall k :: 0 <= k < |ms| - 1 ==> ms[k].end <= ms[k + 1].start
    decreases n - from
  {
    match NextBlock(at, from, n)
    case None => []
    case Some(m) =>
      var rest := Blocks(at, m.end, n);
      assert forall k :: 0 <= k < |rest| ==> m.end <= rest[k].start;
      [m] + rest
  }

  /** One step of the search: the first match, then the matches after it. */
  lemma BlocksStep(at: nat -> Option<BlockMatch>, from: nat, n: nat)
    requires from <= n && Fits(at, n)
    ensures NextBlock(at, from, n).None? ==> Blocks(at, from, n) == []
    ensures NextBlock(at, from, n).Some? ==>
      Blocks(at, from, n) == [NextBlock(at, from, n).value] + Blocks(at, NextBlock(at, from, n).value.end, n)
  {
  }

  lemma AppendAssoc<T>(a: seq<T>, b: seq<T>, c: seq<T>)
    ensures a + (b + c) == (a + b) + c
  {
  }

  /** The text outside every match: `content.replace(blockRegex, '')`. */
  function Outside(s: string, at: nat -> Option<BlockMatch>, from: nat): (r: string)
    requires from <= |s| && Fits(at, |s|)
    ensures |r| <= |s| - from
    decreases |s| - from
  {
    match NextBlock(at, from, |s|)
    case None => s[from..]
    case Some(m) => s[from..m.start] + Outside(s, at, m.end)
  }

  /** The blocks of a post, from its start. */
  function PostBlocks(s: string): (ms: seq<BlockMatch>)
    ensures forall k :: 0 <= k < |ms| ==> BlockAt(s, ms[k].start) == Some(ms[k])
    ensures forall k :: 0 <= k < |ms| ==> ms[k].start < ms[k].bodyStart <= ms[k].bodyEnd < ms[k].end <= |s|
    ensures forall k :: 0 <= k < |ms| - 1 ==> ms[k].end <= ms[k + 1].start
  {
    BlockMatcherFits(s);
    Blocks(BlockMatcher(s), 0, |s|)
  }

  /** The text of a post outside all its blocks. */
  function Leftover(s: string): string {
    BlockMatcherFits(s);
    Outside(s, BlockMatcher(s), 0)
  }

  /** The first position at or after `from` where `f` holds, looking no further than `n`. */
  function FirstWhere(f: nat -> bool, from: nat, n: nat): (r: Option<nat>)
    requires from <= n
    ensures r.Some? ==> from <= r.value <= n && f(r.value)
    ensures r.Some? ==> forall p :: from <= p < r.value ==> !f(p)
    ensures r.None? ==> forall p :: from <= p <= n ==> !f(p)
    decreases n - from
  {
    if f(from) then Some(from) else if from == n then None else FirstWhere(f, from + 1, n)
  }

  /** The positions where an opening comment can be read. */
  function Opens(s: string): (f: nat -> bool)
    ensures forall p :: f(p) == OpenAt(s, p).Some?
  {
    (p: nat) => OpenAt(s, p).Some?
  }

  /** `parseBlockComment`: the first opening comment in the text, with its trimmed type and parsed attributes. */
  function ParseBlockComment(comment: string, parseJson: string -> Option<Json>): (r: Option<WPBlockComment>)
    ensures r.Some? ==> r.value.raw == comment
  {
    match FirstWhere(Opens(comment), 0, |comment|)
    case None => None
    case Some(p) =>
      var o := OpenAt(comment, p).value;
      Some(WPBlockComment(Trim(o.typ), ParseAttrs(parseJson, o.attrs), comment))
  }

  /** A comment parses exactly when it holds an opening somewhere, and then the earliest opening supplies the type. */
  lemma ParseBlockCommentSpec(comment: string, parseJson: string -> Option<Json>)
    ensures ParseBlockComment(comment, parseJson).None? <==> forall p: nat :: OpenAt(comment, p).None?
    ensures ParseBlockComment(comment, parseJson).Some? ==> exists p: nat ::
      OpenAt(comment, p).Some? && ParseBlockComment(comment, parseJson).value.typ == Trim(OpenAt(comment, p).value.typ)
      && forall q: nat :: q < p ==> OpenAt(comment, q).None?
  {
    var f := Opens(comment);
    match FirstWhere(f, 0, |comment|)
    case None =>
      forall p: nat ensures OpenAt(comment, p).None? {
        if p <= |comment| { assert !f(p); }
      }
    case Some(p) =>
      assert f(p);
      assert forall q: nat :: q < p ==> !f(q);
  }

  /** `hasWPBlocks`: `<!--`, optional whitespace, `wp:` and at least one type character somewhere in the text. */
  predicate HasWPBlocks(content: string) {
    exists p :: 0 <= p < |content| && MarkerBody(content, p).Some? && MarkerBody(content, p).value < |content|
      && IsTypeChar(content[MarkerBody(content, p).value])
  }

  /** Every text with a parseable opening comment has blocks by `hasWPBlocks`. */
  lemma ParsedCommentHasBlocks(content: string, parseJson: string -> Option<Json>)
    ensures ParseBlockComment(content, parseJson).Some? ==> HasWPBlocks(content)
  {
    ParseBlockCommentSpec(content, parseJson);
    if ParseBlockComment(content, parseJson).Some? {
      var p: nat :| OpenAt(content, p).Some?;
      OpenAtToken(content, p);
      assert p < |content|;
    }
  }

  /** The converse fails: an opening comment cut off before `-->` counts for `hasWPBlocks` but does not parse. */
  lemma UnterminatedMarkerHasBlocks(parseJson: string -> Option<Json>)
    ensures HasWPBlocks("<!-- wp:x") && ParseBlockComment("<!-- wp:x", parseJson).None?
  {
    var s := "<!-- wp:x";
    assert SpacesFrom(s, 5) == 5;
    assert SpacesFrom(s, 4) == 5;
    assert MarkerBody(s, 0) == Some(8);
    assert TokenFrom(s, 9) == 9;
    assert TokenFrom(s, 8) == 9;
    assert SpacesFrom(s, 9) == 9;
    forall p: nat ensures OpenAt(s, p).None? {
      if p > 0 { assert !CommentOpenAt(s, p); }
    }
    ParseBlockCommentSpec(s, parseJson);
  }

  /** A run of type characters from `i` up to a non-type character at `j` is the token read at `i`. */
  lemma {:induction false} TokenFromExact(s: string, i: nat, j: nat)
    requires i <= j < |s| && !IsTypeChar(s[j])
    requires forall k :: i <= k < j ==> IsTypeChar(s[k])
    ensures TokenFrom(s, i) == j
    decreases j - i
  {
    if i < j { TokenFromExact(s, i + 1, j); }
  }

  /** A self-closing marker such as `<!-- wp:spacer /-->` opens no block, so it stays in the leftover text. */
  lemma SelfClosingNeverOpens(s: string, p: nat, t: string)
    requires t != [] && forall k :: 0 <= k < |t| ==> IsTypeChar(t[k])
    requires OccursAt(s, "<!-- wp:" + t + " /-->", p)
    ensures OpenAt(s, p).None?
  {
    var lit := "<!-- wp:" + t + " /-->";
    assert forall k :: 0 <= k < |lit| ==> s[p + k] == lit[k] by {
      forall k | 0 <= k < |lit| ensures s[p + k] == lit[k] {
        assert s[p..p + |lit|][k] == s[p + k];
      }
    }
    var t1 := p + 8 + |t|;
    assert s[p + 4] == lit[4] == ' ' && s[p + 5] == lit[5] == 'w';
    assert SpacesFrom(s, p + 5) == p + 5;
    assert SpacesFrom(s, p + 4) == p + 5;
    assert s[p + 6] == lit[6] && s[p + 7] == lit[7];
    assert MarkerBody(s, p) == Some(p + 8);
    forall k | p + 8 <= k < t1 ensures IsTypeChar(s[k]) {
      assert s[k] == lit[k - p] == t[k - p - 8];
    }
    assert s[t1] == lit[8 + |t|] == ' ';
    TokenFromExact(s, p + 8, t1);
    assert s[t1 + 1] == lit[9 + |t|] == '/';
    assert SpacesFrom(s, t1 + 1) == t1 + 1;
    assert SpacesFrom(s, t1) == t1 + 1;
  }

  /** `detectBlockTypeFromHTML`: the block type suggested by the first WordPress block class found. */
  function DetectBlockTypeFromHtml(html: string): (t: string)
    ensures t != []
  {
    if Contains(html, "wp-block-gallery") then Constants.Gallery
    else if Contains(html, "wp-block-image") then Constants.Image
    else if Contains(html, "wp-block-heading") then Constants.Heading
    else if Contains(html, "wp-block-list") then Constants.List
    else if Contains(html, "wp-block-quote") then Constants.Quote
    else if Contains(html, "wp-block-table") then Constants.Table
    else if Contains(html, "wp-block-buttons") || Contains(html, "wp-block-button") then Constants.Button
    else if Contains(html, "wp-block-columns") then Constants.Columns
    else if Contains(html, "wp-block-embed") then Constants.Embed
    else Constants.Paragraph
  }
  /** The HTML fallback only ever yields a known block type, the first marker wins, and HTML with no marker is a paragraph. */
  lemma DetectFromHtmlSpec(html: string)
    ensures DetectBlockTypeFromHtml(html) in Constants.WpBlocks
    ensures DetectBlockTypeFromHtml(html) == Constants.Gallery <==> Contains(html, "wp-block-gallery")
    ensures DetectBlockTypeFromHtml(html) == Constants.Paragraph <==>
      !Contains(html, "wp-block-gallery") && !Contains(html, "wp-block-image") && !Contains(html, "wp-block-heading")
      && !Contains(html, "wp-block-list") && !Contains(html, "wp-block-quote") && !Contains(html, "wp-block-table")
      && !Contains(html, "wp-block-buttons") && !Contains(html, "wp-block-button")
      && !Contains(html, "wp-block-columns") && !Contains(html, "wp-block-embed")
  {
  }

  /** Every block class marker starts with `wp-block-`. */
  lemma MarkerNeedsPrefix(html: string, marker: string)
    requires |marker| >= 9 && marker[..9] == "wp-block-"
    ensures Contains(html, marker) ==> Contains(html, "wp-block-")
  {
    assert marker == "wp-block-" + marker[9..];
    ContainsPrefix(html, "wp-block-", marker[9..]);
  }

  /** HTML without any `wp-block-` class is a paragraph. */
  lemma DetectFromHtmlNoMarker(html: string)
    ensures !Contains(html, "wp-block-") ==> DetectBlockTypeFromHtml(html) == Constants.Paragraph
  {
    DetectFromHtmlSpec(html);
    if !Contains(html, "wp-block-") {
      MarkerNeedsPrefix(html, "wp-block-gallery");
      MarkerNeedsPrefix(html, "wp-block-image");
      MarkerNeedsPrefix(html, "wp-block-heading");
      MarkerNeedsPrefix(html, "wp-block-list");
      MarkerNeedsPrefix(html, "wp-block-quote");
      MarkerNeedsPrefix(html, "wp-block-table");
      MarkerNeedsPrefix(html, "wp-block-buttons");
      MarkerNeedsPrefix(html, "wp-block-button");
      MarkerNeedsPrefix(html, "wp-block-columns");
      MarkerNeedsPrefix(html, "wp-block-embed");
    }
  }


  /** `core/T` becomes `T`; only that one leading prefix is removed. */
  function NormalizeBlockType(raw: string): (t: string)
    ensures raw == t || raw == "core/" + t
    ensures !StartsWith(raw, "core/") ==> t == raw
  {
    if StartsWith(raw, "core/") then
      assert raw == "core/" + raw[5..];
      raw[5..]
    else raw
  }

  /** Only one `core/` prefix is removed, so a doubled prefix leaves one behind. */
  lemma NormalizeOnce()
    ensures NormalizeBlockType("core/core/list") == "core/list"
  {
    assert StartsWith("core/core/list", "core/");
  }

  /** The attribute object of a block: the parsed JSON object, or empty when absent or malformed. */
  function ParseAttrs(parseJson: string -> Option<Json>, text: Option<string>): (a: Attrs)
    ensures text.None? ==> a == map[]
    ensures text.Some? && parseJson(text.value).None? ==> a == map[]
    ensures text.Some? && parseJson(text.value).Some? && parseJson(text.value).value.JObj? ==> a == parseJson(text.value).value.fields
  {
    if text.None? then map[]
    else match parseJson(text.value)
      case Some(JObj(f)) => f
      case _ => map[]
  }

  /** `s[i..j]`, empty when the bounds do not fit (matched blocks always fit). */
  function Slice(s: string, i: nat, j: nat): (r: string)
    ensures i <= j <= |s| ==> r == s[i..j]
  {
    if i <= j <= |s| then s[i..j] else []
  }

  /** The chunk a matched block becomes. */
  function ChunkOf(s: string, m: BlockMatch, parseJson: string -> Option<Json>, index: nat): (c: WPChunk)
    ensures c.index == index && c.attributes.Some? && c.rawComment.Some?
  {
    WPChunk(NormalizeBlockType(Trim(m.typ)), Trim(Slice(s, m.bodyStart, m.bodyEnd)), Some(ParseAttrs(parseJson, m.attrs)),
      Some(Slice(s, m.start, m.end)), index)
  }

  /** The chunks for a run of blocks, numbered from `index`. */
  function BlockChunks(s: string, ms: seq<BlockMatch>, parseJson: string -> Option<Json>, index: nat): (cs: seq<WPChunk>)
    ensures |cs| == |ms|
  {
    seq(|ms|, k requires 0 <= k < |ms| => ChunkOf(s, ms[k], parseJson, index + k))
  }

  lemma BlockChunksSnoc(s: string, ms: seq<BlockMatch>, m: BlockMatch, parseJson: string -> Option<Json>, index: nat)
    ensures BlockChunks(s, ms + [m], parseJson, index) == BlockChunks(s, ms, parseJson, index) + [ChunkOf(s, m, parseJson, index + |ms|)]
  {
    var a := BlockChunks(s, ms + [m], parseJson, index);
    var b := BlockChunks(s, ms, parseJson, index) + [ChunkOf(s, m, parseJson, index + |ms|)];
    assert |a| == |b|;
    forall k | 0 <= k < |a| ensures a[k] == b[k] {
      if k < |ms| { assert (ms + [m])[k] == ms[k]; }
    }
  }

  /** The whole chunk list of a post: the blocks in order, then the leftover paragraph if any. */
  function Chunks(s: string, parseJson: string -> Option<Json>): (cs: seq<WPChunk>)
  {
    var bs := BlockChunks(s, PostBlocks(s), parseJson, 0);
    var rest := Trim(Leftover(s));
    bs + (if rest == [] then [] else [WPChunk(Constants.Paragraph, rest, None, None, |bs|)])
  }

  /**
   * The `exec` loop of `splitIntoChunks` over any matcher: finds the next match from the resume
   * position, pushes its chunk with the next index, and resumes after the match.
   */
  method CollectChunks(content: string, blockRegex: nat -> Option<BlockMatch>, parseJson: string -> Option<Json>)
    returns (chunks: seq<WPChunk>)
    requires Fits(blockRegex, |content|)
    ensures chunks == BlockChunks(content, Blocks(blockRegex, 0, |content|), parseJson, 0)
  {
    chunks := [];
    var index: nat := 0;
    var lastIndex: nat := 0;
    ghost var done: seq<BlockMatch> := [];
    var next := NextBlock(blockRegex, lastIndex, |content|);
    while next.Some?
      invariant lastIndex <= |content|
      invariant next == NextBlock(blockRegex, lastIndex, |content|)
      invariant Blocks(blockRegex, 0, |content|) == done + Blocks(blockRegex, lastIndex, |content|)
      invariant index == |chunks| == |done|
      invariant chunks == BlockChunks(content, done, parseJson, 0)
      decreases |content| - lastIndex
    {
      var m := next.value;
      var chunk := ChunkOf(content, m, parseJson, index);
      CollectStep(content, blockRegex, parseJson, lastIndex, done, m);
      chunks := chunks + [chunk];
      done := done + [m];
      index := index + 1;
      lastIndex := m.end;
      next := NextBlock(blockRegex, lastIndex, |content|);
    }
    BlocksStep(blockRegex, lastIndex, |content|);
    assert done + [] == done;
  }

  /** The next match moves the scan forward and adds its chunk after those of the matches before it. */
  lemma CollectStep(content: string, blockRegex: nat -> Option<BlockMatch>, parseJson: string -> Option<Json>,
                    lastIndex: nat, done: seq<BlockMatch>, m: BlockMatch)
    requires Fits(blockRegex, |content|) && lastIndex <= |content|
    requires NextBlock(blockRegex, lastIndex, |content|) == Some(m)
    requires Blocks(blockRegex, 0, |content|) == done + Blocks(blockRegex, lastIndex, |content|)
    ensures lastIndex < m.end <= |content|
    ensures Blocks(blockRegex, 0, |content|) == (done + [m]) + Blocks(blockRegex, m.end, |content|)
    ensures BlockChunks(content, done + [m], parseJson, 0) == BlockChunks(content, done, parseJson, 0) + [ChunkOf(content, m, parseJson, |done|)]
  {
    BlocksStep(blockRegex, lastIndex, |content|);
    AppendAssoc(done, [m], Blocks(blockRegex, m.end, |content|));
    BlockChunksSnoc(content, done, m, parseJson, 0);
  }

  /**
   * `splitIntoChunks`: the chunks of every block in order, then the leftover text, trimmed, as one
   * paragraph chunk when it is not blank.
   */
  method SplitIntoChunks(content: string, parseJson: string -> Option<Json>) returns (chunks: seq<WPChunk>)
    ensures chunks == Chunks(content, parseJson)
  {
    var blockRegex := BlockMatcher(content);
    BlockMatcherFits(content);
    chunks := CollectChunks(content, blockRegex, parseJson);
    var remaining := Trim(Outside(content, blockRegex, 0));
    if remaining != [] {
      chunks := chunks + [WPChunk(Constants.Paragraph, remaining, None, None, |chunks|)];
    }
  }

  /** Chunk indices are 0, 1, 2, ... in list order. */
  lemma ChunkIndicesConsecutive(s: string, parseJson: string -> Option<Json>)
    ensures var cs := Chunks(s, parseJson); forall k :: 0 <= k < |cs| ==> cs[k].index == k
  {
  }

  /**
   * One chunk per matched block, in order, with its normalized type, trimmed body and the matched text,
   * plus exactly one paragraph chunk, last, holding the trimmed leftover text when that is not blank.
   */
  lemma ChunksShape(s: string, parseJson: string -> Option<Json>)
    ensures var cs := Chunks(s, parseJson); var ms := PostBlocks(s); var rest := Trim(Leftover(s));
      && |cs| == |ms| + (if rest == [] then 0 else 1)
      && (forall k :: 0 <= k < |ms| ==>
            && cs[k].typ == NormalizeBlockType(ms[k].typ)
            && cs[k].html == Trim(Slice(s, ms[k].bodyStart, ms[k].bodyEnd))
            && cs[k].rawComment == Some(Slice(s, ms[k].start, ms[k].end)))
      && (rest != [] ==> cs[|cs| - 1] == WPChunk(Constants.Paragraph, rest, None, None, |ms|))
  {
    var ms := PostBlocks(s);
    forall k | 0 <= k < |ms| ensures Trim(ms[k].typ) == ms[k].typ {
      BlockAtCloses(s, ms[k].start);
      OpenAtToken(s, ms[k].start);
      TrimToken(ms[k].typ);
    }
  }

  /** A type token contains no whitespace, so trimming it changes nothing. */
  lemma TrimToken(t: string)
    requires forall k :: 0 <= k < |t| ==> IsTypeChar(t[k])
    ensures Trim(t) == t
  {
    assert t == [] || !IsSpace(t[0]);
    assert TrimStart(t) == t;
    assert t == [] || !IsSpace(t[|t| - 1]);
    assert TrimEnd(t) == t;
  }

  /** A block whose attribute text is absent or does not parse gets an empty attribute object. */
  lemma MalformedAttributesAreEmpty(s: string, parseJson: string -> Option<Json>, k: nat)
    requires k < |PostBlocks(s)|
    requires PostBlocks(s)[k].attrs.None? || parseJson(PostBlocks(s)[k].attrs.value).None?
    ensures Chunks(s, parseJson)[k].attributes == Some(map[])
  {
  }
}
