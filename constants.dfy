/**
 * The fixed vocabulary of the migration: WordPress block type names, CMS block
 * slugs, size ceilings and accepted MIME types, the staging host marker, and the
 * three YouTube URL patterns, written out as scanners with the matching rules of
 * the regular expressions they stand for.
 */
module Constants {
  import opened Wrappers
  import opened Strings

  // WordPress block types, as they appear in `<!-- wp:type -->` comments or are derived.
  const Paragraph := "paragraph"
  const Heading := "heading"
  const Image := "image"
  const Gallery := "gallery"
  const List := "list"
  const Quote := "quote"
  const Table := "table"
  const Columns := "columns"
  const Column := "column"
  const Embed := "embed"
  const Code := "code"
  const Buttons := "buttons"
  const Button := "button"
  const Video := "video"
  const Shortcode := "shortcode"
  const ShortcodeGallery := "shortcode-gallery"
  const ShortcodeYoutube := "shortcode-youtube"
  const ShortcodeVideo := "shortcode-video"
  const YoutubeEmbed := "youtube-embed"
  const VideopressEmbed := "videopress-embed"
  const VimeoEmbed := "vimeo"

  const WpBlocks: seq<string> := [
    Paragraph, Heading, Image, Gallery, List, Quote, Table, Columns, Column, Embed, Code,
    Buttons, Button, Video, Shortcode, ShortcodeGallery, ShortcodeYoutube, ShortcodeVideo,
    YoutubeEmbed, VideopressEmbed, VimeoEmbed]

  /** The block kinds defined on the CMS side. */
  datatype CmsBlock = YoutubeBlock | VideoBlock | VideopressBlock | GalleryBlock | ButtonBlock | MediaBlock | Banner | ColumnsBlock {
    /** The block slug the CMS stores as `blockType`. */
    function Slug(): string {
      match this
      case YoutubeBlock => "youtubeBlock"
      case VideoBlock => "videoBlock"
      case VideopressBlock => "videopressBlock"
      case GalleryBlock => "galleryBlock"
      case ButtonBlock => "buttonBlock"
      case MediaBlock => "mediaBlock"
      case Banner => "banner"
      case ColumnsBlock => "columnsBlock"
    }
  }

  /** Every WordPress block type name is listed once. */
  lemma WpBlocksDistinct()
    ensures forall i, j :: 0 <= i < j < |WpBlocks| ==> WpBlocks[i] != WpBlocks[j]
  {
  }

  /** No two CMS blocks share a slug, so a slug names one block. */
  lemma CmsSlugsDistinct(a: CmsBlock, b: CmsBlock)
    ensures a.Slug() == b.Slug() ==> a == b
  {
  }

  // Media limits.
  const MaxImageSize: nat := 10 * 1024 * 1024
  const SupportedImageTypes: seq<string> := ["image/jpeg", "image/png", "image/gif", "image/webp"]
  const MaxVideoSize: nat := 100 * 1024 * 1024
  const SupportedVideoTypes: seq<string> := ["video/mp4", "video/webm", "video/ogg", "video/quicktime"]

  // WordPress URL markers.
  const StagingSuffix := ".wpcomstaging"
  const ImagePath := "/wp-content/uploads/"

  /** A character of a YouTube video id (`[a-zA-Z0-9_-]`). */
  predicate IsIdChar(c: char) {
    IsAsciiLetter(c) || IsDigit(c) || c == '_' || c == '-'
  }

  /** `n` id characters start at index `i` of `s`. */
  predicate IdRun(s: string, i: nat, n: nat) {
    i + n <= |s| && forall k :: i <= k < i + n ==> IsIdChar(s[k])
  }

  predicate IsQuote(c: char) { c == '"' || c == '\'' }

  /** One match of a pattern: the matched range `[start, end)` and the captured id. */
  datatype Match = Match(start: nat, end: nat, capture: string)

  /** The three YouTube patterns: watch or short links, embed links, and `[youtube ... id=...]` shortcodes. */
  datatype YoutubePattern = Watch | EmbedLink | ShortcodeTag

  const WatchPrefix := "youtube.com/watch?v="
  const ShortPrefix := "youtu.be/"
  const EmbedPrefix := "youtube.com/embed/"
  const ShortcodeOpen := "[youtube"

  /** The match of `p` that starts exactly at index `i`, if any. */
  function MatchAt(p: YoutubePattern, s: string, i: nat): (r: Option<Match>)
    ensures r.Some? ==> r.value.start == i && i < r.value.end <= |s|
    ensures r.Some? ==> |r.value.capture| == 11 && forall k :: 0 <= k < 11 ==> IsIdChar(r.value.capture[k])
  {
    match p
    case Watch =>
      if OccursAt(s, WatchPrefix, i) && IdRun(s, i + 20, 11) then Some(Match(i, i + 31, s[i + 20..i + 31]))
      else if OccursAt(s, ShortPrefix, i) && IdRun(s, i + 9, 11) then Some(Match(i, i + 20, s[i + 9..i + 20]))
      else None
    case EmbedLink =>
      if OccursAt(s, EmbedPrefix, i) && IdRun(s, i + 18, 11) then Some(Match(i, i + 29, s[i + 18..i + 29]))
      else None
    case ShortcodeTag =>
      if !OccursAtIgnoreCase(s, ShortcodeOpen, i) then None
      else match FindChar(s[i + 8..], ']')
        case None => None
        case Some(d) =>
          var close := i + 8 + d;
          match LastIdAssignment(s, i + 8, close)
          case None => None
          case Some(start) => Some(Match(i, close + 1, s[start..start + 11]))
  }

  /**
   * Inside a shortcode whose closing `]` is at `close`, the start of the id that the
   * greedy `[^\]]*` before `id=` settles on: the last `id=` in `[lo, close)` that is
   * followed by an optional quote and eleven id characters.
   */
  function LastIdAssignment(s: string, lo: nat, close: nat): (r: Option<nat>)
    requires lo <= close <= |s|
    ensures r.Some? ==> lo + 3 <= r.value && IdRun(s, r.value, 11)
    decreases close - lo
  {
    if close == lo then None
    else
      var k := close - 1;
      match IdAssignmentAt(s, k)
      case Some(start) => Some(start)
      case None => LastIdAssignment(s, lo, k)
  }

  /** `id=` (in any case) at `k`, then an optional quote and eleven id characters: the id's start. */
  function IdAssignmentAt(s: string, k: nat): (r: Option<nat>)
    ensures r.Some? ==> (r.value == k + 3 || r.value == k + 4) && IdRun(s, r.value, 11)
  {
    if !OccursAtIgnoreCase(s, "id=", k) then None
    else if k + 3 < |s| && IsQuote(s[k + 3]) && IdRun(s, k + 4, 11) then Some(k + 4)
    else if IdRun(s, k + 3, 11) then Some(k + 3)
    else None
  }

  /** The leftmost match of `p` at or after `from` (`exec` with `lastIndex == from`). */
  function FirstMatchFrom(p: YoutubePattern, s: string, from: nat): (r: Option<Match>)
    ensures r.Some? ==> from <= r.value.start && MatchAt(p, s, r.value.start) == r
    ensures r.Some? ==> forall i :: from <= i < r.value.start ==> MatchAt(p, s, i).None?
    ensures r.None? ==> forall i :: from <= i ==> MatchAt(p, s, i).None?
    decreases |s| - from
  {
    if from >= |s| then None
    else
      var m := MatchAt(p, s, from);
      if m.Some? then m else FirstMatchFrom(p, s, from + 1)
  }

  /** A global regex's `exec` as a function of its `lastIndex`: the leftmost match at or after it. */
  function Exec(p: YoutubePattern, s: string): nat -> Option<Match> {
    (i: nat) => FirstMatchFrom(p, s, i)
  }

  /** Every match `exec` finds in a string of length `n` ends after the index searched from and inside the string. */
  ghost predicate Advances(exec: nat -> Option<Match>, n: nat) {
    forall i: nat :: exec(i).Some? ==> i < exec(i).value.end <= n
  }

  /** The YouTube patterns never match the empty string, so an `exec` loop over them moves forward. */
  lemma ExecAdvances(p: YoutubePattern, s: string)
    ensures Advances(Exec(p, s), |s|)
  {
    forall i: nat | Exec(p, s)(i).Some? ensures i < Exec(p, s)(i).value.end <= |s| {
      var m := FirstMatchFrom(p, s, i).value;
      assert MatchAt(p, s, m.start) == Some(m);
    }
  }

  /** The ids captured by the successive calls of an `exec` loop from `from` on. */
  function ExecAll(exec: nat -> Option<Match>, n: nat, from: nat): (ids: seq<string>)
    requires Advances(exec, n)
    decreases n - from
  {
    match exec(from)
    case None => []
    case Some(m) => [m.capture] + ExecAll(exec, n, m.end)
  }

  /** The ids captured by every successive match of `p` from `from` on, as a global `exec` loop sees them. */
  function Captures(p: YoutubePattern, s: string, from: nat): (ids: seq<string>)
  {
    ExecAdvances(p, s);
    ExecAll(Exec(p, s), |s|, from)
  }

  /** A YouTube video id: eleven id characters. */
  predicate IsVideoId(id: string) {
    |id| == 11 && forall k :: 0 <= k < 11 ==> IsIdChar(id[k])
  }

  /** Every id a pattern captures is a well-formed video id. */
  lemma {:induction false} CapturesAreVideoIds(p: YoutubePattern, s: string, from: nat)
    ensures forall k :: 0 <= k < |Captures(p, s, from)| ==> IsVideoId(Captures(p, s, from)[k])
    decreases |s| - from
  {
    ExecAdvances(p, s);
    match FirstMatchFrom(p, s, from)
    case None =>
    case Some(m) =>
      assert MatchAt(p, s, m.start) == Some(m);
      assert Captures(p, s, from) == [m.capture] + Captures(p, s, m.end);
      CapturesAreVideoIds(p, s, m.end);
  }
}
