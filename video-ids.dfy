/**
 * The search shared by the video-id extractors of the YouTube and VideoPress
 * blocks: the leftmost occurrence of a literal prefix followed by at least one
 * id character, and the longest run of id characters after it.
 */
module VideoIds {
  import opened Wrappers
  import opened Strings
  import Constants

  /** The length of the run of id characters starting at index `j`. */
  function RunLen(s: string, j: nat): (n: nat)
    ensures j + n <= |s| || (j > |s| && n == 0)
    ensures forall k :: j <= k < j + n ==> Constants.IsIdChar(s[k])
    ensures j + n < |s| ==> !Constants.IsIdChar(s[j + n])
    decreases |s| - j
  {
    if j < |s| && Constants.IsIdChar(s[j]) then 1 + RunLen(s, j + 1) else 0
  }

  /** `p` occurs at index `i` and an id character follows it: where `/(?:p)([a-zA-Z0-9_-]+)/` can match. */
  predicate MatchesAt(s: string, p: string, i: nat) {
    OccursAt(s, p, i) && i + |p| < |s| && Constants.IsIdChar(s[i + |p|])
  }

  /** The leftmost index from `from` on where the pattern matches. */
  function FirstMatchFrom(s: string, p: string, from: nat): (r: Option<nat>)
    ensures r.Some? ==> from <= r.value && MatchesAt(s, p, r.value)
    ensures r.Some? ==> forall i :: from <= i < r.value ==> !MatchesAt(s, p, i)
    ensures r.None? ==> forall i :: from <= i ==> !MatchesAt(s, p, i)
    decreases |s| - from
  {
    if from + |p| >= |s| then None
    else if MatchesAt(s, p, from) then Some(from)
    else FirstMatchFrom(s, p, from + 1)
  }

  /** `s.match(/(?:p)([a-zA-Z0-9_-]+)/)?.[1]`: the greedy capture at the leftmost match. */
  function Capture(s: string, p: string): (r: Option<string>)
    ensures r.Some? ==> r.value != [] && forall k :: 0 <= k < |r.value| ==> Constants.IsIdChar(r.value[k])
    ensures r.Some? <==> exists i: nat :: MatchesAt(s, p, i)
  {
    match FirstMatchFrom(s, p, 0)
    case None => None
    case Some(i) =>
      var j := i + |p|;
      Some(s[j..j + RunLen(s, j)])
  }

  /** The characters of an occurrence are those of the pattern. */
  lemma CharOfMatch(s: string, p: string, i: nat, k: nat)
    requires OccursAt(s, p, i) && k < |p|
    ensures s[i + k] == p[k]
  {
    assert s[i..i + |p|][k] == s[i + k];
  }

  /** Exactly `n` id characters start at `j` when they are followed by the end or by another character. */
  lemma {:induction false} RunExactly(s: string, j: nat, n: nat)
    requires j + n <= |s|
    requires forall k :: j <= k < j + n ==> Constants.IsIdChar(s[k])
    requires j + n == |s| || !Constants.IsIdChar(s[j + n])
    ensures RunLen(s, j) == n
    decreases n
  {
    if n > 0 {
      RunExactly(s, j + 1, n - 1);
    }
  }

  /** The capture of `a + p + id + rest`, when nothing in `a` starts a match, is `id` itself
      as long as `rest` does not go on with an id character. */
  lemma CaptureAfter(a: string, p: string, id: string, rest: string)
    requires id != [] && forall k :: 0 <= k < |id| ==> Constants.IsIdChar(id[k])
    requires rest == [] || !Constants.IsIdChar(rest[0])
    requires forall j :: 0 <= j < |a| ==> !MatchesAt(a + p + id + rest, p, j)
    ensures Capture(a + p + id + rest, p) == Some(id)
  {
    var s := a + p + id + rest;
    var i := |a|;
    var j := i + |p|;
    assert s[i..j] == p && s[j] == id[0] by {
      assert s == a + p + (id + rest);
    }
    assert MatchesAt(s, p, i);
    assert FirstMatchFrom(s, p, 0) == Some(i);
    assert s[j..j + |id|] == id;
    if rest != [] {
      assert s[j + |id|] == rest[0];
    }
    RunExactly(s, j, |id|);
  }

  /** No match starts inside `a` when the pattern's first character does not occur in `a`. */
  lemma NoMatchBefore(a: string, rest: string, p: string)
    requires p != [] && p[0] !in a
    ensures forall j :: 0 <= j < |a| ==> !MatchesAt(a + rest, p, j)
  {
    forall j | 0 <= j < |a| && MatchesAt(a + rest, p, j) ensures false {
      CharOfMatch(a + rest, p, j, 0);
    }
  }

  /** Text that does not contain `c` contains no pattern holding `c`. */
  lemma NoMatchWithout(s: string, p: string, c: char)
    requires c in p && c !in s
    ensures forall i: nat :: !MatchesAt(s, p, i)
  {
    forall i: nat | MatchesAt(s, p, i) ensures false {
    }
  }

  /** A string of id characters only is its own trim. */
  lemma TrimIdChars(s: string)
    requires forall k :: 0 <= k < |s| ==> Constants.IsIdChar(s[k])
    ensures Trim(s) == s
  {
    TrimStartSpec(s);
    TrimEndSpec(TrimStart(s));
    if s != [] {
      assert !IsSpace(s[0]);
      assert !IsSpace(s[|s| - 1]);
    }
  }
}

/** `extractVideoId` of the YouTube block. */
module YoutubeBlock {
  import opened Wrappers
  import opened Strings
  import Constants
  import VideoIds
  import UnsupportedBlocks

  const ShortPattern := "youtu.be/"
  const WatchPattern := "youtube.com/watch?v="
  const EmbedPattern := "youtube.com/embed/"

  predicate IsBareId(s: string) {
    |s| == 11 && forall k :: 0 <= k < 11 ==> Constants.IsIdChar(s[k])
  }

  /**
   * `extractVideoId`: nothing for empty input; else the id after the first short link, else after
   * the first watch link, else after the first embed link; else the trimmed input when it is
   * exactly eleven id characters.
   */
  function ExtractVideoId(url: string): (r: Option<string>)
    ensures url == [] ==> r.None?
    ensures r.Some? ==> r.value != [] && forall k :: 0 <= k < |r.value| ==> Constants.IsIdChar(r.value[k])
    ensures url != [] && VideoIds.Capture(url, ShortPattern).Some? ==> r == VideoIds.Capture(url, ShortPattern)
    ensures (forall i: nat :: !VideoIds.MatchesAt(url, ShortPattern, i))
      && (forall i: nat :: !VideoIds.MatchesAt(url, WatchPattern, i))
      && (forall i: nat :: !VideoIds.MatchesAt(url, EmbedPattern, i))
      ==> (r.Some? <==> url != [] && IsBareId(Trim(url))) && (r.Some? ==> r.value == Trim(url))
  {
    if url == [] then None
    else match VideoIds.Capture(url, ShortPattern)
      case Some(id) => Some(id)
      case None =>
        match VideoIds.Capture(url, WatchPattern)
        case Some(id) => Some(id)
        case None =>
          match VideoIds.Capture(url, EmbedPattern)
          case Some(id) => Some(id)
          case None => if IsBareId(Trim(url)) then Some(Trim(url)) else None
  }

  /** The watch URL the YouTube converter builds gives back the id it was built from. */
  lemma WatchUrlRoundTrip(id: string)
    requires Constants.IsVideoId(id)
    ensures ExtractVideoId(UnsupportedBlocks.WatchUrlPrefix + id) == Some(id)
  {
    var url := UnsupportedBlocks.WatchUrlPrefix + id;
    assert forall k :: 0 <= k < |id| ==> Constants.IsIdChar(id[k]);
    NoShortLink(id);
    var host := "https://www.";
    WatchUrlPrefixParts();
    assert url == host + WatchPattern + id + "";
    VideoIds.NoMatchBefore(host, WatchPattern + id + "", WatchPattern);
    assert host + (WatchPattern + id + "") == url;
    VideoIds.CaptureAfter(host, WatchPattern, id, "");
  }

  /** The watch URL prefix is the host part followed by the watch pattern. */
  lemma WatchUrlPrefixParts()
    ensures UnsupportedBlocks.WatchUrlPrefix == "https://www." + WatchPattern
  {
  }

  /** A short link needs a 'y' with a '.' five characters later; a watch URL has no such pair. */
  lemma NoShortLink(id: string)
    requires Constants.IsVideoId(id)
    ensures forall i: nat :: !VideoIds.MatchesAt(UnsupportedBlocks.WatchUrlPrefix + id, ShortPattern, i)
  {
    var url := UnsupportedBlocks.WatchUrlPrefix + id;
    forall i: nat | VideoIds.MatchesAt(url, ShortPattern, i) ensures false {
      VideoIds.CharOfMatch(url, ShortPattern, i, 5);
      if i + 5 < |UnsupportedBlocks.WatchUrlPrefix| {
        DotsOfWatchPrefix(i + 5);
        VideoIds.CharOfMatch(url, ShortPattern, i, 0);
      }
    }
  }

  /** The watch URL prefix has its dots at 11 and 19 only. */
  lemma DotsOfWatchPrefix(m: nat)
    requires m < |UnsupportedBlocks.WatchUrlPrefix| && UnsupportedBlocks.WatchUrlPrefix[m] == '.'
    ensures m == 11 || m == 19
  {
  }

  /** An eleven-character id on its own is recognised as the id. */
  lemma BareIdRoundTrip(id: string)
    requires Constants.IsVideoId(id)
    ensures ExtractVideoId(id) == Some(id)
  {
    assert '/' !in id;
    VideoIds.NoMatchWithout(id, ShortPattern, '/');
    VideoIds.NoMatchWithout(id, WatchPattern, '/');
    VideoIds.NoMatchWithout(id, EmbedPattern, '/');
    VideoIds.TrimIdChars(id);
  }
}

/** `extractVideoId` of the VideoPress block. */
module VideopressBlock {
  import opened Wrappers
  import opened Strings
  import Constants
  import VideoIds
  import UnsupportedBlocks

  const VideoPattern := "videopress.com/v/"

  predicate IsBareId(s: string) {
    s != [] && forall k :: 0 <= k < |s| ==> Constants.IsIdChar(s[k])
  }

  /**
   * `extractVideoId`: nothing for empty input; else the id after the first `videopress.com/v/`;
   * else the trimmed input when it is made of id characters only.
   */
  function ExtractVideoId(url: string): (r: Option<string>)
    ensures url == [] ==> r.None?
    ensures r.Some? ==> IsBareId(r.value)
    ensures url != [] && VideoIds.Capture(url, VideoPattern).Some? ==> r == VideoIds.Capture(url, VideoPattern)
    ensures (forall i: nat :: !VideoIds.MatchesAt(url, VideoPattern, i))
      ==> (r.Some? <==> url != [] && IsBareId(Trim(url))) && (r.Some? ==> r.value == Trim(url))
  {
    if url == [] then None
    else match VideoIds.Capture(url, VideoPattern)
      case Some(id) => Some(id)
      case None => if IsBareId(Trim(url)) then Some(Trim(url)) else None
  }

  /** A guid of id characters, made into a URL by the VideoPress converter, is recovered,
      whatever query string follows it. */
  lemma GuidUrlRoundTrip(guid: string, query: string)
    requires IsBareId(guid)
    requires query == [] || !Constants.IsIdChar(query[0])
    ensures ExtractVideoId(UnsupportedBlocks.VideopressPrefix + guid + query) == Some(guid)
  {
    var url := UnsupportedBlocks.VideopressPrefix + guid + query;
    assert url == "https://" + VideoPattern + guid + query;
    VideoIds.NoMatchBefore("https://", VideoPattern + guid + query, VideoPattern);
    assert "https://" + (VideoPattern + guid + query) == url;
    VideoIds.CaptureAfter("https://", VideoPattern, guid, query);
  }

  /** The query string the sample post's embed URL carries after the id. */
  const SampleQuery := "?" + "resizeToParent=true&cover=true&preloadContent=metadata&useAverageColor=true"

  /** The embed URL of the sample post's video. */
  const SampleEmbedUrl := UnsupportedBlocks.VideopressPrefix + "lfrcFm6E" + SampleQuery

  /** The query string after the id is not part of it. */
  lemma SampleEmbedUrlId()
    ensures ExtractVideoId(SampleEmbedUrl) == Some("lfrcFm6E")
  {
    var query := SampleQuery;
    assert query[0] == '?';
    GuidUrlRoundTrip("lfrcFm6E", query);
  }
}
