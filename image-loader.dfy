/** The image loader that serves pictures through the image-resizing CDN. */
module ImageLoader {
  import opened Wrappers
  import opened Strings

  const ImageBaseUrl := "https://img.kvytechnology.com"
  const ResizePath := "/cdn-cgi/image/"

  /** `normalizeSrc`: one leading `/` dropped. */
  function NormalizeSrc(src: string): (r: string)
    ensures src == r || src == "/" + r
    ensures src != [] && src[0] == '/' <==> src != r
  {
    if StartsWith(src, "/") then src[1..] else src
  }

  /** The resize options: the width, the quality when it is truthy, then automatic format. */
  function LoaderParams(width: nat, quality: Option<nat>): (ps: seq<string>)
    ensures |ps| == 2 || |ps| == 3
    ensures ps[0] == "width=" + NatToString(width) && ps[|ps| - 1] == "format=auto"
    ensures |ps| == 3 <==> quality.Some? && quality.value != 0
    ensures |ps| == 3 ==> ps[1] == "quality=" + NatToString(quality.value)
  {
    ["width=" + NatToString(width)]
    + (if quality.Some? && quality.value != 0 then ["quality=" + NatToString(quality.value)] else [])
    + ["format=auto"]
  }

  /** What follows the options: an absolute `http…` source as it is, a relative one normalised. */
  function SourcePart(src: string): (r: string)
    ensures StartsWith(src, "http") ==> r == src
    ensures !StartsWith(src, "http") ==> src == r || src == "/" + r
  {
    if StartsWith(src, "http") then src else NormalizeSrc(src)
  }

  /** A joined list starts with its first element. */
  lemma {:induction false} JoinStartsWithFirst(ps: seq<string>, sep: string)
    requires ps != []
    ensures StartsWith(Join(ps, sep), ps[0])
  {
    if |ps| > 1 {
      assert Join(ps, sep) == ps[0] + (sep + Join(ps[1..], sep));
    }
  }

  /**
   * `cloudflareLoader`: the CDN resize URL for an image. An absolute `http…` source is appended
   * as it is; a relative one loses one leading `/`.
   */
  method CloudflareLoader(src: string, width: nat, quality: Option<nat>) returns (url: string)
    ensures url == ImageBaseUrl + ResizePath + Join(LoaderParams(width, quality), ",") + "/" + SourcePart(src)
    ensures StartsWith(url, ImageBaseUrl + ResizePath + "width=" + NatToString(width))
  {
    var params := ["width=" + NatToString(width)];
    if quality.Some? && quality.value != 0 {
      params := params + ["quality=" + NatToString(quality.value)];
    }
    params := params + ["format=auto"];
    assert params == LoaderParams(width, quality);
    var joined := Join(params, ",");
    JoinStartsWithFirst(params, ",");
    var head := ImageBaseUrl + ResizePath;
    var tail := if !StartsWith(src, "http") then NormalizeSrc(src) else src;
    url := head + joined + "/" + tail;
    assert url == head + params[0] + (joined[|params[0]|..] + "/" + tail);
  }
}
