/** The public URL of a stored media file. */
module MediaUrl {
  import opened Wrappers
  import opened Strings

  const BucketUrl := "https://media.kvytechnology.com"

  predicate IsAbsolute(s: string) {
    StartsWith(s, "http://") || StartsWith(s, "https://")
  }

  /**
   * `getMediaUrl`: nothing for a missing or empty file name, an absolute http(s) URL as it is,
   * and any other name placed under the media bucket. The cache tag plays no part.
   */
  function GetMediaUrl(filename: Option<string>, cacheTag: Option<string>): (r: string)
    ensures r == [] <==> filename.None? || filename.value == []
    ensures r != [] ==> IsAbsolute(r) && filename.Some? && |filename.value| <= |r| && r[|r| - |filename.value|..] == filename.value
    ensures filename.Some? && IsAbsolute(filename.value) ==> r == filename.value
    ensures filename.Some? && filename.value != [] && !IsAbsolute(filename.value) ==> r == BucketUrl + "/" + filename.value
  {
    if filename.None? || filename.value == [] then []
    else if IsAbsolute(filename.value) then filename.value
    else
      var r := BucketUrl + "/" + filename.value;
      assert r[..8] == "https://";
      assert r[|r| - |filename.value|..] == filename.value;
      r
  }

  /** A URL it produced is left as it is when given back to it. */
  lemma GetMediaUrlIdempotent(filename: Option<string>, tag1: Option<string>, tag2: Option<string>)
    ensures var once := GetMediaUrl(filename, tag1);
      GetMediaUrl(Some(once), tag2) == once
  {
  }
}
