/**
 * The sample WordPress source used when no live site is at hand: one post and
 * two accessors over it, a limited listing and a lookup by id. The post's block
 * markup is passed in rather than spelled out.
 */
module MockData {
  import opened Wrappers
  import opened Types

  /** `MOCK_WP_POSTS`: a single published post with id 1. Its block markup is a parameter. */
  function MockPosts(content: string): (posts: seq<WPPost>)
    ensures |posts| == 1 && posts[0].id == 1 && posts[0].content == content
  {
    [WPPost(1, "The Evolution of Programming: High-Level Languages", "evolution-of-programming", content,
      Some("A journey through programming language evolution"), Some("2024-01-15T10:00:00Z"), Some(1), Some([1]), Some("publish"))]
  }

  /** `posts.slice(0, limit)` for a truthy positive `limit`, else all posts. */
  function Limit(posts: seq<WPPost>, limit: Option<int>): (r: seq<WPPost>)
    ensures r <= posts
    ensures limit.Some? && limit.value > 0 ==> |r| == if limit.value < |posts| then limit.value else |posts|
    ensures limit.None? || limit.value <= 0 ==> r == posts
  {
    if limit.Some? && limit.value > 0 && limit.value < |posts| then posts[..limit.value] else posts
  }

  /** `getMockWPPosts`. */
  function GetMockPosts(content: string, limit: Option<int>): (r: seq<WPPost>)
    ensures r <= MockPosts(content)
  {
    Limit(MockPosts(content), limit)
  }

  /** `posts.find(post => post.id === id)`. */
  function Find(posts: seq<WPPost>, id: int): (r: Option<WPPost>)
    ensures r.Some? ==> r.value.id == id && exists k :: (0 <= k < |posts| && posts[k] == r.value
      && forall j :: 0 <= j < k ==> posts[j].id != id)
    ensures r.None? <==> forall k :: 0 <= k < |posts| ==> posts[k].id != id
  {
    if posts == [] then None
    else if posts[0].id == id then Some(posts[0])
    else match Find(posts[1..], id)
      case None => None
      case Some(p) =>
        assert forall k :: 1 <= k < |posts| ==> posts[k] == posts[1..][k - 1];
        Some(p)
  }

  /** `getMockWPPost`. */
  function GetMockPost(content: string, id: int): Option<WPPost> {
    Find(MockPosts(content), id)
  }

  /** The sample source answers for id 1 only, with its one post, and lists that post
      whatever the limit. */
  lemma SampleSource(content: string, id: int, limit: Option<int>)
    ensures GetMockPost(content, id).Some? <==> id == 1
    ensures GetMockPost(content, 1) == Some(MockPosts(content)[0])
    ensures GetMockPosts(content, limit) == MockPosts(content)
  {
  }

  /** Limits compose: taking `m` of the first `n` posts takes the first `min(m, n)`. */
  lemma {:induction false} LimitTwice(posts: seq<WPPost>, n: int, m: int)
    requires n > 0 && m > 0
    ensures Limit(Limit(posts, Some(n)), Some(m)) == Limit(posts, Some(if m < n then m else n))
  {
    var once := Limit(posts, Some(n));
    if m < n && m < |posts| {
      assert once[..m] == posts[..m];
    }
  }
}
