/** The creator dashboard of src/pages/Analytics.tsx: the summary totals
    over the analytics rows and the per-post performance list. The page
    imports `getPostAnalytics` from the data-access module, which does not
    define it (src/db/api.ts), so the analytics rows are an input. */
module Analytics {
  import opened Wrappers
  import opened Types
  import opened Tables
  import opened Api
  import opened Seqs

  function Views(a: PostAnalytics): int { a.view_count }
  function Likes(a: PostAnalytics): int { a.like_count }
  function Comments(a: PostAnalytics): int { a.comment_count }

  /** `rows.reduce((sum, a) => sum + f(a), 0)`. */
  function Sum(rows: seq<PostAnalytics>, f: PostAnalytics -> int): int {
    if rows == [] then 0 else f(rows[0]) + Sum(rows[1..], f)
  }

  /** Sums over a concatenation add up. */
  lemma {:induction false} SumAppend(a: seq<PostAnalytics>, b: seq<PostAnalytics>, f: PostAnalytics -> int)
    ensures Sum(a + b, f) == Sum(a, f) + Sum(b, f)
  {
    if a == [] {
      assert a + b == b;
    } else {
      assert (a + b)[1..] == a[1..] + b;
      SumAppend(a[1..], b, f);
    }
  }

  /** A sum of non-negative terms is non-negative and bounds each term. */
  lemma {:induction false} SumNonNegative(rows: seq<PostAnalytics>, f: PostAnalytics -> int)
    requires forall k :: 0 <= k < |rows| ==> f(rows[k]) >= 0
    ensures Sum(rows, f) >= 0
    ensures forall k :: 0 <= k < |rows| ==> f(rows[k]) <= Sum(rows, f)
  {
    if rows != [] {
      SumNonNegative(rows[1..], f);
      forall k | 1 <= k < |rows| ensures f(rows[k]) <= Sum(rows, f) {
        assert rows[k] == rows[1..][k - 1];
      }
    }
  }

  datatype Summary = Summary(
    totalViews: int,
    totalLikes: int,
    totalComments: int,
    totalPosts: nat,
    avgEngagement: real)

  const EmptySummary := Summary(0, 0, 0, 0, 0.0)

  /** The summary `loadAnalytics` computes: the three totals over the
      analytics rows, the number of fetched posts, and the likes and
      comments per post, 0 without posts. */
  function Summarize(posts: seq<PostWithAuthor>, rows: seq<PostAnalytics>): (s: Summary)
    ensures s.totalViews == Sum(rows, Views) && s.totalLikes == Sum(rows, Likes)
    ensures s.totalComments == Sum(rows, Comments)
    ensures s.totalPosts == |posts|
    ensures |posts| == 0 ==> s.avgEngagement == 0.0
    ensures |posts| > 0 ==> s.avgEngagement * |posts| as real == (s.totalLikes + s.totalComments) as real
  {
    var likes := Sum(rows, Likes);
    var comments := Sum(rows, Comments);
    Summary(Sum(rows, Views), likes, comments, |posts|,
            if |posts| > 0 then (likes + comments) as real / |posts| as real else 0.0)
  }

  /** Counts that are never negative give totals that are never negative. */
  lemma SummaryNonNegative(rows: seq<PostAnalytics>, shown: seq<PostWithAuthor>)
    requires forall k :: 0 <= k < |rows| ==>
      rows[k].view_count >= 0 && rows[k].like_count >= 0 && rows[k].comment_count >= 0
    ensures var s := Summarize(shown, rows);
      s.totalViews >= 0 && s.totalLikes >= 0 && s.totalComments >= 0 && s.avgEngagement >= 0.0
  {
    SumNonNegative(rows, Views);
    SumNonNegative(rows, Likes);
    SumNonNegative(rows, Comments);
  }

  /** `posts.find((p) => p.id === id)`: the first post with that id. */
  function FindPost(posts: seq<PostWithAuthor>, id: Id): (r: Option<PostWithAuthor>)
    ensures r.Some? ==> r.value in posts && r.value.post.id == id
    ensures r.Some? ==> exists k :: 0 <= k < |posts| && posts[k] == r.value &&
                                    (forall j :: 0 <= j < k ==> posts[j].post.id != id)
    ensures r.None? <==> forall k :: 0 <= k < |posts| ==> posts[k].post.id != id
  {
    if posts == [] then None
    else if posts[0].post.id == id then Some(posts[0])
    else
      var r := FindPost(posts[1..], id);
      assert forall k :: 1 <= k < |posts| ==> posts[k] == posts[1..][k - 1];
      r
  }

  /** One line of the "Post Performance" list. */
  datatype PerformanceRow = PerformanceRow(stats: PostAnalytics, post: PostWithAuthor)

  /** The list: each analytics row, in order, with the post `find`
      returns for it; rows whose post is not among the fetched ones render
      nothing. */
  function PerformanceRows(rows: seq<PostAnalytics>, posts: seq<PostWithAuthor>): (r: seq<PerformanceRow>)
    ensures |r| <= |rows|
    ensures forall k :: 0 <= k < |r| ==>
      r[k].stats in rows && r[k].post in posts && r[k].post.post.id == r[k].stats.post_id
    ensures forall k :: 0 <= k < |r| ==> FindPost(posts, r[k].stats.post_id) == Some(r[k].post)
    ensures forall k :: 0 <= k < |rows| && FindPost(posts, rows[k].post_id).Some? ==>
      PerformanceRow(rows[k], FindPost(posts, rows[k].post_id).value) in r
  {
    if rows == [] then []
    else
      var rest := PerformanceRows(rows[1..], posts);
      var here := FindPost(posts, rows[0].post_id);
      var r := (if here.Some? then [PerformanceRow(rows[0], here.value)] else []) + rest;
      assert forall k :: 1 <= k < |rows| ==> rows[k] == rows[1..][k - 1];
      r
  }

  function Stats(line: PerformanceRow): PostAnalytics { line.stats }

  /** Whether an analytics row's post is among the fetched ones. */
  function HasPost(posts: seq<PostWithAuthor>): PostAnalytics -> bool {
    (a: PostAnalytics) => FindPost(posts, a.post_id).Some?
  }

  /** The exact list: its analytics column is the subsequence of the rows
      whose post is loaded, in their order. With the contract of
      `PerformanceRows`, which pairs each line with the post `find`
      returns for it, this fixes the list. */
  lemma {:induction false} PerformanceRowsExact(rows: seq<PostAnalytics>, posts: seq<PostWithAuthor>)
    ensures Map(PerformanceRows(rows, posts), Stats) == Filter(rows, HasPost(posts))
  {
    if rows != [] {
      PerformanceRowsExact(rows[1..], posts);
      var rest := PerformanceRows(rows[1..], posts);
      var here := FindPost(posts, rows[0].post_id);
      var head := if here.Some? then [PerformanceRow(rows[0], here.value)] else [];
      assert PerformanceRows(rows, posts) == head + rest;
      assert Map(head + rest, Stats) == Map(head, Stats) + Map(rest, Stats);
      assert Map(head, Stats) == (if HasPost(posts)(rows[0]) then [rows[0]] else []);
    }
  }

  class AnalyticsPage {
    var loading: bool
    var posts: seq<PostWithAuthor>
    var analytics: seq<PostAnalytics>
    var summary: Summary
    var redirectedTo: Option<string>

    constructor ()
      ensures loading && posts == [] && analytics == [] && summary == EmptySummary && redirectedTo.None?
    {
      loading, posts, analytics, summary, redirectedTo := true, [], [], EmptySummary, None;
    }

    /** The mount effect: users without creator access are sent home and
        nothing is loaded; creators get their published posts and the
        summary of their analytics rows. */
    method Mount(store: Store, user: Option<Id>, profile: Option<Profile>, postsOk: bool,
                 fetched: seq<PostAnalytics>)
      modifies this`loading, this`posts, this`analytics, this`summary, this`redirectedTo
      ensures !HasCreatorAccess(user, profile) ==>
        && redirectedTo == Some("/") && loading == old(loading) && posts == old(posts)
        && analytics == old(analytics) && summary == old(summary)
      ensures HasCreatorAccess(user, profile) ==>
        && redirectedTo == old(redirectedTo) && !loading
        && posts == store.GetPostsByAuthor(user.value, postsOk) && analytics == fetched
        && summary == Summarize(posts, fetched)
      ensures HasCreatorAccess(user, profile) ==>
        forall k :: 0 <= k < |posts| ==> posts[k].post.author_id == user.value && posts[k].post.status == Published
    {
      if !HasCreatorAccess(user, profile) {
        redirectedTo := Some("/");
        return;
      }
      LoadAnalytics(store, user, postsOk, fetched);
    }

    /** `loadAnalytics`. */
    method LoadAnalytics(store: Store, user: Option<Id>, postsOk: bool, fetched: seq<PostAnalytics>)
      modifies this`loading, this`posts, this`analytics, this`summary
      ensures user.None? ==>
        loading == old(loading) && posts == old(posts) && analytics == old(analytics) && summary == old(summary)
      ensures user.Some? ==>
        && !loading && posts == store.GetPostsByAuthor(user.value, postsOk) && analytics == fetched
        && summary == Summarize(posts, fetched)
    {
      if user.None? {
        return;
      }
      loading := true;
      posts := store.GetPostsByAuthor(user.value, postsOk);
      analytics := fetched;
      summary := Summarize(posts, analytics);
      loading := false;
    }

    /** The rendered performance list. */
    function Rows(): (r: seq<PerformanceRow>)
      reads this
      ensures |r| <= |analytics|
      ensures forall k :: 0 <= k < |r| ==> r[k].post in posts
    {
      PerformanceRows(analytics, posts)
    }
  }
}
