/** The data-access layer of src/db/api.ts over an in-memory copy of the
    remote tables. Each remote round-trip that can fail is a `bool` input
    (`ok`, `lookupOk`, `writeOk`, …); fresh row ids and creation times come
    from the store's `nextId` and `clock` counters. Reads are functions of
    the current tables; the toggles, inserts and deletes are methods that
    change the tables they name and no others. */
module Api {
  import opened Wrappers
  import opened Seqs
  import opened Types
  import opened Tables

  class Store {
    var profiles: seq<Profile>
    /** Held in the order `order('published_at', { ascending: false })`
        returns them. */
    var posts: seq<Post>
    var categories: seq<Category>
    var postCategories: seq<PostCategory>
    /** Held in ascending creation order. */
    var comments: seq<Comment>
    var likes: seq<Like>
    /** Held in ascending creation order. */
    var bookmarks: seq<Bookmark>
    var follows: seq<Follow>
    var nextId: nat
    var clock: Timestamp

    /** Row ids are unique and below `nextId`; the tables kept in creation
        order are sorted by `created_at`, all before `clock`. */
    ghost predicate Valid()
      reads this
    {
      && UniqueBy(likes, RowId) && IdsBelow(likes, nextId)
      && UniqueBy(bookmarks, RowId) && IdsBelow(bookmarks, nextId)
      && UniqueBy(follows, RowId) && IdsBelow(follows, nextId)
      && SortedBy(bookmarks, MembershipCreatedAt) && CreatedBefore(bookmarks, clock)
      && SortedBy(comments, CommentCreatedAt)
      && (forall k :: 0 <= k < |comments| ==> comments[k].id < nextId && comments[k].created_at < clock)
      && (forall k :: 0 <= k < |posts| ==> posts[k].id < nextId)
    }

    constructor ()
      ensures Valid()
      ensures profiles == [] && posts == [] && categories == [] && postCategories == []
      ensures comments == [] && likes == [] && bookmarks == [] && follows == []
    {
      profiles, posts, categories, postCategories := [], [], [], [];
      comments, likes, bookmarks, follows := [], [], [], [];
      nextId, clock := 0, 0;
    }

    // -------------------------------------------------------------------
    // Membership queries and counts
    // -------------------------------------------------------------------

    /** `isPostLiked`: a failed query leaves `data` null, hence false, and
        so does a pair with several rows, where `maybeSingle` fails. */
    function IsPostLiked(userId: Id, postId: Id, ok: bool): (r: bool)
      reads this
      ensures r ==> exists k :: 0 <= k < |likes| && likes[k].actor == userId && likes[k].target == postId
      ensures r <==> ok && SinglePair(likes, userId, postId)
      ensures UniquePairs(likes) ==> (r <==> ok && HasPair(likes, userId, postId))
    {
      LookupPair(likes, userId, postId, ok).Some?
    }

    /** `isPostBookmarked`. */
    function IsPostBookmarked(userId: Id, postId: Id, ok: bool): (r: bool)
      reads this
      ensures r ==> exists k :: 0 <= k < |bookmarks| && bookmarks[k].actor == userId && bookmarks[k].target == postId
      ensures r <==> ok && SinglePair(bookmarks, userId, postId)
      ensures UniquePairs(bookmarks) ==> (r <==> ok && HasPair(bookmarks, userId, postId))
    {
      LookupPair(bookmarks, userId, postId, ok).Some?
    }

    /** `isFollowing`. */
    function IsFollowing(followerId: Id, followingId: Id, ok: bool): (r: bool)
      reads this
      ensures r ==> exists k :: 0 <= k < |follows| && follows[k].actor == followerId && follows[k].target == followingId
      ensures r <==> ok && SinglePair(follows, followerId, followingId)
      ensures UniquePairs(follows) ==> (r <==> ok && HasPair(follows, followerId, followingId))
    {
      LookupPair(follows, followerId, followingId, ok).Some?
    }

    /** `getLikeCount`: the number of likes of the post, 0 on error. */
    function GetLikeCount(postId: Id, ok: bool): (n: nat)
      reads this
      ensures n <= |likes|
      ensures ok ==> n == |Filter(likes, HasTarget(postId))|
      ensures !ok ==> n == 0
    {
      if ok then LikeCount(likes, postId) else 0
    }

    /** `getFollowerCount`: rows whose followed user is `userId`. */
    function GetFollowerCount(userId: Id, ok: bool): (n: nat)
      reads this
      ensures n <= |follows|
      ensures ok ==> n == |Filter(follows, HasTarget(userId))|
      ensures !ok ==> n == 0
    {
      if ok then FollowerCount(follows, userId) else 0
    }

    /** `getFollowingCount`: rows whose follower is `userId`. */
    function GetFollowingCount(userId: Id, ok: bool): (n: nat)
      reads this
      ensures n <= |follows|
      ensures ok ==> n == |Filter(follows, HasActor(userId))|
      ensures !ok ==> n == 0
    {
      if ok then FollowingCount(follows, userId) else 0
    }

    /** `getPostCountByAuthor`: the author's published posts. */
    function GetPostCountByAuthor(authorId: Id, ok: bool): (n: nat)
      reads this
      ensures n <= |posts|
      ensures ok ==> n == |Filter(posts, PublishedBy(authorId))|
      ensures !ok ==> n == 0
    {
      if ok then Count(posts, PublishedBy(authorId)) else 0
    }

    // -------------------------------------------------------------------
    // Toggles
    // -------------------------------------------------------------------

    /** `toggleLike`: look the pair up (a failed lookup, and one that meets
        several rows, is ignored and reads as "no row"), delete the row found
        by its id, or else insert a new row; the answer is whether the write
        succeeded. */
    method ToggleLike(userId: Id, postId: Id, lookupOk: bool, writeOk: bool) returns (success: bool)
      requires Valid()
      modifies this`likes, this`nextId, this`clock
      ensures Valid()
      ensures success == writeOk
      ensures likes == Toggled(old(likes), userId, postId, lookupOk, writeOk,
                               Membership(old(nextId), userId, postId, old(clock)))
      ensures nextId == old(nextId) + 1 && clock == old(clock) + 1
      ensures lookupOk && success && UniquePairs(old(likes)) ==>
        (HasPair(likes, userId, postId) <==> !HasPair(old(likes), userId, postId))
      ensures lookupOk && success ==>
        LikeCount(likes, postId) == LikeCount(old(likes), postId) + (if SinglePair(old(likes), userId, postId) then -1 else 1)
      ensures forall other :: other != postId ==> LikeCount(likes, other) == LikeCount(old(likes), other)
    {
      ToggleKeepsTable(likes, userId, postId, lookupOk, writeOk, nextId, clock);
      ToggleEffects(likes, userId, postId, lookupOk, writeOk, Membership(nextId, userId, postId, clock));
      var existing := LookupPair(likes, userId, postId, lookupOk);
      if existing.Some? {
        if writeOk {
          likes := RemoveId(likes, likes[existing.value].id);
        }
      } else if writeOk {
        likes := likes + [Membership(nextId, userId, postId, clock)];
      }
      nextId, clock := nextId + 1, clock + 1;
      success := writeOk;
    }

    /** `toggleBookmark`, the same check-then-act on the bookmarks table. */
    method ToggleBookmark(userId: Id, postId: Id, lookupOk: bool, writeOk: bool) returns (success: bool)
      requires Valid()
      modifies this`bookmarks, this`nextId, this`clock
      ensures Valid()
      ensures success == writeOk
      ensures bookmarks == Toggled(old(bookmarks), userId, postId, lookupOk, writeOk,
                               Membership(old(nextId), userId, postId, old(clock)))
      ensures nextId == old(nextId) + 1 && clock == old(clock) + 1
      ensures lookupOk && success && UniquePairs(old(bookmarks)) ==>
        (HasPair(bookmarks, userId, postId) <==> !HasPair(old(bookmarks), userId, postId))
    {
      ToggleKeepsTable(bookmarks, userId, postId, lookupOk, writeOk, nextId, clock);
      ToggleEffects(bookmarks, userId, postId, lookupOk, writeOk, Membership(nextId, userId, postId, clock));
      var existing := LookupPair(bookmarks, userId, postId, lookupOk);
      if existing.Some? {
        if writeOk {
          bookmarks := RemoveId(bookmarks, bookmarks[existing.value].id);
        }
      } else if writeOk {
        bookmarks := bookmarks + [Membership(nextId, userId, postId, clock)];
      }
      nextId, clock := nextId + 1, clock + 1;
      success := writeOk;
    }

    /** `toggleFollow`, on `(follower_id, following_id)`. */
    method ToggleFollow(followerId: Id, followingId: Id, lookupOk: bool, writeOk: bool) returns (success: bool)
      requires Valid()
      modifies this`follows, this`nextId, this`clock
      ensures Valid()
      ensures success == writeOk
      ensures follows == Toggled(old(follows), followerId, followingId, lookupOk, writeOk,
                               Membership(old(nextId), followerId, followingId, old(clock)))
      ensures nextId == old(nextId) + 1 && clock == old(clock) + 1
      ensures lookupOk && success && UniquePairs(old(follows)) ==>
        (HasPair(follows, followerId, followingId) <==> !HasPair(old(follows), followerId, followingId))
      ensures lookupOk && success ==> forall u ::
        var delta := if SinglePair(old(follows), followerId, followingId) then -1 else 1;
        && FollowingCount(follows, u) == FollowingCount(old(follows), u) + (if u == followerId then delta else 0)
        && FollowerCount(follows, u) == FollowerCount(old(follows), u) + (if u == followingId then delta else 0)
    {
      ToggleKeepsTable(follows, followerId, followingId, lookupOk, writeOk, nextId, clock);
      ToggleEffects(follows, followerId, followingId, lookupOk, writeOk, Membership(nextId, followerId, followingId, clock));
      var existing := LookupPair(follows, followerId, followingId, lookupOk);
      if existing.Some? {
        if writeOk {
          follows := RemoveId(follows, follows[existing.value].id);
        }
      } else if writeOk {
        follows := follows + [Membership(nextId, followerId, followingId, clock)];
      }
      nextId, clock := nextId + 1, clock + 1;
      success := writeOk;
    }

    // -------------------------------------------------------------------
    // Post listings
    // -------------------------------------------------------------------

    /** `getPosts(limit, offset, status)`: the posts passing the status
        filter, in listing order, rows `offset .. offset + limit - 1` of
        them, each with its author; `[]` on error. */
    function GetPosts(ok: bool, limit: nat := 20, offset: nat := 0, status: StatusFilter := OnlyPublished)
      : (r: seq<PostWithAuthor>)
      reads this
      ensures |r| <= limit
      ensures !ok ==> r == []
      ensures ok ==> Posts(r) == Window(Filter(posts, StatusMatches(status)), offset, limit)
      ensures forall k :: 0 <= k < |r| ==>
        r[k].post in posts && r[k].author == FindProfileById(profiles, r[k].post.author_id)
      ensures status == OnlyPublished ==> forall k :: 0 <= k < |r| ==> r[k].post.status == Published
    {
      if !ok then []
      else
        var page := Window(Filter(posts, StatusMatches(status)), offset, limit);
        var r := WithAuthors(profiles, page);
        assert Posts(r) == page;
        r
    }

    /** `getPosts` with the post's categories embedded as well, as the
        home page's category filter needs them: the same page of posts,
        each carrying the categories it is linked to. */
    function GetPostsWithCategories(ok: bool, limit: nat := 20, offset: nat := 0,
                                    status: StatusFilter := OnlyPublished): (r: seq<PostWithAuthor>)
      reads this
      ensures |r| == |GetPosts(ok, limit, offset, status)|
      ensures forall k :: 0 <= k < |r| ==>
        && r[k].post == GetPosts(ok, limit, offset, status)[k].post
        && r[k].author == GetPosts(ok, limit, offset, status)[k].author
        && r[k].categories == Some(CategoriesOf(categories, postCategories, r[k].post.id))
    {
      Map(Posts(GetPosts(ok, limit, offset, status)), CategoryEmbedding(profiles, categories, postCategories))
    }

    /** `getPostBySlug`: the post with that slug and its author; null on
        error or when no post has the slug. */
    function GetPostBySlug(slug: string, ok: bool): (r: Option<PostWithAuthor>)
      reads this
      ensures r.None? <==> !ok || forall k :: 0 <= k < |posts| ==> posts[k].slug != slug
      ensures r.Some? ==>
        r.value.post in posts && r.value.post.slug == slug && r.value.author == FindProfileById(profiles, r.value.post.author_id)
    {
      var found := if ok then FindByKey(posts, PostSlug, slug) else None;
      if found.None? then None else Some(Embedding(profiles)(found.value))
    }

    /** `getPostsByAuthor`: the author's published posts, at most `limit`. */
    function GetPostsByAuthor(authorId: Id, ok: bool, limit: nat := 20): (r: seq<PostWithAuthor>)
      reads this
      ensures |r| <= limit
      ensures !ok ==> r == []
      ensures ok ==> Posts(r) == Take(Filter(posts, PublishedBy(authorId)), limit)
      ensures forall k :: 0 <= k < |r| ==>
        r[k].post in posts && r[k].post.status == Published && r[k].post.author_id == authorId
    {
      if !ok then []
      else
        var page := Take(Filter(posts, PublishedBy(authorId)), limit);
        var r := WithAuthors(profiles, page);
        assert Posts(r) == page;
        r
    }

    /** `searchPosts`: published posts matching the query, at most `limit`.
        How the `ilike` filter matches is left abstract as `matches`. */
    function SearchPosts(matches: Post -> bool, ok: bool, limit: nat := 20): (r: seq<PostWithAuthor>)
      reads this
      ensures |r| <= limit
      ensures !ok ==> r == []
      ensures ok ==> Posts(r) == Take(Filter(posts, PublishedMatching(matches)), limit)
      ensures forall k :: 0 <= k < |r| ==>
        r[k].post in posts && r[k].post.status == Published && matches(r[k].post)
    {
      if !ok then []
      else
        var page := Take(Filter(posts, PublishedMatching(matches)), limit);
        var r := WithAuthors(profiles, page);
        assert Posts(r) == page;
        r
    }

    /** `getPostsByCategory`: the category is looked up by slug and its
        post ids read from the join table (errors of both lookups are
        ignored, so they read as "nothing found"); no category or no linked
        post gives `[]`; otherwise the published posts among those ids, at
        most `limit`. */
    function GetPostsByCategory(slug: string, categoryOk: bool, linksOk: bool, postsOk: bool, limit: nat := 20)
      : (r: seq<PostWithAuthor>)
      reads this
      ensures |r| <= limit
      ensures !categoryOk || !postsOk || FindByKey(categories, CategorySlug, slug).None? ==> r == []
      ensures categoryOk && postsOk && FindByKey(categories, CategorySlug, slug).Some? ==>
        var ids := if linksOk then LinkedPostIds(postCategories, FindByKey(categories, CategorySlug, slug).value.id)
                   else [];
        Posts(r) == Take(Filter(posts, PublishedIn(ids)), limit)
      ensures forall k :: 0 <= k < |r| ==>
        && r[k].post in posts && r[k].post.status == Published
        && r[k].author == FindProfileById(profiles, r[k].post.author_id)
        && exists c :: c in categories && c.slug == slug && PostCategory(r[k].post.id, c.id) in postCategories
    {
      var category := if categoryOk then FindByKey(categories, CategorySlug, slug) else None;
      if category.None? then []
      else
        var ids := if linksOk then LinkedPostIds(postCategories, category.value.id) else [];
        if ids == [] then
          FilterRejectsAll(posts, PublishedIn(ids));
          []
        else if !postsOk then []
        else
          var page := Take(Filter(posts, PublishedIn(ids)), limit);
          var r := WithAuthors(profiles, page);
          assert Posts(r) == page;
          assert forall k :: 0 <= k < |r| ==> r[k].post == page[k] && page[k].id in ids;
          r
    }

    /** Every published post linked to the category is listed, unless the
        listing is already `limit` long: nothing linked is dropped. */
    lemma PostsByCategoryComplete(slug: string, limit: nat)
      requires FindByKey(categories, CategorySlug, slug).Some?
      ensures var r := GetPostsByCategory(slug, true, true, true, limit);
        var c := FindByKey(categories, CategorySlug, slug).value;
        |r| < limit ==> forall k ::
          (0 <= k < |posts| && posts[k].status == Published && PostCategory(posts[k].id, c.id) in postCategories)
          ==> posts[k] in Posts(r)
    {
      var c := FindByKey(categories, CategorySlug, slug).value;
      var ids := LinkedPostIds(postCategories, c.id);
      var all := Filter(posts, PublishedIn(ids));
      FilterComplete(posts, PublishedIn(ids));
      forall k | 0 <= k < |posts| && posts[k].status == Published && PostCategory(posts[k].id, c.id) in postCategories
        ensures posts[k] in all
      {
        assert PublishedIn(ids)(posts[k]);
      }
    }

    /** `getBookmarkedPosts`: the user's `limit` most recent bookmarks give
        the post ids (a failed read gives none, hence `[]`); the result is
        the published posts among them, in listing order. */
    function GetBookmarkedPosts(userId: Id, bookmarksOk: bool, postsOk: bool, limit: nat := 20)
      : (r: seq<PostWithAuthor>)
      reads this
      ensures !bookmarksOk || !postsOk ==> r == []
      ensures bookmarksOk && postsOk ==>
        Posts(r) == Filter(posts, PublishedIn(Map(RecentBookmarks(bookmarks, userId, limit), TargetOf)))
      ensures forall k :: 0 <= k < |r| ==>
        && r[k].post in posts && r[k].post.status == Published
        && r[k].author == FindProfileById(profiles, r[k].post.author_id)
        && exists b :: b in RecentBookmarks(bookmarks, userId, limit) && b.target == r[k].post.id
      ensures forall k :: 0 <= k < |r| ==>
        exists j :: 0 <= j < |bookmarks| && bookmarks[j].actor == userId && bookmarks[j].target == r[k].post.id
    {
      var recent := if bookmarksOk then RecentBookmarks(bookmarks, userId, limit) else [];
      var ids := Map(recent, TargetOf);
      if recent == [] then
        FilterRejectsAll(posts, PublishedIn(ids));
        []
      else if !postsOk then []
      else
        TargetsOfBookmarks(recent, bookmarks, userId);
        PublishedAmong(profiles, posts, ids)
    }

    /** Every published post that one of the user's `limit` newest bookmarks
        points to is listed. */
    lemma BookmarkedPostsComplete(userId: Id, limit: nat)
      ensures var r := GetBookmarkedPosts(userId, true, true, limit);
        forall k, b ::
          (0 <= k < |posts| && posts[k].status == Published &&
           b in RecentBookmarks(bookmarks, userId, limit) && b.target == posts[k].id)
          ==> posts[k] in Posts(r)
    {
      var recent := RecentBookmarks(bookmarks, userId, limit);
      var ids := Map(recent, TargetOf);
      FilterComplete(posts, PublishedIn(ids));
      forall k, b | 0 <= k < |posts| && posts[k].status == Published && b in recent && b.target == posts[k].id
        ensures PublishedIn(ids)(posts[k])
      {
        var i :| 0 <= i < |recent| && recent[i] == b;
        assert ids[i] == posts[k].id;
      }
    }

    // -------------------------------------------------------------------
    // Comments
    // -------------------------------------------------------------------

    /** `getCommentsByPost`: the approved comments of the post, oldest
        first; `[]` on error. */
    function GetCommentsByPost(postId: Id, ok: bool): (r: seq<Comment>)
      reads this
      ensures !ok ==> r == []
      ensures forall k :: 0 <= k < |r| ==> r[k] in comments && r[k].post_id == postId && r[k].is_approved
      ensures ok ==> forall k :: 0 <= k < |comments| && comments[k].post_id == postId && comments[k].is_approved
                       ==> comments[k] in r
      ensures Valid() ==> SortedBy(r, CommentCreatedAt)
    {
      if !ok then []
      else
        var r := Filter(comments, ApprovedOn(postId));
        FilterSorted(comments, ApprovedOn(postId), CommentCreatedAt);
        FilterComplete(comments, ApprovedOn(postId));
        r
    }

    // -------------------------------------------------------------------
    // Profiles
    // -------------------------------------------------------------------

    /** `getProfileByUsername`: null when the lookup fails or no profile
        has the username; otherwise the profile with its published post
        count and follower and following counts (each 0 when its own query
        fails). */
    function GetProfileByUsername(username: string, lookupOk: bool, postCountOk: bool, followerOk: bool,
                                  followingOk: bool): (r: Option<ProfileWithStats>)
      reads this
      ensures r.None? <==> !lookupOk || forall k :: 0 <= k < |profiles| ==> profiles[k].username != username
      ensures r.Some? ==> r.value.profile in profiles && r.value.profile.username == username
      ensures r.Some? ==> var id := r.value.profile.id;
        && r.value.post_count == (if postCountOk then |Filter(posts, PublishedBy(id))| else 0)
        && r.value.follower_count == (if followerOk then |Filter(follows, HasTarget(id))| else 0)
        && r.value.following_count == (if followingOk then |Filter(follows, HasActor(id))| else 0)
    {
      var found := if lookupOk then FindByKey(profiles, Username, username) else None;
      if found.None? then None
      else
        var p := found.value;
        Some(ProfileWithStats(p, GetPostCountByAuthor(p.id, postCountOk), GetFollowerCount(p.id, followerOk),
                              GetFollowingCount(p.id, followingOk)))
    }

    // -------------------------------------------------------------------
    // Inserts and deletes
    // -------------------------------------------------------------------

    /** `createPost`: the inserted row, with a new id, zero views and the
        current time as creation time, placed first in listing order; null
        when the insert fails. */
    method CreatePost(data: NewPost, ok: bool) returns (created: Option<Post>)
      requires Valid()
      modifies this`posts, this`nextId, this`clock
      ensures Valid()
      ensures !ok ==> created.None? && posts == old(posts)
      ensures ok ==> created.Some? && posts == [created.value] + old(posts)
      ensures created.Some? ==> var p := created.value;
        && p.id == old(nextId) && p.author_id == data.author_id && p.title == data.title && p.slug == data.slug
        && p.content == Some(data.content) && p.excerpt == Some(data.excerpt)
        && p.cover_image == Some(data.cover_image) && p.status == data.status
        && p.published_at == data.published_at && p.reading_time == data.reading_time && p.view_count == 0
        && p.is_premium == data.is_premium && p.seo_title == Some(data.seo_title)
        && p.seo_description == Some(data.seo_description) && p.created_at == old(clock)
      ensures nextId == old(nextId) + 1 && clock == old(clock) + 1
    {
      created := None;
      if ok {
        var p := Post(nextId, data.author_id, data.title, data.slug, Some(data.content), Some(data.excerpt),
                      Some(data.cover_image), data.status, data.published_at, data.reading_time, 0,
                      data.is_premium, Some(data.seo_title), Some(data.seo_description), clock);
        posts := [p] + posts;
        created := Some(p);
      }
      nextId, clock := nextId + 1, clock + 1;
    }

    /** `createComment`: the inserted row, with a new id and the current
        time, appended in creation order; `approved` is the store's default
        for `is_approved`. Null when the insert fails. */
    method CreateComment(c: NewComment, approved: bool, ok: bool) returns (created: Option<Comment>)
      requires Valid()
      modifies this`comments, this`nextId, this`clock
      ensures Valid()
      ensures !ok ==> created.None? && comments == old(comments)
      ensures ok ==> (created == Some(Comment(old(nextId), c.post_id, c.author_id, c.parent_id, c.content,
                                               approved, old(clock)))
                      && comments == old(comments) + [created.value])
      ensures nextId == old(nextId) + 1 && clock == old(clock) + 1
    {
      created := None;
      if ok {
        var row := Comment(nextId, c.post_id, c.author_id, c.parent_id, c.content, approved, clock);
        AppendSorted(comments, row, CommentCreatedAt);
        comments := comments + [row];
        created := Some(row);
      }
      nextId, clock := nextId + 1, clock + 1;
    }

    /** `deleteComment`: removes the rows with that id; reports whether the
        delete succeeded. */
    method DeleteComment(id: Id, ok: bool) returns (success: bool)
      requires Valid()
      modifies this`comments
      ensures Valid()
      ensures success == ok
      ensures ok ==> comments == Filter(old(comments), NotCommentId(id))
      ensures !ok ==> comments == old(comments)
    {
      if ok {
        FilterSorted(comments, NotCommentId(id), CommentCreatedAt);
        comments := Filter(comments, NotCommentId(id));
      }
      success := ok;
    }
  }
}
