/** The post page of src/pages/PostView.tsx: loading a post with its
    comments and engagement, the like and bookmark buttons, and posting and
    deleting comments. The page calls the store of `Api` directly; the
    store's failure inputs stand for the outcomes of its remote calls. */
module PostView {
  import opened Wrappers
  import opened Seqs
  import opened Text
  import opened Types
  import opened Tables
  import opened Api

  /** Whether the delete control is shown on a comment: to its author and
      to admins, and never without a signed-in user. */
  function CanDeleteComment(user: Option<Id>, profile: Option<Profile>, c: Comment): (r: bool)
    ensures r ==> user.Some?
    ensures user.Some? && c.author_id == user.value ==> r
    ensures user.Some? && profile.Some? && profile.value.role == Admin ==> r
    ensures r && c.author_id != user.value ==> profile.Some? && profile.value.role == Admin
  {
    user.Some? && (c.author_id == user.value || (profile.Some? && profile.value.role == Admin))
  }

  /** With unique comment ids, removing the id of comment `i` from the
      page's list removes that comment alone and keeps the rest in order. */
  lemma DeleteRemovesOne(comments: seq<Comment>, i: nat)
    requires i < |comments| && UniqueBy(comments, CommentId)
    ensures Filter(comments, NotCommentId(comments[i].id)) == comments[..i] + comments[i + 1..]
  {
    forall k | 0 <= k < |comments| && k != i ensures NotCommentId(comments[i].id)(comments[k]) {
      assert CommentId(comments[k]) != CommentId(comments[i]);
    }
    FilterDropsOne(comments, i, NotCommentId(comments[i].id));
  }

  /** Removing an id no comment has leaves the list as it is. */
  lemma DeleteOfAbsentId(comments: seq<Comment>, id: Id)
    requires forall k :: 0 <= k < |comments| ==> comments[k].id != id
    ensures Filter(comments, NotCommentId(id)) == comments
  {
    FilterKeepsAll(comments, NotCommentId(id));
  }

  class PostPage {
    var post: Option<PostWithAuthor>
    var comments: seq<Comment>
    var loading: bool
    var liked: bool
    var bookmarked: bool
    var likeCount: int
    var commentText: string
    var submittingComment: bool
    var redirectedTo: Option<string>

    constructor ()
      ensures post.None? && comments == [] && loading && !liked && !bookmarked && likeCount == 0
      ensures commentText == [] && !submittingComment && redirectedTo.None?
    {
      post, comments, loading := None, [], true;
      liked, bookmarked, likeCount := false, false, 0;
      commentText, submittingComment, redirectedTo := [], false, None;
    }

    /** The like button and counter show what the store holds for the
        signed-in user and the shown post. */
    ghost predicate LikeInSync(store: Store, user: Option<Id>)
      reads this, store
    {
      post.Some? ==>
        && liked == (user.Some? && HasPair(store.likes, user.value, post.value.post.id))
        && likeCount == LikeCount(store.likes, post.value.post.id)
    }

    /** The bookmark button shows what the store holds. */
    ghost predicate BookmarkInSync(store: Store, user: Option<Id>)
      reads this, store
    {
      post.Some? ==> bookmarked == (user.Some? && HasPair(store.bookmarks, user.value, post.value.post.id))
    }

    /** `loadPost`: nothing happens without a slug; a post that is not found
        sends the reader home and leaves the page loading, without comments
        or engagement being read; a found post is shown with its approved
        comments, its like count and, for a signed-in user, whether it is
        liked and bookmarked. */
    method LoadPost(store: Store, slug: string, user: Option<Id>, postOk: bool, commentsOk: bool, countOk: bool,
                    likedOk: bool, bookmarkedOk: bool)
      modifies this`post, this`comments, this`loading, this`liked, this`bookmarked, this`likeCount,
               this`redirectedTo
      ensures slug == [] ==>
        && post == old(post) && comments == old(comments) && loading == old(loading) && liked == old(liked)
        && bookmarked == old(bookmarked) && likeCount == old(likeCount) && redirectedTo == old(redirectedTo)
      ensures slug != [] && store.GetPostBySlug(slug, postOk).None? ==>
        && redirectedTo == Some("/") && loading
        && post == old(post) && comments == old(comments) && liked == old(liked)
        && bookmarked == old(bookmarked) && likeCount == old(likeCount)
      ensures slug != [] && store.GetPostBySlug(slug, postOk).Some? ==>
        var shown := store.GetPostBySlug(slug, postOk).value;
        var id := shown.post.id;
        && post == Some(shown) && !loading && redirectedTo == old(redirectedTo)
        && comments == store.GetCommentsByPost(id, commentsOk)
        && likeCount == store.GetLikeCount(id, countOk)
        && liked == (user.Some? && store.IsPostLiked(user.value, id, likedOk))
        && bookmarked == (user.Some? && store.IsPostBookmarked(user.value, id, bookmarkedOk))
      ensures slug != [] && postOk && countOk && likedOk && bookmarkedOk &&
              UniquePairs(store.likes) && UniquePairs(store.bookmarks) &&
              (exists k :: 0 <= k < |store.posts| && store.posts[k].slug == slug) ==>
        post.Some? && post.value.post.slug == slug && LikeInSync(store, user) && BookmarkInSync(store, user)
    {
      if slug == [] {
        return;
      }
      loading := true;
      var found := store.GetPostBySlug(slug, postOk);
      if found.None? {
        redirectedTo := Some("/");
        return;
      }
      post := found;
      var id := found.value.post.id;
      comments := store.GetCommentsByPost(id, commentsOk);
      likeCount := store.GetLikeCount(id, countOk);
      liked := user.Some? && store.IsPostLiked(user.value, id, likedOk);
      bookmarked := user.Some? && store.IsPostBookmarked(user.value, id, bookmarkedOk);
      loading := false;
    }

    /** `handleLike`: without a signed-in user or a post the reader is sent
        to the sign-in page and the store is not called; otherwise the like
        is toggled in the store and, when that succeeds, `liked` flips and
        the counter moves by one (down if it was liked). A page in sync with
        the store stays in sync when the toggle's lookup succeeds. */
    method HandleLike(store: Store, user: Option<Id>, lookupOk: bool, writeOk: bool)
      requires store.Valid()
      modifies this`liked, this`likeCount, this`redirectedTo, store`likes, store`nextId, store`clock
      ensures store.Valid()
      ensures user.None? || post.None? ==>
        && redirectedTo == Some("/login") && unchanged(store)
        && liked == old(liked) && likeCount == old(likeCount)
      ensures user.Some? && post.Some? ==>
        && redirectedTo == old(redirectedTo)
        && store.likes == Toggled(old(store.likes), user.value, post.value.post.id, lookupOk, writeOk,
                                  Membership(old(store.nextId), user.value, post.value.post.id, old(store.clock)))
        && (writeOk ==> liked == !old(liked) && likeCount == old(likeCount) + (if old(liked) then -1 else 1))
        && (!writeOk ==> liked == old(liked) && likeCount == old(likeCount))
      ensures lookupOk && UniquePairs(old(store.likes)) && old(LikeInSync(store, user)) ==> LikeInSync(store, user)
    {
      if user.None? || post.None? {
        redirectedTo := Some("/login");
        return;
      }
      var success := store.ToggleLike(user.value, post.value.post.id, lookupOk, writeOk);
      if success {
        likeCount := if liked then likeCount - 1 else likeCount + 1;
        liked := !liked;
      }
    }

    /** `handleBookmark`: the same gate, then the bookmark is toggled and,
        on success, `bookmarked` flips. */
    method HandleBookmark(store: Store, user: Option<Id>, lookupOk: bool, writeOk: bool)
      requires store.Valid()
      modifies this`bookmarked, this`redirectedTo, store`bookmarks, store`nextId, store`clock
      ensures store.Valid()
      ensures user.None? || post.None? ==>
        redirectedTo == Some("/login") && unchanged(store) && bookmarked == old(bookmarked)
      ensures user.Some? && post.Some? ==>
        && redirectedTo == old(redirectedTo)
        && store.bookmarks == Toggled(old(store.bookmarks), user.value, post.value.post.id, lookupOk, writeOk,
                                      Membership(old(store.nextId), user.value, post.value.post.id, old(store.clock)))
        && bookmarked == (if writeOk then !old(bookmarked) else old(bookmarked))
      ensures lookupOk && UniquePairs(old(store.bookmarks)) && old(BookmarkInSync(store, user)) ==>
        BookmarkInSync(store, user)
    {
      if user.None? || post.None? {
        redirectedTo := Some("/login");
        return;
      }
      var success := store.ToggleBookmark(user.value, post.value.post.id, lookupOk, writeOk);
      if success {
        bookmarked := !bookmarked;
      }
    }

    /** `handleSubmitComment`: without a user or a post the reader is sent
        to sign in; a blank comment is refused; in both cases the store is
        not called. Otherwise a top-level comment by the user on the post,
        with the text as typed, is created; success clears the text and
        asks for the post to be reloaded. `submittingComment` ends false. */
    method SubmitComment(store: Store, user: Option<Id>, approved: bool, ok: bool) returns (reload: bool)
      requires store.Valid()
      modifies this`commentText, this`submittingComment, this`redirectedTo, store`comments, store`nextId,
               store`clock
      ensures store.Valid()
      ensures user.None? || post.None? ==>
        && redirectedTo == Some("/login") && unchanged(store) && !reload
        && commentText == old(commentText) && submittingComment == old(submittingComment)
      ensures user.Some? && post.Some? && IsBlank(old(commentText)) ==>
        && redirectedTo == old(redirectedTo) && unchanged(store) && !reload
        && commentText == old(commentText) && submittingComment == old(submittingComment)
      ensures user.Some? && post.Some? && !IsBlank(old(commentText)) ==>
        && redirectedTo == old(redirectedTo) && !submittingComment && reload == ok
        && store.comments == old(store.comments) +
             (if ok then [Comment(old(store.nextId), post.value.post.id, user.value, None, old(commentText),
                                  approved, old(store.clock))]
              else [])
        && commentText == (if ok then [] else old(commentText))
    {
      reload := false;
      if user.None? || post.None? {
        redirectedTo := Some("/login");
        return;
      }
      if IsBlank(commentText) {
        return;
      }
      submittingComment := true;
      var result := store.CreateComment(NewComment(post.value.post.id, user.value, commentText, None), approved, ok);
      if result.Some? {
        commentText := [];
        reload := true;
      }
      submittingComment := false;
    }

    /** `handleDeleteComment`: nothing without a signed-in user; otherwise
        the store deletes the comment and, on success, every comment with
        that id leaves the page's list, the others staying in order. */
    method HandleDeleteComment(store: Store, user: Option<Id>, commentId: Id, ok: bool)
      requires store.Valid()
      modifies this`comments, store`comments
      ensures store.Valid()
      ensures user.None? ==> unchanged(store) && comments == old(comments)
      ensures user.Some? ==>
        && store.comments == (if ok then Filter(old(store.comments), NotCommentId(commentId)) else old(store.comments))
        && comments == (if ok then Filter(old(comments), NotCommentId(commentId)) else old(comments))
    {
      if user.None? {
        return;
      }
      var success := store.DeleteComment(commentId, ok);
      if success {
        comments := Filter(comments, NotCommentId(commentId));
      }
    }
  }
}
