/** The home feed of src/pages/Home.tsx: the latest posts and the
    category filter over them. */
module Home {
  import opened Wrappers
  import opened Seqs
  import opened Types
  import opened Tables
  import opened Api

  /** The number of posts the feed asks for. */
  const FeedLimit: nat := 20

  /** `post.categories?.some((cat) => cat.slug === slug)`: false when the
      post carries no categories. */
  function HasCategorySlug(slug: string): PostWithAuthor -> bool {
    (p: PostWithAuthor) =>
      p.categories.Some? && exists k :: 0 <= k < |p.categories.value| && p.categories.value[k].slug == slug
  }

  /** `filteredPosts`: all posts when no category is selected (null or the
      empty string, both falsy); otherwise the posts, in feed order, having
      a category with the selected slug. */
  function FilteredPosts(posts: seq<PostWithAuthor>, selected: Option<string>): (r: seq<PostWithAuthor>)
    ensures selected.None? || selected.value == [] ==> r == posts
    ensures |r| <= |posts|
    ensures selected.Some? && selected.value != [] ==>
      && (forall k :: 0 <= k < |r| ==>
            && r[k] in posts && r[k].categories.Some?
            && exists j :: 0 <= j < |r[k].categories.value| && r[k].categories.value[j].slug == selected.value)
      && (forall k :: 0 <= k < |posts| && posts[k].categories.Some? &&
            (exists j :: 0 <= j < |posts[k].categories.value| && posts[k].categories.value[j].slug == selected.value)
            ==> posts[k] in r)
  {
    if selected.None? || selected.value == [] then posts
    else
      FilterComplete(posts, HasCategorySlug(selected.value));
      Filter(posts, HasCategorySlug(selected.value))
  }

  /** The filter over the posts as `getPosts` returns them: those rows never
      carry categories, so selecting any category empties the feed. */
  lemma CategoryFilterEmptiesFeed(store: Store, ok: bool, slug: string)
    requires slug != []
    ensures FilteredPosts(store.GetPosts(ok, FeedLimit), Some(slug)) == []
  {
    var page := store.GetPosts(ok, FeedLimit);
    forall k | 0 <= k < |page| ensures !HasCategorySlug(slug)(page[k]) {
      assert page[k].categories.None?;
    }
    FilterRejectsAll(page, HasCategorySlug(slug));
  }

  /** Posts linked to a category with the slug. */
  function LinkedToSlug(categories: seq<Category>, links: seq<PostCategory>, slug: string): Post -> bool {
    (p: Post) => exists c :: c in categories && c.slug == slug && PostCategory(p.id, c.id) in links
  }

  /** With categories embedded, the filter keeps exactly the feed's posts
      linked to a category with the selected slug, in feed order. */
  lemma CategoryFilterWithCategories(store: Store, ok: bool, slug: string)
    requires slug != []
    ensures Posts(FilteredPosts(store.GetPostsWithCategories(ok, FeedLimit), Some(slug)))
         == Filter(Posts(store.GetPostsWithCategories(ok, FeedLimit)),
                   LinkedToSlug(store.categories, store.postCategories, slug))
  {
    var feed := store.GetPostsWithCategories(ok, FeedLimit);
    FilterMapped(feed, HasCategorySlug(slug), LinkedToSlug(store.categories, store.postCategories, slug));
  }

  /** Filtering the feed by a test that only looks at the post row is
      filtering the post rows. */
  lemma {:induction false} FilterMapped(feed: seq<PostWithAuthor>, p: PostWithAuthor -> bool, q: Post -> bool)
    requires forall k :: 0 <= k < |feed| ==> p(feed[k]) == q(feed[k].post)
    ensures Posts(Filter(feed, p)) == Filter(Posts(feed), q)
  {
    if feed != [] {
      FilterMapped(feed[1..], p, q);
      assert Posts(feed)[1..] == Posts(feed[1..]);
    }
  }

  class HomePage {
    var posts: seq<PostWithAuthor>
    var categories: seq<Category>
    var loading: bool
    var selectedCategory: Option<string>

    constructor ()
      ensures posts == [] && categories == [] && loading && selectedCategory.None?
    {
      posts, categories, loading, selectedCategory := [], [], true, None;
    }

    /** The feed shown: the loaded posts through the category filter. */
    function Shown(): (r: seq<PostWithAuthor>)
      reads this
      ensures |r| <= |posts|
      ensures selectedCategory.None? ==> r == posts
    {
      FilteredPosts(posts, selectedCategory)
    }

    /** `loadData`: the first `FeedLimit` published posts, with their
        categories, and the category list. */
    method LoadData(store: Store, postsOk: bool, fetchedCategories: seq<Category>)
      modifies this`posts, this`categories, this`loading
      ensures posts == store.GetPostsWithCategories(postsOk, FeedLimit)
      ensures |posts| <= FeedLimit
      ensures forall k :: 0 <= k < |posts| ==> posts[k].post.status == Published
      ensures categories == fetchedCategories && !loading
    {
      loading := true;
      posts := store.GetPostsWithCategories(postsOk, FeedLimit);
      categories := fetchedCategories;
      loading := false;
    }

    /** A category button, or "All" with `None`. */
    method SelectCategory(slug: Option<string>)
      modifies this`selectedCategory
      ensures selectedCategory == slug
    {
      selectedCategory := slug;
    }
  }
}
