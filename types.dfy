/** The domain records of the application. Identifiers (uuids in the store)
    and timestamps (ISO strings, which order chronologically) are abstracted
    to natural numbers. */
module Types {
  import opened Wrappers

  type Id = nat
  type Timestamp = nat

  datatype UserRole = Guest | Subscriber | Creator | Admin

  datatype SubscriptionTier = Free | Basic | Premium | Vip

  datatype PostStatus = Draft | Scheduled | Published | Archived

  /** Roles allowed to write posts and see analytics. */
  predicate IsCreatorRole(role: UserRole) {
    role == Creator || role == Admin
  }

  /** The gate shared by the editor, the analytics page and the header: a
      signed-in user whose loaded profile has a creator role. The signed-in
      user is represented by its id. */
  predicate HasCreatorAccess(user: Option<Id>, profile: Option<Profile>) {
    user.Some? && profile.Some? && IsCreatorRole(profile.value.role)
  }

  datatype Profile = Profile(
    id: Id,
    username: string,
    email: Option<string>,
    full_name: Option<string>,
    avatar_url: Option<string>,
    role: UserRole,
    subscription_tier: SubscriptionTier)

  datatype Post = Post(
    id: Id,
    author_id: Id,
    title: string,
    slug: string,
    content: Option<string>,
    excerpt: Option<string>,
    cover_image: Option<string>,
    status: PostStatus,
    published_at: Option<Timestamp>,
    reading_time: int,
    view_count: nat,
    is_premium: bool,
    seo_title: Option<string>,
    seo_description: Option<string>,
    created_at: Timestamp)

  /** The partial post the editor hands to `createPost`: the form's fields,
      the chosen status, the author and the publication time. */
  datatype NewPost = NewPost(
    title: string,
    slug: string,
    content: string,
    excerpt: string,
    cover_image: string,
    status: PostStatus,
    is_premium: bool,
    seo_title: string,
    seo_description: string,
    reading_time: int,
    author_id: Id,
    published_at: Option<Timestamp>)

  /** The partial comment the post page hands to `createComment`. */
  datatype NewComment = NewComment(post_id: Id, author_id: Id, content: string, parent_id: Option<Id>)

  datatype Category = Category(id: Id, name: string, slug: string)

  /** A row of the `post_categories` join table. */
  datatype PostCategory = PostCategory(post_id: Id, category_id: Id)

  datatype Comment = Comment(
    id: Id,
    post_id: Id,
    author_id: Id,
    parent_id: Option<Id>,
    content: string,
    is_approved: bool,
    created_at: Timestamp)

  /** The row shape shared by the three membership tables: for `likes` and
      `bookmarks` the actor is `user_id` and the target `post_id`; for
      `follows` the actor is `follower_id` and the target `following_id`. */
  datatype Membership = Membership(id: Id, actor: Id, target: Id, created_at: Timestamp)

  type Like = Membership
  type Bookmark = Membership
  type Follow = Membership

  datatype PostAnalytics = PostAnalytics(
    post_id: Id,
    author_id: Id,
    view_count: int,
    like_count: int,
    comment_count: int,
    bookmark_count: int,
    share_count: int)

  /** A post as the listing queries return it: the row, its embedded author
      profile (null when the author row is missing), and the categories,
      present only when a query embeds them. */
  datatype PostWithAuthor = PostWithAuthor(
    post: Post,
    author: Option<Profile>,
    categories: Option<seq<Category>>)

  datatype ProfileWithStats = ProfileWithStats(
    profile: Profile,
    post_count: nat,
    follower_count: nat,
    following_count: nat)
}
