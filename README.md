# A verified model of the blogging platform's core

This project models the core of a React and Supabase blogging platform in
Dafny. Readers browse published posts, like, bookmark and comment on them,
follow authors and subscribe to a newsletter. Creators write posts and read
their analytics. Paid tiers go through a Stripe checkout.

The model has two layers:

- **The data-access layer** (`src/db/api.ts`). It is modelled by the module
  `Tables`, which holds the row semantics as pure functions, and by the class
  `Api.Store`. The Store's fields are the remote tables: profiles, posts,
  categories, post_categories, comments, likes, bookmarks and follows.
  - Every remote call can fail, and each failure is a boolean parameter.
    A failed lookup returns nothing or zero.
  - Each like, bookmark or follow toggle is a check-then-act on a membership
    table.
  - Inserts draw their `id` and `created_at` from two counters in the Store,
    `nextId` and `clock`. These stand for uuid generation and the server
    clock.
- **The pages** that drive it. Each page is a class whose fields are the
  page's React state, and its handlers are methods.
  - An `async` handler that awaits a call the model cannot see is split at
    the `await`. A `Start...` method runs up to the call and returns the
    request. A `Finish...`/`Complete...` method is the continuation and
    takes the response as an input.
  - Handlers that only call the data layer take the Store and run directly.
    These are the post view, home, search and analytics pages.
  - The pages modelled are: post creation (slugs, reading time, the form),
    the newsletter form, the header, the post view page, home, search,
    analytics, pricing and the payment-success page.

Modules follow the source files:

| module | models |
|---|---|
| `Wrappers` | `Option` |
| `Seqs` | `filter`, `map`, `slice` and `reverse`, with their lemmas |
| `Text` | JavaScript `\s`, `trim()` and ASCII case mapping |
| `Types` | `src/types/types.ts` |
| `Routes` | `src/routes.tsx` |
| `Tables`, `Api` | `src/db/api.ts` |
| `CreatePost`, `Newsletter`, `Header`, `PostView`, `Home`, `Search`, `Analytics`, `Pricing`, `PaymentSuccess` | the page or component of the same name |

Where the design description and the code disagree, the model follows the
code:

- The design description calls the like and bookmark toggles on the post page
  optimistic. `handleLike` and `handleBookmark` in `src/pages/PostView.tsx`
  change `liked`/`bookmarked` and `likeCount` only after the toggle returns
  success. `PostView.PostPage.HandleLike` models that.

## Model

| member | source | states |
|---|---|---|
| `Text.TrimStart` | src/pages/CreatePost.tsx:79 | The result is a suffix of the input; the part removed is all whitespace, and the result does not start with whitespace. |
| `Text.TrimEnd` | src/pages/CreatePost.tsx:79 | The result is a prefix of the input; the part removed is all whitespace, and the result does not end with whitespace. |
| `Text.Trim` | src/pages/CreatePost.tsx:79 | The result is no longer than the input and has no whitespace at either end. |
| `Text.TrimUnchanged` | src/pages/CreatePost.tsx:79 | Trimming a string without whitespace at either end returns it unchanged. |
| `Text.BlankIffAllSpace` | src/pages/CreatePost.tsx:79-86 | `!s.trim()` holds exactly when every character of `s` is whitespace. |
| `CreatePost.GenerateSlugIsSlug` | src/pages/CreatePost.tsx:48-53 | Every generated slug contains only `a-z`, `0-9` and `-`, with no `--` and no `-` at either end. |
| `CreatePost.CollapseRunsShape` | src/pages/CreatePost.tsx:51 | Replacing each run of non-`[a-z0-9]` characters by one `-` gives only slug characters and no double hyphen. |
| `CreatePost.TrimHyphensShape` | src/pages/CreatePost.tsx:52 | Stripping leading and trailing hyphens keeps the alphabet and the no-`--` property, and leaves no hyphen at either end. |
| `CreatePost.SkipRunLetters` | src/pages/CreatePost.tsx:51 | Skipping a run of separators drops no letter or digit. |
| `CreatePost.CollapseRunsLetters` | src/pages/CreatePost.tsx:51 | Collapsing the runs keeps exactly the letters and digits of the input, in order. |
| `CreatePost.TrimHyphensLetters` | src/pages/CreatePost.tsx:52 | The hyphen trim keeps exactly the letters and digits, in order. |
| `CreatePost.GenerateSlugLetters` | src/pages/CreatePost.tsx:48-53 | The letters and digits of the slug are those of the lower-cased title, in order. |
| `CreatePost.GenerateSlugEmpty` | src/pages/CreatePost.tsx:48-53 | The slug is empty exactly when the lower-cased title holds no ASCII letter or digit. |
| `CreatePost.CollapseRunsFixpoint` | src/pages/CreatePost.tsx:51 | Collapsing leaves a string unchanged when it has only slug characters and no `--`. |
| `CreatePost.LowerFixpoint` | src/pages/CreatePost.tsx:50 | Lower-casing leaves a string without ASCII capitals unchanged. |
| `CreatePost.GenerateSlugFixpoints` | src/pages/CreatePost.tsx:48-53 | A string is its own slug exactly when it is a well-formed slug. |
| `CreatePost.GenerateSlugIdempotent` | src/pages/CreatePost.tsx:48-53 | Generating a slug from a slug changes nothing. |
| `CreatePost.SplitWs` | src/pages/CreatePost.tsx:66 | `split(/\s+/)` always yields at least one piece. |
| `CreatePost.SkipRun` | src/pages/CreatePost.tsx:51 | Skipping a separator run drops only non-`[a-z0-9]` characters and stops at a slug character or the end. |
| `CreatePost.WordCount` | src/pages/CreatePost.tsx:66 | The count is at least 1: like `split`, blank text still yields one (empty) piece. |
| `CreatePost.SplitWsWords` | src/pages/CreatePost.tsx:66 | Splitting text that does not end in whitespace gives pieces without whitespace, all non-empty after the first, and the first too when the text does not start with whitespace. |
| `CreatePost.WordCountCountsWords` | src/pages/CreatePost.tsx:66 | For non-blank content every piece counted is a real word: non-empty and free of whitespace. |
| `CreatePost.SplitWsPrefix` | src/pages/CreatePost.tsx:66 | A whitespace-free prefix joins the first piece of the split of the rest; the other pieces are unchanged. |
| `CreatePost.SplitWsAfterSpace` | src/pages/CreatePost.tsx:66 | A single leading space, as `split` does, adds an empty first piece before the pieces of the rest. |
| `CreatePost.JoinWordsEnds` | src/pages/CreatePost.tsx:66 | Non-empty words without whitespace, joined by single spaces, neither start nor end with whitespace. |
| `CreatePost.SplitWordSpace` | src/pages/CreatePost.tsx:66 | A word, a space and a rest that starts with a word split into that word followed by the pieces of the rest. |
| `CreatePost.SplitJoinWords` | src/pages/CreatePost.tsx:66 | Splitting words joined by single spaces gives back exactly those words. |
| `CreatePost.EstimateReadingTime` | src/pages/CreatePost.tsx:64-68 | Reading time is at least one minute and satisfies `(minutes - 1) * 200 < words <= minutes * 200`, so it is the ceiling of words / 200. |
| `CreatePost.ReadingTimeOfBlank` | src/pages/CreatePost.tsx:64-68 | Blank content counts one word and reads in one minute. |
| `CreatePost.ReadingTimeOfWords` | src/pages/CreatePost.tsx:64-68 | Content made of `n` words joined by spaces counts exactly `n` words; 450 words read in 3 minutes. |
| `CreatePost.PostData` | src/pages/CreatePost.tsx:90-95 | The insert carries the author, the status and every field of the form. `published_at` is set exactly when the status is published. |
| `CreatePost.PostEditor.constructor` | src/pages/CreatePost.tsx:19-32 | The form starts empty, as a draft, with nothing loading. |
| `CreatePost.PostEditor.Mount` | src/pages/CreatePost.tsx:34-46 | A reader without creator access is sent to `/`. Otherwise the category list is loaded. |
| `CreatePost.PostEditor.HandleTitleChange` | src/pages/CreatePost.tsx:55-62 | The title and the SEO title become the new title, the slug becomes its generated slug, and no other field changes. |
| `CreatePost.PostEditor.HandleContentChange` | src/pages/CreatePost.tsx:70-76 | The content is set and the reading time becomes its estimate. No other field changes. |
| `CreatePost.PostEditor.StartSubmit` | src/pages/CreatePost.tsx:78-97 | A blank title, then blank content, ends the submit with loading unchanged. Without a user no request is made and loading ends false. Otherwise loading is raised and the insert is the post data of the form. |
| `CreatePost.PostEditor.FinishSubmit` | src/pages/CreatePost.tsx:97-109 | A created post sends the editor to `/post/<slug>`. A failure stays. Loading ends false on both paths. |
| `Newsletter.PatternGivesAddress` | src/pages/Newsletter.tsx:24-28 | Every address the regular expression accepts is well formed. |
| `Newsletter.AddressMatchesPattern` | src/pages/Newsletter.tsx:24-28 | Every well-formed address is accepted by the regular expression. |
| `Newsletter.EmailPatternIff` | src/pages/Newsletter.tsx:24-28 | The e-mail regular expression accepts a string exactly when the string has no whitespace and exactly one `@` after a non-empty local part, and the domain has a dot that is neither its first nor its last character. |
| `Newsletter.EmailAcceptsShape` | src/pages/Newsletter.tsx:24 | Every `L@A.B` with non-empty parts free of whitespace and `@` is accepted. |
| `Newsletter.EmailRejectsWhitespace` | src/pages/Newsletter.tsx:19-28 | Blank input is rejected, and so is input with whitespace at either end, because the untrimmed string is tested. |
| `Newsletter.NameOrNull` | src/pages/Newsletter.tsx:31 | An empty name is sent as null, and any other name as itself. |
| `Newsletter.SignupForm.constructor` | src/pages/Newsletter.tsx:11-14 | Both fields start empty, not loading and not subscribed. |
| `Newsletter.SignupForm.StartSubscribe` | src/pages/Newsletter.tsx:16-31 | A blank e-mail, then a malformed one, ends the handler with loading unchanged. Otherwise loading is raised and the request carries the e-mail and the name or null. |
| `Newsletter.SignupForm.FinishSubscribe` | src/pages/Newsletter.tsx:33-42 | On success the reader is subscribed and both fields are cleared. On failure the fields are kept. Loading ends false on both paths. |
| `Header.FirstCharsOfSplit` | src/components/common/Header.tsx:33-36 | The initials of a name are the first characters of its non-empty space-separated words, in order. |
| `Header.UserInitials` | src/components/common/Header.tsx:31-44 | The initials are at most two characters long. |
| `Header.InitialsOfFullName` | src/components/common/Header.tsx:32-39 | A non-empty full name gives the upper-cased first letters of its first two words. A name made only of spaces gives no initials. |
| `Header.NoInitialsInSpaces` | src/components/common/Header.tsx:33-36 | A name made only of spaces has no word initials. |
| `Header.InitialsOfUsername` | src/components/common/Header.tsx:40-42 | Without a full name, the initials are the first two characters of the username, upper-cased. |
| `Header.InitialsFallback` | src/components/common/Header.tsx:43 | With neither a full name nor a username, the initial is `U`. |
| `Header.Navigation` | src/components/common/Header.tsx:18 | The navigation lists exactly the visible routes, in order. |
| `Header.NavigationOfAppRoutes` | src/routes.tsx:13-44 | The application's navigation is its first three routes: Home, Explore and Categories. |
| `Header.AtMostOneActive` | src/components/common/Header.tsx:64 | Over a route table with distinct paths, at most one navigation link is highlighted for any location. |
| `Header.AppRoutesDistinctPaths` | src/routes.tsx:13-44 | The application's route paths are pairwise distinct, so its header highlights at most one link. |
| `Header.CreatorControlsGate` | src/components/common/Header.tsx:95-115 | Write and Analytics appear in the bar and in the menu exactly when the signed-in profile is a creator or an admin. Sign In appears exactly when there is no user or no profile. |
| `Tables.LookupPair` | src/db/api.ts:393-398 | `maybeSingle()` on the pair's rows: a row of the pair exactly when the query succeeds and exactly one row matches; null when none matches, when several match, and when the query fails. Over unique pairs, found exactly when the pair has a row. |
| `Tables.PairCountBounds` | src/db/api.ts:393-398 | A pair has a row exactly when its row count is positive; with unique pairs that count is at most one. |
| `Tables.UniquePairsCount` | src/db/api.ts:393-398 | With at most one row per pair, no pair is counted more than once. |
| `Tables.DuplicatedPairGrows` | src/db/api.ts:392-407 | A pair with several rows is never removed: the lookup fails, so a successful toggle adds one more row and a failed one changes nothing. |
| `Tables.RemoveIdExactly` | src/db/api.ts:400-401 | Deleting by the id of a row whose id is unique removes exactly that row and keeps the rest in order. |
| `Tables.ToggleShape` | src/db/api.ts:392-407 | A failed write leaves the table unchanged. A pair with exactly one row, found by a successful lookup, loses that one row. Otherwise (no row, several rows, or a failed lookup) the new row is appended. |
| `Tables.ToggleKeepsOtherPairs` | src/db/api.ts:392-407 | A toggle leaves the rows of every other actor/target pair unchanged, in order. |
| `Tables.ToggleKeepsTable` | src/db/api.ts:392-407 | A toggle keeps ids unique and below the next id, and keeps rows sorted by creation time and created before the clock. |
| `Tables.RemoveAtKeepsUnique` | src/db/api.ts:401 | Removing a row keeps unique ids and unique pairs. |
| `Tables.AppendKeepsUnique` | src/db/api.ts:405 | Appending a row with a fresh id for an absent pair keeps unique ids and unique pairs. |
| `Tables.TogglePreservesUniqueness` | src/db/api.ts:392-407 | Ids stay unique whatever the flags. Each actor/target pair stays in at most one row whenever the lookup succeeded. |
| `Tables.ToggleFlipsMembership` | src/db/api.ts:392-407 | With lookup and write succeeding, the pair is present afterwards exactly when it was absent before. |
| `Tables.DoubleToggleFromAbsent` | src/db/api.ts:392-407 | Toggling an absent pair twice gives back exactly the original table. |
| `Tables.DoubleToggleRestoresMembership` | src/db/api.ts:392-424 | Two successful toggles restore membership of the pair, from either starting state. |
| `Tables.RemoveIdCount` | src/db/api.ts:454-465 | Removing one row lowers the count of its target by one and leaves every other count unchanged. |
| `Tables.ToggleCountsOfOthers` | src/db/api.ts:454-465 | A toggle leaves the count of every other target unchanged, whatever the flags. |
| `Tables.ToggleMovesCounts` | src/db/api.ts:512-536 | A successful toggle moves the target's follower count and the actor's following count by -1 when the pair had exactly one row, and by +1 otherwise; every other user's counts stay. |
| `Tables.ToggleEffects` | src/db/api.ts:392-510 | Bundles the flip over unique pairs, the ±1 moves of the target's and the actor's counts (-1 exactly when the pair had one row), and every other count staying unchanged. |
| `Tables.FollowUnfollowRestoresCounts` | src/db/api.ts:493-536 | Following then unfollowing restores every follower count and every following count. |
| `Tables.Window` | src/db/api.ts:104 | `range(offset, offset + limit - 1)`: at most `limit` rows, taken in order from `offset`, and a full page whenever enough rows remain. |
| `Tables.FindByKey` | src/db/api.ts:34-38 | A read by a unique key (profile id or username, post or category slug): the row found has that key, and none is found exactly when no row has it. |
| `Tables.WithAuthors` | src/db/api.ts:97-102 | Each post, in order, is paired with the profile whose id is its author (none when that profile is missing), and categories are left unset. |
| `Tables.PostsWithAuthors` | src/db/api.ts:97-102 | Embedding the authors keeps the listed posts themselves, in order. |
| `Tables.PublishedAmong` | src/db/api.ts:438-445 | `.in('id', ids).eq('status', 'published')`: the published posts whose id is listed, in listing order, each with its author. |
| `Tables.LinkedPostIds` | src/db/api.ts:181-188 | An id is in the result exactly when a post_categories row links it to the category. |
| `Tables.CategoriesOf` | src/types/types.ts:151-153 | A category is embedded in a post exactly when it exists and a link row joins the two. |
| `Tables.RecentBookmarks` | src/db/api.ts:427-432 | The user's bookmark rows, as many as `limit` allows: exactly `limit` of them, or all when the user has fewer. |
| `Tables.RecentBookmarksAreNewest` | src/db/api.ts:431-432 | Over a table in creation order, a bookmark of the user that is left out is no newer than any taken, and when fewer than `limit` are taken none is left out. |
| `Tables.NewestFromEnd` | src/db/api.ts:431-432 | Elements taken from the end of a sorted sequence, last first, are its newest: one left out is no newer than any taken. |
| `Tables.TargetsOfBookmarks` | src/db/api.ts:434-436 | Each post id taken from the user's bookmarks is the target of one of them, and of a bookmark row of the user. |
| `Tables.RecentBookmarksNewestFirst` | src/db/api.ts:431 | Over a table in creation order, the user's bookmarks come out newest first. |
| `Api.Store.IsPostLiked` | src/db/api.ts:467-476 | True exactly when the query succeeds and exactly one row matches, as `maybeSingle()` answers; over unique pairs, true exactly when the query succeeds and a like row joins the user to the post. |
| `Api.Store.IsPostBookmarked` | src/db/api.ts:478-487 | True exactly when the query succeeds and exactly one row matches, as `maybeSingle()` answers; over unique pairs, true exactly when the query succeeds and a bookmark row joins the user to the post. |
| `Api.Store.IsFollowing` | src/db/api.ts:538-547 | True exactly when the query succeeds and exactly one row matches, as `maybeSingle()` answers; over unique pairs, true exactly when the query succeeds and a follow row joins the two users. |
| `Api.Store.GetLikeCount` | src/db/api.ts:454-465 | The number of like rows of the post. It is 0 on failure. |
| `Api.Store.GetFollowerCount` | src/db/api.ts:512-523 | The number of follow rows targeting the user. It is 0 on failure. |
| `Api.Store.GetFollowingCount` | src/db/api.ts:525-536 | The number of follow rows the user created. It is 0 on failure. |
| `Api.Store.GetPostCountByAuthor` | src/db/api.ts:270-282 | The number of the author's published posts. It is 0 on failure. |
| `Api.Store.ToggleLike` | src/db/api.ts:392-407 | The store invariant is kept and success is the write's outcome. The new likes are the check-then-act of the old likes. With a successful lookup over unique pairs, the like flips. The post's like count moves by -1 when the pair had one row and by +1 otherwise, and no other post's count changes. |
| `Api.Store.ToggleBookmark` | src/db/api.ts:409-424 | Like `ToggleLike`: the invariant is kept, the new bookmarks are the toggle of the old, and the bookmark flips. |
| `Api.Store.ToggleFollow` | src/db/api.ts:493-510 | Like `ToggleLike`: the invariant is kept, the new follows are the toggle of the old, and the follow flips. Every user's follower and following counts move as `ToggleMovesCounts` states. |
| `Api.Store.GetPosts` | src/db/api.ts:92-117 | At most `limit` posts: the status-filtered posts, windowed by `offset` and `limit`, in listing order, each with its author. Only published posts appear under the default filter. Nothing is returned on failure. |
| `Api.Store.GetPostsWithCategories` | src/db/api.ts:97-104 | The same posts and authors as `GetPosts`, each carrying its linked categories (the corrected query of the finding below). |
| `Api.Store.GetPostBySlug` | src/db/api.ts:119-134 | None exactly when the query fails or no post has the slug. Otherwise the post with that slug, with its author. |
| `Api.Store.GetPostsByAuthor` | src/db/api.ts:153-170 | The first `limit` published posts of the author, with authors. |
| `Api.Store.SearchPosts` | src/db/api.ts:208-225 | The first `limit` published posts that the matcher accepts. |
| `Api.Store.GetPostsByCategory` | src/db/api.ts:172-206 | Nothing when the category lookup or the posts query fails, or the category is missing. Otherwise exactly the first `limit` published posts whose ids the join table links to the category (none when that read fails), each with its author. |
| `Api.Store.PostsByCategoryComplete` | src/db/api.ts:181-199 | Every published post linked to the category is listed whenever the listing is shorter than `limit`. |
| `Api.Store.GetBookmarkedPosts` | src/db/api.ts:426-452 | Nothing when either query fails. Otherwise exactly the published posts that the user's `limit` newest bookmarks point to, in listing order, each with its author and bookmarked by the user. |
| `Api.Store.BookmarkedPostsComplete` | src/db/api.ts:427-445 | Every published post that one of the user's `limit` newest bookmarks points to is listed. |
| `Api.Store.GetCommentsByPost` | src/db/api.ts:346-362 | Exactly the approved comments of the post, in both directions, in creation order. Nothing is returned on failure. |
| `Api.Store.GetProfileByUsername` | src/db/api.ts:33-57 | None exactly when the lookup fails or no profile has the username. Otherwise that profile with its post, follower and following counts; each count is 0 when its own query failed. |
| `Api.Store.CreatePost` | src/db/api.ts:227-239 | On success the new post is first in the listing. It has a fresh id, zero views and the current time, and carries the submitted fields. On failure nothing changes. |
| `Api.Store.CreateComment` | src/db/api.ts:364-376 | On success exactly one comment, with a fresh id and the current time, is appended. On failure nothing changes. |
| `Api.Store.DeleteComment` | src/db/api.ts:378-386 | On success every comment with the id is removed. On failure nothing changes. |
| `PostView.CanDeleteComment` | src/pages/PostView.tsx:326 | The delete control shows exactly for the comment's author or a signed-in admin. |
| `PostView.DeleteRemovesOne` | src/pages/PostView.tsx:151-161 | With unique comment ids, deleting a listed comment shortens the list by exactly one and keeps every other comment. |
| `PostView.DeleteOfAbsentId` | src/pages/PostView.tsx:151-161 | Deleting an id that is not listed changes nothing. |
| `PostView.PostPage.constructor` | src/pages/PostView.tsx:32-39 | The page starts loading, empty, with nothing liked or bookmarked and a count of 0. |
| `PostView.PostPage.LoadPost` | src/pages/PostView.tsx:47-74 | An empty slug changes nothing. An unknown post redirects to `/` and leaves the page loading. A found post fills the page from the store's queries, and the like, bookmark and count agree with the store when every query succeeds and the likes and bookmarks hold one row per pair. |
| `PostView.PostPage.HandleLike` | src/pages/PostView.tsx:76-88 | Without a user or a post the reader is sent to `/login` and the store is untouched. Otherwise the like is toggled. On success `liked` flips and the count moves by ±1. A page in sync with the store stays in sync. |
| `PostView.PostPage.HandleBookmark` | src/pages/PostView.tsx:90-102 | The same as `HandleLike`, for bookmarks without a count. |
| `PostView.PostPage.SubmitComment` | src/pages/PostView.tsx:121-149 | Without a user or a post: `/login`, store untouched. A blank comment changes nothing. Otherwise, on success, the store gains exactly one comment: by the user, on the post, with no parent and the untrimmed text. The text is then cleared and a reload is requested. On failure the store and the text are kept. Submitting ends false. |
| `PostView.PostPage.HandleDeleteComment` | src/pages/PostView.tsx:151-161 | Without a user nothing changes. Otherwise the store and the page's list both drop the comment on success and keep it on failure. |
| `Home.FilteredPosts` | src/pages/Home.tsx:32-34 | No selection shows the whole feed. A selection shows exactly the posts whose embedded categories include that slug, in both directions. |
| `Home.CategoryFilterEmptiesFeed` | src/pages/Home.tsx:32-34 | As written: over the feed `getPosts` returns, any selected category shows no posts at all. |
| `Home.CategoryFilterWithCategories` | src/pages/Home.tsx:32-34 | Corrected: over the feed with categories embedded, a selected category shows exactly the listed posts linked to a category with that slug, in order. |
| `Home.FilterMapped` | src/pages/Home.tsx:33 | Filtering the feed and then projecting the posts equals projecting and then filtering by the matching predicate on posts. |
| `Home.HomePage.constructor` | src/pages/Home.tsx:14-17 | The page starts loading with empty lists and no selection. |
| `Home.HomePage.Shown` | src/pages/Home.tsx:32-34 | The shown posts are a selection from the loaded feed, and the whole feed without a category. |
| `Home.HomePage.LoadData` | src/pages/Home.tsx:24-30 | The feed is at most 20 published posts from the store, each with its categories. Loading ends. |
| `Home.HomePage.SelectCategory` | src/pages/Home.tsx:80-89 | The selection becomes the clicked category, or none. |
| `Search.ResultLabel` | src/pages/Search.tsx:85 | The label is `result` exactly when the count is 1, and `results` otherwise. |
| `Search.SearchPage.constructor` | src/pages/Search.tsx:15-19 | The query starts as the `q` parameter, or empty, and nothing is searched. |
| `Search.SearchPage.StartSearch` | src/pages/Search.tsx:29-33 | A search starts exactly when the query is not blank, raising loading and marking the page searched. |
| `Search.SearchPage.CompleteSearch` | src/pages/Search.tsx:29-37 | The results are the store's search for the query: at most 20 posts, each published and matching. Loading ends. |
| `Search.SearchPage.Mount` | src/pages/Search.tsx:21-27 | A non-empty `q` parameter starts the search for it. Otherwise nothing starts. |
| `Search.SearchPage.HandleSearch` | src/pages/Search.tsx:39-45 | A blank query does nothing. Otherwise the URL parameter becomes the query and the search starts. |
| `Analytics.SumAppend` | src/pages/Analytics.tsx:52-54 | The total over two lists is the sum of their totals. |
| `Analytics.SumNonNegative` | src/pages/Analytics.tsx:52-54 | A total of non-negative counts is non-negative and at least each count. |
| `Analytics.Summarize` | src/pages/Analytics.tsx:52-64 | The totals are the sums of views, likes and comments, and total posts is the number of posts. The average engagement times the post count is likes plus comments; it is 0 without posts. |
| `Analytics.SummaryNonNegative` | src/pages/Analytics.tsx:52-56 | Non-negative rows give a summary with no negative field. |
| `Analytics.FindPost` | src/pages/Analytics.tsx:151 | The post found has that id and no earlier post has it: it is the first match. None is found exactly when no post has it. |
| `Analytics.PerformanceRows` | src/pages/Analytics.tsx:150-152 | A row is rendered for each analytics entry whose post is loaded, and each rendered row pairs its entry with the post `find` returns for it. |
| `Analytics.PerformanceRowsExact` | src/pages/Analytics.tsx:150-152 | The entries of the rendered rows are exactly the analytics entries whose post is loaded, in their order. |
| `Analytics.AnalyticsPage.constructor` | src/pages/Analytics.tsx:21-30 | The page starts loading with empty lists and a zero summary. |
| `Analytics.AnalyticsPage.Mount` | src/pages/Analytics.tsx:32-38 | A reader without creator access is sent to `/` and nothing is loaded. Otherwise the analytics load. |
| `Analytics.AnalyticsPage.LoadAnalytics` | src/pages/Analytics.tsx:40-67 | Without a user nothing changes. Otherwise the posts are the author's published posts from the store, the analytics are the fetched rows, the summary is `Summarize` of the two, and loading ends. |
| `Analytics.AnalyticsPage.Rows` | src/pages/Analytics.tsx:150-152 | The rendered rows are at most the analytics entries, each for a loaded post. |
| `Pricing.CheckoutRequestFor` | src/pages/Pricing.tsx:95-105 | The checkout request has one item named after the tier with the tier's price and quantity 1, in `usd`, payable by card. |
| `Pricing.PricingPage.constructor` | src/pages/Pricing.tsx:73 | Nothing is loading and there is no notice. |
| `Pricing.PricingPage.StartSubscribe` | src/pages/Pricing.tsx:75-91 | Free tier: signed-out readers go to `/login`, signed-in readers get the free-access notice. A paid tier without a user requires sign-in. Otherwise checkout starts. Loading is set to the tier exactly when checkout starts. |
| `Pricing.PricingPage.CompleteCheckout` | src/pages/Pricing.tsx:108-125 | Loading always clears. The browser moves exactly when the answer holds a non-empty url, and moves to that url. Otherwise an error notice shows. |
| `PaymentSuccess.PaymentPage.constructor` | src/pages/PaymentSuccess.tsx:11-13 | The page starts verifying, not verified, with no error. |
| `PaymentSuccess.PaymentPage.Shown` | src/pages/PaymentSuccess.tsx:52-66 | The spinner shows exactly while verifying. Success shows exactly when verification ended verified without an error. Failure shows the error or the fallback message. |
| `PaymentSuccess.PaymentPage.Mount` | src/pages/PaymentSuccess.tsx:15-24 | Verification is requested exactly for a non-empty session id. Otherwise verifying ends with "No session ID found". |
| `PaymentSuccess.PaymentPage.CompleteVerification` | src/pages/PaymentSuccess.tsx:26-50 | Verifying ends. The page is verified exactly when it already was or the function answered verified. Each failure mode sets its own message, and a verified answer keeps the error as it was. |
| `PaymentSuccess.Visit` | src/pages/PaymentSuccess.tsx:15-66 | A whole visit ends in success exactly when a session id is present and verification answers true, and it never ends still verifying. |

## Left out

- Network latency, interleaving of concurrent handlers and `Promise.all` run sequentially here: each remote call is taken to complete before the next starts.
- `Api.Store.ToggleLike`, `Api.Store.ToggleBookmark`, `Api.Store.ToggleFollow`: the race between two concurrent toggles of the same pair is not modelled. A failed lookup is treated as "not found", as the source does, so duplicate pairs can arise; unique pairs are therefore not a Store invariant, and the flip is stated only for a successful lookup over a table with unique pairs. A pair with several rows makes `maybeSingle()` fail as well, so the toggle inserts yet another row (`Tables.DuplicatedPairGrows`).
- `Tables.FindByKey`: usernames and post and category slugs are unique keys of the schema, so the read by key takes the first match; the `maybeSingle()` error for several matching rows is not modelled for these reads.
- Uuids, timestamps and the remote clock are abstracted to natural-number counters in the Store; date formatting is left out.
- The order of the `posts` table stands for the `published_at` descending order of the listing queries; `Api.Store.CreatePost` puts a new post first, and the placement of unpublished drafts (null `published_at`) in that order is not modelled.
- `Api.Store.GetBookmarkedPosts`: the posts query has no `order`, so the result is taken in the store's listing order; the bookmark order is not kept.
- `Api.Store.GetCommentsByPost`: the author embedding of each comment (`CommentWithAuthor`) is not modelled.
- `Api.Store.SearchPosts`: the `ilike` matching over title, content and excerpt is a matcher parameter, not modelled character by character.
- `incrementPostViews` is a remote procedure call run by the database (src/db/api.ts:266-268); the page awaits it and reads nothing back, so the stored view count is not updated in the model.
- `getPostAnalytics` and `subscribeToNewsletter` are imported from the data-access module (src/pages/Analytics.tsx:5, src/pages/Newsletter.tsx:6) but src/db/api.ts does not define them; the analytics rows and the subscribe outcome are inputs of the page methods.
- The Stripe edge functions run on the server; their answers are inputs of the page methods.
- The data-access wrappers outside the modelled pages' use are not modelled: getProfile, updateProfile, getAllProfiles, getPostById, updatePost, deletePost, getCategories, getTags, createCategory, createTag, getOrdersByUser and getOrderBySessionId.
- Floating point: the average engagement is a `real`, prices are integer cents, and `toFixed` display rounding is left out.
- Case mapping covers ASCII letters only; Unicode lower- and upper-casing is not modelled.
- `Header.UserInitials`: strings are sequences of Unicode code points, not UTF-16 code units, so for a name starting outside the Basic Multilingual Plane (a full name "😀 Smile", a username "😀ab") the model takes whole characters where `n[0]` and `slice(0, 2)` take a lone surrogate or one code point.
- Toast notifications are left out, except the pricing notices that decide the outcome of a subscribe.
- Route guarding through `RequireAuth` and the route elements are left out; routes are kept as data, with paths, names and visibility.
- The header's theme switch, menu open state and sign-out are left out.
- A thrown `error.context.text()` while reading an edge-function error in the pricing and payment pages is not modelled.
- `Home.HomePage.LoadData` loads through the corrected query `Api.Store.GetPostsWithCategories` (see Findings); the category list itself is an input.

## Findings

| source | as written | input that shows it | evidently intended | confidence | as-written member | corrected member |
|---|---|---|---|---|---|---|
| src/pages/Home.tsx:32-34 | The feed filter keeps posts whose `categories` include the selected slug, but the feed comes from `getPosts` (src/db/api.ts:97-104). That query selects only the post columns and the author, so no post carries categories. | Any selected category, e.g. `technology`: the feed shows no posts even when linked posts exist. | Selecting a category shows the loaded posts linked to a category with that slug. | not executed | `Home.CategoryFilterEmptiesFeed` | `Home.CategoryFilterWithCategories` |
