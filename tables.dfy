/** What the queries of src/db/api.ts compute over a snapshot of the remote
    tables: the row filters, counts, lookups and pagination, and the table a
    toggle leaves behind. The store itself, with its updates, is `Api.Store`. */
module Tables {
  import opened Wrappers
  import opened Seqs
  import opened Types

  // ---------------------------------------------------------------------
  // Membership rows (likes, bookmarks, follows)
  // ---------------------------------------------------------------------

  function RowId(r: Membership): int { r.id }

  function IsPair(actor: Id, target: Id): Membership -> bool {
    (r: Membership) => r.actor == actor && r.target == target
  }

  function HasActor(actor: Id): Membership -> bool {
    (r: Membership) => r.actor == actor
  }

  function HasTarget(target: Id): Membership -> bool {
    (r: Membership) => r.target == target
  }

  function NotId(id: Id): Membership -> bool {
    (r: Membership) => r.id != id
  }

  function TargetOf(r: Membership): Id { r.target }

  /** A row exists for the pair: what `isPostLiked`, `isPostBookmarked` and
      `isFollowing` ask. */
  predicate HasPair(rows: seq<Membership>, actor: Id, target: Id) {
    exists i :: 0 <= i < |rows| && rows[i].actor == actor && rows[i].target == target
  }

  /** The position of the first row of the pair. */
  function FindPair(rows: seq<Membership>, actor: Id, target: Id): (r: Option<nat>)
    ensures r.Some? ==> r.value < |rows| && rows[r.value].actor == actor && rows[r.value].target == target
    ensures r.None? <==> !HasPair(rows, actor, target)
  {
    if rows == [] then None
    else if rows[0].actor == actor && rows[0].target == target then Some(0)
    else
      var rest := FindPair(rows[1..], actor, target);
      if rest.Some? then Some(rest.value + 1) else None
  }

  /** Exactly one row for the pair. */
  predicate SinglePair(rows: seq<Membership>, actor: Id, target: Id) {
    Count(rows, IsPair(actor, target)) == 1
  }

  /** A pair has a row exactly when its count is positive, and with at most
      one row per pair that count is at most one. */
  lemma PairCountBounds(rows: seq<Membership>, actor: Id, target: Id)
    ensures HasPair(rows, actor, target) <==> Count(rows, IsPair(actor, target)) > 0
    ensures UniquePairs(rows) ==> Count(rows, IsPair(actor, target)) <= 1
  {
    var p := IsPair(actor, target);
    var mine := Filter(rows, p);
    if HasPair(rows, actor, target) {
      var i :| 0 <= i < |rows| && rows[i].actor == actor && rows[i].target == target;
      FilterComplete(rows, p);
      assert rows[i] in mine;
    } else {
      FilterRejectsAll(rows, p);
    }
    if UniquePairs(rows) {
      UniquePairsCount(rows, actor, target);
    }
  }

  /** With at most one row per pair, a pair is counted at most once. */
  lemma {:induction false} UniquePairsCount(rows: seq<Membership>, actor: Id, target: Id)
    requires UniquePairs(rows)
    ensures Count(rows, IsPair(actor, target)) <= 1
  {
    if rows != [] {
      var tail := rows[1..];
      forall i, j | 0 <= i < j < |tail|
        ensures !(tail[i].actor == tail[j].actor && tail[i].target == tail[j].target)
      {
        assert tail[i] == rows[i + 1] && tail[j] == rows[j + 1];
      }
      if rows[0].actor == actor && rows[0].target == target {
        forall i | 0 <= i < |tail| ensures !IsPair(actor, target)(tail[i]) {
          assert tail[i] == rows[i + 1];
        }
        FilterRejectsAll(tail, IsPair(actor, target));
      } else {
        UniquePairsCount(tail, actor, target);
      }
    }
  }

  /** The `select('id') … .maybeSingle()` lookup of the pair's row, `ok`
      false standing for a failed query: the row when exactly one matches,
      and null both when none matches and when several do (the query then
      fails, and its error is ignored). */
  function LookupPair(rows: seq<Membership>, actor: Id, target: Id, ok: bool): (r: Option<nat>)
    ensures r.Some? ==> r.value < |rows| && rows[r.value].actor == actor && rows[r.value].target == target
    ensures r.Some? <==> ok && SinglePair(rows, actor, target)
    ensures ok && UniquePairs(rows) ==> (r.Some? <==> HasPair(rows, actor, target))
  {
    PairCountBounds(rows, actor, target);
    if ok && SinglePair(rows, actor, target) then FindPair(rows, actor, target) else None
  }

  /** `.delete().eq('id', id)`. */
  function RemoveId(rows: seq<Membership>, id: Id): seq<Membership> {
    Filter(rows, NotId(id))
  }

  /** At most one row per pair. */
  ghost predicate UniquePairs(rows: seq<Membership>) {
    forall i, j :: 0 <= i < j < |rows| ==>
      !(rows[i].actor == rows[j].actor && rows[i].target == rows[j].target)
  }

  /** A row id not used by any row of the table. */
  ghost predicate FreshRow(rows: seq<Membership>, row: Membership) {
    forall i :: 0 <= i < |rows| ==> rows[i].id != row.id
  }

  /** The table after `toggleLike`, `toggleBookmark` or `toggleFollow` for
      the pair: when the lookup finds a row, that row is deleted by its id;
      otherwise (no row, several rows, or a failed lookup, whose error is
      ignored) the new row `newRow` is inserted. A failed write leaves the table as it was. */
  function Toggled(rows: seq<Membership>, actor: Id, target: Id, lookupOk: bool, writeOk: bool,
                   newRow: Membership): seq<Membership>
  {
    var existing := LookupPair(rows, actor, target, lookupOk);
    if !writeOk then rows
    else if existing.Some? then RemoveId(rows, rows[existing.value].id)
    else rows + [newRow]
  }

  /** With unique ids, deleting by the id of row `i` removes exactly that row. */
  lemma RemoveIdExactly(rows: seq<Membership>, i: nat)
    requires i < |rows| && UniqueBy(rows, RowId)
    ensures RemoveId(rows, rows[i].id) == rows[..i] + rows[i + 1..]
  {
    forall k | 0 <= k < |rows| && k != i ensures NotId(rows[i].id)(rows[k]) {
      assert RowId(rows[k]) != RowId(rows[i]);
    }
    FilterDropsOne(rows, i, NotId(rows[i].id));
  }

  /** The shape of a toggle: an existing pair row found by the lookup is
      removed and nothing else; otherwise exactly one row for the pair is
      appended. */
  lemma ToggleShape(rows: seq<Membership>, actor: Id, target: Id, lookupOk: bool, writeOk: bool,
                    newRow: Membership)
    requires UniqueBy(rows, RowId)
    ensures var after := Toggled(rows, actor, target, lookupOk, writeOk, newRow);
      && (!writeOk ==> after == rows)
      && (writeOk && lookupOk && SinglePair(rows, actor, target) ==>
            exists i :: 0 <= i < |rows| && rows[i].actor == actor && rows[i].target == target
                     && after == rows[..i] + rows[i + 1..])
      && (writeOk && !(lookupOk && SinglePair(rows, actor, target)) ==> after == rows + [newRow])
  {
    if writeOk && lookupOk && SinglePair(rows, actor, target) {
      var i := LookupPair(rows, actor, target, true).value;
      RemoveIdExactly(rows, i);
    }
  }

  /** A pair with several rows is never removed by a toggle: its lookup
      fails, so each successful toggle adds one more row for it. */
  lemma DuplicatedPairGrows(rows: seq<Membership>, actor: Id, target: Id, lookupOk: bool, writeOk: bool,
                            newRow: Membership)
    requires Count(rows, IsPair(actor, target)) > 1
    requires newRow.actor == actor && newRow.target == target
    ensures Count(Toggled(rows, actor, target, lookupOk, writeOk, newRow), IsPair(actor, target))
         == Count(rows, IsPair(actor, target)) + (if writeOk then 1 else 0)
  {
    if writeOk {
      CountAppend(rows, [newRow], IsPair(actor, target));
      assert Filter([newRow], IsPair(actor, target)) == [newRow];
    }
  }

  /** Rows of every other pair are untouched by a toggle. */
  lemma ToggleKeepsOtherPairs(rows: seq<Membership>, actor: Id, target: Id, lookupOk: bool, writeOk: bool,
                              newRow: Membership, otherActor: Id, otherTarget: Id)
    requires UniqueBy(rows, RowId)
    requires newRow.actor == actor && newRow.target == target
    requires otherActor != actor || otherTarget != target
    ensures Filter(Toggled(rows, actor, target, lookupOk, writeOk, newRow), IsPair(otherActor, otherTarget))
         == Filter(rows, IsPair(otherActor, otherTarget))
  {
    var p := IsPair(otherActor, otherTarget);
    var existing := LookupPair(rows, actor, target, lookupOk);
    if writeOk && existing.Some? {
      var i := existing.value;
      RemoveIdExactly(rows, i);
      FilterAround(rows, i, p);
      FilterAppend(rows[..i], rows[i + 1..], p);
    } else if writeOk {
      FilterAppend(rows, [newRow], p);
    }
  }

  /** Every row id is below the store's next id. */
  ghost predicate IdsBelow(rows: seq<Membership>, bound: nat) {
    forall k :: 0 <= k < |rows| ==> rows[k].id < bound
  }

  /** Every row was created before `clock`. */
  ghost predicate CreatedBefore(rows: seq<Membership>, clock: Timestamp) {
    forall k :: 0 <= k < |rows| ==> rows[k].created_at < clock
  }

  /** What a toggle that inserts `Membership(nextId, actor, target, clock)`
      keeps of the table's invariants: unique ids below the next id and, for
      a table kept in creation order, that order. */
  lemma ToggleKeepsTable(rows: seq<Membership>, actor: Id, target: Id, lookupOk: bool, writeOk: bool,
                         nextId: nat, clock: Timestamp)
    requires UniqueBy(rows, RowId) && IdsBelow(rows, nextId)
    ensures var after := Toggled(rows, actor, target, lookupOk, writeOk, Membership(nextId, actor, target, clock));
      && UniqueBy(after, RowId) && IdsBelow(after, nextId + 1)
      && (SortedBy(rows, MembershipCreatedAt) && CreatedBefore(rows, clock) ==>
            SortedBy(after, MembershipCreatedAt) && CreatedBefore(after, clock + 1))
  {
    var newRow := Membership(nextId, actor, target, clock);
    TogglePreservesUniqueness(rows, actor, target, lookupOk, writeOk, newRow);
    var existing := LookupPair(rows, actor, target, lookupOk);
    if writeOk && existing.Some? {
      var id := rows[existing.value].id;
      if SortedBy(rows, MembershipCreatedAt) {
        FilterSorted(rows, NotId(id), MembershipCreatedAt);
      }
    } else if writeOk {
      var after := rows + [newRow];
      assert forall k :: 0 <= k < |rows| ==> after[k] == rows[k];
      if SortedBy(rows, MembershipCreatedAt) && CreatedBefore(rows, clock) {
        AppendSorted(rows, newRow, MembershipCreatedAt);
      }
    }
  }

  /** Deleting one row keeps ids, and pairs, unique. */
  lemma RemoveAtKeepsUnique(rows: seq<Membership>, i: nat)
    requires i < |rows| && UniqueBy(rows, RowId)
    ensures UniqueBy(rows[..i] + rows[i + 1..], RowId)
    ensures UniquePairs(rows) ==> UniquePairs(rows[..i] + rows[i + 1..])
  {
    var r := rows[..i] + rows[i + 1..];
    assert forall k :: 0 <= k < |r| ==> r[k] == rows[if k < i then k else k + 1];
  }

  /** Appending a row with a new id keeps ids unique, and pairs too when the
      table had no row for its pair. */
  lemma AppendKeepsUnique(rows: seq<Membership>, newRow: Membership)
    requires UniqueBy(rows, RowId) && FreshRow(rows, newRow)
    ensures UniqueBy(rows + [newRow], RowId)
    ensures UniquePairs(rows) && !HasPair(rows, newRow.actor, newRow.target) ==> UniquePairs(rows + [newRow])
  {
    var r := rows + [newRow];
    assert forall k :: 0 <= k < |rows| ==> r[k] == rows[k];
    assert r[|rows|] == newRow;
  }

  /** A toggle keeps the table's ids unique and, when its lookup succeeds,
      keeps at most one row per pair. */
  lemma TogglePreservesUniqueness(rows: seq<Membership>, actor: Id, target: Id, lookupOk: bool, writeOk: bool,
                                  newRow: Membership)
    requires UniqueBy(rows, RowId) && FreshRow(rows, newRow)
    requires newRow.actor == actor && newRow.target == target
    ensures UniqueBy(Toggled(rows, actor, target, lookupOk, writeOk, newRow), RowId)
    ensures lookupOk && UniquePairs(rows) ==> UniquePairs(Toggled(rows, actor, target, lookupOk, writeOk, newRow))
  {
    var existing := LookupPair(rows, actor, target, lookupOk);
    if writeOk && existing.Some? {
      RemoveIdExactly(rows, existing.value);
      RemoveAtKeepsUnique(rows, existing.value);
    } else if writeOk {
      PairCountBounds(rows, actor, target);
      AppendKeepsUnique(rows, newRow);
    }
  }

  /** With at most one row per pair, a successful toggle flips membership. */
  lemma ToggleFlipsMembership(rows: seq<Membership>, actor: Id, target: Id, newRow: Membership)
    requires UniqueBy(rows, RowId) && UniquePairs(rows)
    requires newRow.actor == actor && newRow.target == target
    ensures HasPair(Toggled(rows, actor, target, true, true, newRow), actor, target)
        <==> !HasPair(rows, actor, target)
  {
    var after := Toggled(rows, actor, target, true, true, newRow);
    if HasPair(rows, actor, target) {
      var i := LookupPair(rows, actor, target, true).value;
      RemoveIdExactly(rows, i);
      forall k | 0 <= k < |after| ensures !(after[k].actor == actor && after[k].target == target) {
        var j := if k < i then k else k + 1;
        assert after[k] == rows[j] && j != i;
      }
    } else {
      assert after[|rows|] == newRow;
    }
  }

  /** Two successful toggles of a pair that had no row restore the table
      exactly. */
  lemma DoubleToggleFromAbsent(rows: seq<Membership>, actor: Id, target: Id, first: Membership, second: Membership)
    requires UniqueBy(rows, RowId) && FreshRow(rows, first)
    requires first.actor == actor && first.target == target
    requires !HasPair(rows, actor, target)
    ensures Toggled(Toggled(rows, actor, target, true, true, first), actor, target, true, true, second) == rows
  {
    PairCountBounds(rows, actor, target);
    var mid := Toggled(rows, actor, target, true, true, first);
    assert mid == rows + [first];
    assert mid[|rows|] == first;
    assert forall k :: 0 <= k < |rows| ==> mid[k] == rows[k];
    AppendKeepsUnique(rows, first);
    assert FindPair(mid, actor, target) == Some(|rows|);
    CountAppend(rows, [first], IsPair(actor, target));
    assert Filter([first], IsPair(actor, target)) == [first];
    assert SinglePair(mid, actor, target);
    RemoveIdExactly(mid, |rows|);
    assert mid[..|rows|] == rows;
  }

  /** With at most one row per pair, two successful toggles restore the
      pair's membership, whatever it was. */
  lemma DoubleToggleRestoresMembership(rows: seq<Membership>, actor: Id, target: Id, first: Membership,
                                       second: Membership)
    requires UniqueBy(rows, RowId) && UniquePairs(rows) && FreshRow(rows, first)
    requires first.actor == actor && first.target == target
    requires second.actor == actor && second.target == target
    ensures HasPair(Toggled(Toggled(rows, actor, target, true, true, first), actor, target, true, true, second),
                    actor, target)
        <==> HasPair(rows, actor, target)
  {
    var mid := Toggled(rows, actor, target, true, true, first);
    ToggleFlipsMembership(rows, actor, target, first);
    TogglePreservesUniqueness(rows, actor, target, true, true, first);
    ToggleFlipsMembership(mid, actor, target, second);
  }

  // ---------------------------------------------------------------------
  // Counts
  // ---------------------------------------------------------------------

  /** `getFollowerCount`: rows whose `following_id` is the user. */
  function FollowerCount(follows: seq<Follow>, user: Id): nat {
    Count(follows, HasTarget(user))
  }

  /** `getFollowingCount`: rows whose `follower_id` is the user. */
  function FollowingCount(follows: seq<Follow>, user: Id): nat {
    Count(follows, HasActor(user))
  }

  /** `getLikeCount`: rows whose `post_id` is the post. */
  function LikeCount(likes: seq<Like>, post: Id): nat {
    Count(likes, HasTarget(post))
  }

  lemma RemoveIdCount(rows: seq<Membership>, i: nat, p: Membership -> bool)
    requires i < |rows| && UniqueBy(rows, RowId)
    ensures Count(RemoveId(rows, rows[i].id), p) + (if p(rows[i]) then 1 else 0) == Count(rows, p)
  {
    RemoveIdExactly(rows, i);
    FilterAround(rows, i, p);
    FilterAppend(rows[..i], rows[i + 1..], p);
  }

  /** A toggle, successful or not, leaves the rows of every other target
      as many as they were. */
  lemma ToggleCountsOfOthers(rows: seq<Membership>, actor: Id, target: Id, lookupOk: bool, writeOk: bool,
                             newRow: Membership, other: Id)
    requires UniqueBy(rows, RowId)
    requires newRow.actor == actor && newRow.target == target && other != target
    ensures Count(Toggled(rows, actor, target, lookupOk, writeOk, newRow), HasTarget(other))
         == Count(rows, HasTarget(other))
  {
    var existing := LookupPair(rows, actor, target, lookupOk);
    if writeOk && existing.Some? {
      RemoveIdCount(rows, existing.value, HasTarget(other));
    } else if writeOk {
      CountAppend(rows, [newRow], HasTarget(other));
    }
  }

  /** A successful toggle of `(actor, target)` moves the actor's following
      count and the target's follower count by one, up when the pair had no
      row and down when it had one; every other user's counts stay. */
  lemma ToggleMovesCounts(rows: seq<Membership>, actor: Id, target: Id, newRow: Membership, user: Id)
    requires UniqueBy(rows, RowId)
    requires newRow.actor == actor && newRow.target == target
    ensures var after := Toggled(rows, actor, target, true, true, newRow);
      var delta := if SinglePair(rows, actor, target) then -1 else 1;
      && FollowingCount(after, user) == FollowingCount(rows, user) + (if user == actor then delta else 0)
      && FollowerCount(after, user) == FollowerCount(rows, user) + (if user == target then delta else 0)
  {
    if SinglePair(rows, actor, target) {
      var i := LookupPair(rows, actor, target, true).value;
      RemoveIdCount(rows, i, HasActor(user));
      RemoveIdCount(rows, i, HasTarget(user));
    } else {
      CountAppend(rows, [newRow], HasActor(user));
      CountAppend(rows, [newRow], HasTarget(user));
    }
  }

  /** What the pages rely on after a toggle: with a successful lookup and
      write, membership flips (given one row per pair) and the counts of
      the actor and the target move by one; the rows of other targets are
      as many as before whatever the outcome. */
  lemma ToggleEffects(rows: seq<Membership>, actor: Id, target: Id, lookupOk: bool, writeOk: bool,
                      newRow: Membership)
    requires UniqueBy(rows, RowId)
    requires newRow.actor == actor && newRow.target == target
    ensures var after := Toggled(rows, actor, target, lookupOk, writeOk, newRow);
      && (lookupOk && writeOk && UniquePairs(rows) ==> (HasPair(after, actor, target) <==> !HasPair(rows, actor, target)))
      && (lookupOk && writeOk ==> forall u ::
            var delta := if SinglePair(rows, actor, target) then -1 else 1;
            && FollowingCount(after, u) == FollowingCount(rows, u) + (if u == actor then delta else 0)
            && FollowerCount(after, u) == FollowerCount(rows, u) + (if u == target then delta else 0))
      && (lookupOk && writeOk ==>
            LikeCount(after, target) == LikeCount(rows, target) + (if SinglePair(rows, actor, target) then -1 else 1))
      && (forall t :: t != target ==> LikeCount(after, t) == LikeCount(rows, t))
  {
    if lookupOk && writeOk && UniquePairs(rows) {
      ToggleFlipsMembership(rows, actor, target, newRow);
    }
    if lookupOk && writeOk {
      forall u ensures
        var after := Toggled(rows, actor, target, true, true, newRow);
        var delta := if SinglePair(rows, actor, target) then -1 else 1;
        && FollowingCount(after, u) == FollowingCount(rows, u) + (if u == actor then delta else 0)
        && FollowerCount(after, u) == FollowerCount(rows, u) + (if u == target then delta else 0)
      {
        ToggleMovesCounts(rows, actor, target, newRow, u);
      }
    }
    if lookupOk && writeOk {
      ToggleMovesCounts(rows, actor, target, newRow, target);
    }
    forall t | t != target
      ensures LikeCount(Toggled(rows, actor, target, lookupOk, writeOk, newRow), t) == LikeCount(rows, t)
    {
      ToggleCountsOfOthers(rows, actor, target, lookupOk, writeOk, newRow, t);
    }
  }

  /** Follow then unfollow returns every follower and following count to its
      prior value. */
  lemma FollowUnfollowRestoresCounts(rows: seq<Follow>, follower: Id, following: Id, first: Follow,
                                     second: Follow, user: Id)
    requires UniqueBy(rows, RowId) && FreshRow(rows, first)
    requires first.actor == follower && first.target == following
    requires !HasPair(rows, follower, following)
    ensures var after := Toggled(Toggled(rows, follower, following, true, true, first),
                                 follower, following, true, true, second);
      FollowerCount(after, user) == FollowerCount(rows, user)
      && FollowingCount(after, user) == FollowingCount(rows, user)
  {
    DoubleToggleFromAbsent(rows, follower, following, first, second);
  }

  // ---------------------------------------------------------------------
  // Posts
  // ---------------------------------------------------------------------

  /** The `status` argument of `getPosts`. */
  datatype StatusFilter = OnlyPublished | AllStatuses

  function StatusMatches(filter: StatusFilter): Post -> bool {
    (p: Post) => filter == AllStatuses || p.status == Published
  }

  function PublishedBy(author: Id): Post -> bool {
    (p: Post) => p.author_id == author && p.status == Published
  }

  function PublishedIn(ids: seq<Id>): Post -> bool {
    (p: Post) => p.id in ids && p.status == Published
  }

  function PublishedMatching(matches: Post -> bool): Post -> bool {
    (p: Post) => p.status == Published && matches(p)
  }

  /** `.range(from, from + limit - 1)`: at most `limit` rows starting at
      position `from`. */
  function Window<T>(rows: seq<T>, from: nat, limit: nat): (r: seq<T>)
    ensures |r| <= limit
    ensures forall k :: 0 <= k < |r| ==> from + k < |rows| && r[k] == rows[from + k]
    ensures from + limit <= |rows| ==> |r| == limit
  {
    if from >= |rows| then []
    else if from + limit <= |rows| then rows[from..from + limit]
    else rows[from..]
  }

  /** A read by a unique key, `.eq(column, k).maybeSingle()` or an
      embedding through a foreign key: the row whose key is `k`, null when
      there is none. The keys used (profile ids and usernames, post and
      category slugs) are unique, so the first match is the only one. */
  function FindByKey<T, K(==)>(rows: seq<T>, key: T -> K, k: K): (r: Option<T>)
    ensures r.Some? ==> r.value in rows && key(r.value) == k
    ensures r.None? <==> forall i :: 0 <= i < |rows| ==> key(rows[i]) != k
  {
    if rows == [] then None
    else if key(rows[0]) == k then Some(rows[0])
    else FindByKey(rows[1..], key, k)
  }

  function ProfileId(p: Profile): Id { p.id }

  function Username(p: Profile): string { p.username }

  function PostSlug(p: Post): string { p.slug }

  function CategorySlug(c: Category): string { c.slug }

  /** The `author:profiles(*)` embedding. */
  function FindProfileById(profiles: seq<Profile>, id: Id): Option<Profile> {
    FindByKey(profiles, ProfileId, id)
  }

  function Embedding(profiles: seq<Profile>): Post -> PostWithAuthor {
    (p: Post) => PostWithAuthor(p, FindProfileById(profiles, p.author_id), None)
  }

  /** Posts as the `*, author:profiles(*)` selects return them: with their
      author and without categories. */
  function WithAuthors(profiles: seq<Profile>, posts: seq<Post>): (r: seq<PostWithAuthor>)
    ensures |r| == |posts|
    ensures forall k :: 0 <= k < |r| ==> r[k].post == posts[k] && r[k].categories.None?
    ensures forall k :: 0 <= k < |r| ==> r[k].author == FindProfileById(profiles, posts[k].author_id)
  {
    Map(posts, Embedding(profiles))
  }

  function Posts(r: seq<PostWithAuthor>): seq<Post> {
    Map(r, (x: PostWithAuthor) => x.post)
  }

  /** The posts of an authored listing are the posts it was made from. */
  lemma PostsWithAuthors(profiles: seq<Profile>, posts: seq<Post>)
    ensures Posts(WithAuthors(profiles, posts)) == posts
  {
    var r := WithAuthors(profiles, posts);
    assert forall k :: 0 <= k < |r| ==> Posts(r)[k] == posts[k];
  }

  /** `.in('id', ids).eq('status', 'published')` with the author embedded:
      the published posts whose id is listed, in listing order. */
  function PublishedAmong(profiles: seq<Profile>, posts: seq<Post>, ids: seq<Id>): (r: seq<PostWithAuthor>)
    ensures Posts(r) == Filter(posts, PublishedIn(ids))
    ensures forall k :: 0 <= k < |r| ==>
      && r[k].post in posts && r[k].post.status == Published && r[k].post.id in ids
      && r[k].author == FindProfileById(profiles, r[k].post.author_id)
  {
    var found := Filter(posts, PublishedIn(ids));
    PostsWithAuthors(profiles, found);
    WithAuthors(profiles, found)
  }

  // ---------------------------------------------------------------------
  // Categories
  // ---------------------------------------------------------------------

  function InCategory(categoryId: Id): PostCategory -> bool {
    (l: PostCategory) => l.category_id == categoryId
  }

  function LinkedPost(l: PostCategory): Id { l.post_id }

  /** `postCategories.map((pc) => pc.post_id)` for the category's links. */
  function LinkedPostIds(links: seq<PostCategory>, categoryId: Id): (ids: seq<Id>)
    ensures forall id :: id in ids <==> PostCategory(id, categoryId) in links
  {
    var mine := Filter(links, InCategory(categoryId));
    FilterComplete(links, InCategory(categoryId));
    var ids := Map(mine, LinkedPost);
    assert forall id :: PostCategory(id, categoryId) in links ==> PostCategory(id, categoryId) in mine;
    assert forall k :: 0 <= k < |mine| ==> mine[k] == PostCategory(ids[k], categoryId);
    ids
  }

  function LinkedTo(links: seq<PostCategory>, postId: Id): Category -> bool {
    (c: Category) => PostCategory(postId, c.id) in links
  }

  /** The categories a post is linked to through the join table. */
  function CategoriesOf(categories: seq<Category>, links: seq<PostCategory>, postId: Id): (r: seq<Category>)
    ensures forall c :: c in r <==> c in categories && PostCategory(postId, c.id) in links
  {
    FilterComplete(categories, LinkedTo(links, postId));
    Filter(categories, LinkedTo(links, postId))
  }

  function CategoryEmbedding(profiles: seq<Profile>, categories: seq<Category>, links: seq<PostCategory>)
    : Post -> PostWithAuthor
  {
    (p: Post) => PostWithAuthor(p, FindProfileById(profiles, p.author_id), Some(CategoriesOf(categories, links, p.id)))
  }

  // ---------------------------------------------------------------------
  // Comments
  // ---------------------------------------------------------------------

  function CommentId(c: Comment): int { c.id }

  function CommentCreatedAt(c: Comment): int { c.created_at }

  function ApprovedOn(postId: Id): Comment -> bool {
    (c: Comment) => c.post_id == postId && c.is_approved
  }

  function NotCommentId(id: Id): Comment -> bool {
    (c: Comment) => c.id != id
  }

  // ---------------------------------------------------------------------
  // Bookmarks
  // ---------------------------------------------------------------------

  function MembershipCreatedAt(r: Membership): int { r.created_at }

  /** The user's bookmarks `.order('created_at', { ascending: false })
      .limit(limit)`, for a table kept in ascending creation order: as many
      as `limit` allows. */
  function RecentBookmarks(bookmarks: seq<Bookmark>, user: Id, limit: nat): (r: seq<Bookmark>)
    ensures |r| <= limit
    ensures |r| == (if limit < Count(bookmarks, HasActor(user)) then limit else Count(bookmarks, HasActor(user)))
    ensures forall k :: 0 <= k < |r| ==> r[k] in bookmarks && r[k].actor == user
  {
    Take(Reverse(Filter(bookmarks, HasActor(user))), limit)
  }

  /** Each post id taken from some of the user's bookmarks is the target of
      one of them, and so of a bookmark row of the user. */
  lemma TargetsOfBookmarks(recent: seq<Bookmark>, bookmarks: seq<Bookmark>, user: Id)
    requires forall k :: 0 <= k < |recent| ==> recent[k] in bookmarks && recent[k].actor == user
    ensures forall id :: id in Map(recent, TargetOf) ==>
      && (exists b :: b in recent && b.target == id)
      && (exists j :: 0 <= j < |bookmarks| && bookmarks[j].actor == user && bookmarks[j].target == id)
  {
    var ids := Map(recent, TargetOf);
    forall id | id in ids
      ensures exists b :: b in recent && b.target == id
      ensures exists j :: 0 <= j < |bookmarks| && bookmarks[j].actor == user && bookmarks[j].target == id
    {
      var i :| 0 <= i < |ids| && ids[i] == id;
      var b := recent[i];
      var j :| 0 <= j < |bookmarks| && bookmarks[j] == b;
    }
  }

  /** Taking the latest first keeps the order descending by creation time. */
  lemma RecentBookmarksNewestFirst(bookmarks: seq<Bookmark>, user: Id, limit: nat)
    requires SortedBy(bookmarks, MembershipCreatedAt)
    ensures forall i, j :: 0 <= i < j < |RecentBookmarks(bookmarks, user, limit)| ==>
      RecentBookmarks(bookmarks, user, limit)[i].created_at >= RecentBookmarks(bookmarks, user, limit)[j].created_at
  {
    var mine := Filter(bookmarks, HasActor(user));
    FilterSorted(bookmarks, HasActor(user), MembershipCreatedAt);
    var r := RecentBookmarks(bookmarks, user, limit);
    forall i, j | 0 <= i < j < |r| ensures r[i].created_at >= r[j].created_at {
      assert r[i] == mine[|mine| - 1 - i] && r[j] == mine[|mine| - 1 - j];
      assert MembershipCreatedAt(mine[|mine| - 1 - j]) <= MembershipCreatedAt(mine[|mine| - 1 - i]);
    }
  }

  /** A run taken from the end of a sorted sequence, last first, holds its
      newest elements: an element left out is no newer than any taken, and
      taking all positions leaves nothing out. */
  lemma NewestFromEnd(mine: seq<Bookmark>, r: seq<Bookmark>, x: Bookmark)
    requires SortedBy(mine, MembershipCreatedAt)
    requires |r| <= |mine| && forall k :: 0 <= k < |r| ==> r[k] == mine[|mine| - 1 - k]
    requires x in mine
    ensures x !in r ==> forall k :: 0 <= k < |r| ==> x.created_at <= r[k].created_at
    ensures |r| == |mine| ==> x in r
  {
    var m :| 0 <= m < |mine| && mine[m] == x;
    if |mine| - |r| <= m {
      assert r[|mine| - 1 - m] == x;
    } else {
      forall k | 0 <= k < |r| ensures x.created_at <= r[k].created_at {
        assert MembershipCreatedAt(mine[m]) <= MembershipCreatedAt(mine[|mine| - 1 - k]);
      }
    }
  }

  /** Over a table in creation order, the bookmarks taken are the user's
      newest: every bookmark of the user that is left out is no newer than
      any that is taken, and when fewer than `limit` are taken every
      bookmark of the user is. */
  lemma RecentBookmarksAreNewest(bookmarks: seq<Bookmark>, user: Id, limit: nat)
    requires SortedBy(bookmarks, MembershipCreatedAt)
    ensures var r := RecentBookmarks(bookmarks, user, limit);
      forall j, k :: 0 <= j < |bookmarks| && bookmarks[j].actor == user && bookmarks[j] !in r && 0 <= k < |r| ==>
        bookmarks[j].created_at <= r[k].created_at
    ensures var r := RecentBookmarks(bookmarks, user, limit);
      |r| < limit ==> forall j :: 0 <= j < |bookmarks| && bookmarks[j].actor == user ==> bookmarks[j] in r
  {
    var mine := Filter(bookmarks, HasActor(user));
    var r := RecentBookmarks(bookmarks, user, limit);
    FilterSorted(bookmarks, HasActor(user), MembershipCreatedAt);
    FilterComplete(bookmarks, HasActor(user));
    assert |r| <= |mine| && forall k :: 0 <= k < |r| ==> r[k] == mine[|mine| - 1 - k];
    forall j | 0 <= j < |bookmarks| && bookmarks[j].actor == user
      ensures bookmarks[j] !in r ==> forall k :: 0 <= k < |r| ==> bookmarks[j].created_at <= r[k].created_at
      ensures |r| < limit ==> bookmarks[j] in r
    {
      assert HasActor(user)(bookmarks[j]);
      NewestFromEnd(mine, r, bookmarks[j]);
    }
  }
}
