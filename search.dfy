/** The search page of src/pages/Search.tsx. The text match of a query
    against a post (the store's `ilike` filter) is the parameter `matcher`. */
module Search {
  import opened Wrappers
  import opened Text
  import opened Types
  import opened Tables
  import opened Api

  /** The noun after the result count. */
  function ResultLabel(count: nat): (noun: string)
    ensures noun == "result" <==> count == 1
    ensures noun == "results" <==> count != 1
  {
    if count == 1 then "result" else "results"
  }

  class SearchPage {
    var query: string
    var results: seq<PostWithAuthor>
    var loading: bool
    var searched: bool
    /** The `q` parameter of the address. */
    var param: Option<string>

    /** The input starts with the address's `q`, or empty. */
    constructor (q: Option<string>)
      ensures query == q.GetOr([]) && param == q
      ensures results == [] && !loading && !searched
    {
      query, param := q.GetOr([]), q;
      results, loading, searched := [], false, false;
    }

    /** `performSearch` up to the awaited call: a blank query does nothing;
        otherwise the page is loading and marked as searched. */
    method StartSearch(q: string) returns (started: bool)
      modifies this`loading, this`searched
      ensures started <==> !IsBlank(q)
      ensures !started ==> loading == old(loading) && searched == old(searched)
      ensures started ==> loading && searched
    {
      if IsBlank(q) {
        return false;
      }
      loading := true;
      searched := true;
      started := true;
    }

    /** The continuation: the results are replaced by what the store returns
        for the query, which are all published matching posts, and loading
        ends. */
    method CompleteSearch(store: Store, matcher: string -> Post -> bool, q: string, ok: bool)
      modifies this`results, this`loading
      ensures results == store.SearchPosts(matcher(q), ok)
      ensures forall k :: 0 <= k < |results| ==> results[k].post.status == Published && matcher(q)(results[k].post)
      ensures |results| <= 20
      ensures !loading
    {
      results := store.SearchPosts(matcher(q), ok);
      loading := false;
    }

    /** The mount effect: a non-empty `q` fills the input and starts a
        search for it (which itself does nothing when `q` is blank). */
    method Mount() returns (started: bool)
      modifies this`query, this`loading, this`searched
      ensures param.None? || param.value == [] ==>
        !started && query == old(query) && loading == old(loading) && searched == old(searched)
      ensures param.Some? && param.value != [] ==>
        query == param.value && (started <==> !IsBlank(param.value)) && (started ==> loading && searched)
        && (!started ==> loading == old(loading) && searched == old(searched))
    {
      started := false;
      if param.Some? && param.value != [] {
        query := param.value;
        started := StartSearch(param.value);
      }
    }

    /** `handleSearch`: a blank input does nothing; otherwise the query is
        written to the address and the search starts. */
    method HandleSearch() returns (started: bool)
      modifies this`param, this`loading, this`searched
      ensures IsBlank(query) ==>
        !started && param == old(param) && loading == old(loading) && searched == old(searched)
      ensures !IsBlank(query) ==> started && param == Some(query) && loading && searched
    {
      if IsBlank(query) {
        return false;
      }
      param := Some(query);
      started := StartSearch(query);
    }
  }
}
