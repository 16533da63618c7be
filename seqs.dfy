/** Sequence combinators standing for the array methods the source uses
    (`filter`, `map`, `slice`, `reverse`) and the facts about them the rest
    of the model relies on. */
module Seqs {

  /** `s.filter(p)`: the elements of `s` satisfying `p`, in their order. */
  function Filter<T>(s: seq<T>, p: T -> bool): (r: seq<T>)
    ensures |r| <= |s|
    ensures forall i :: 0 <= i < |r| ==> p(r[i]) && r[i] in s
  {
    if s == [] then [] else (if p(s[0]) then [s[0]] else []) + Filter(s[1..], p)
  }

  /** Every element satisfying `p` is kept. (Kept out of the contract of
      `Filter`, where it would feed a matching loop with the one above.) */
  lemma {:induction false} FilterComplete<T>(s: seq<T>, p: T -> bool)
    ensures forall i :: 0 <= i < |s| && p(s[i]) ==> s[i] in Filter(s, p)
  {
    if s != [] {
      FilterComplete(s[1..], p);
      forall i | 0 <= i < |s| && p(s[i]) ensures s[i] in Filter(s, p) {
        if i > 0 {
          assert s[i] == s[1..][i - 1];
        }
      }
    }
  }

  lemma {:induction false} FilterAppend<T>(a: seq<T>, b: seq<T>, p: T -> bool)
    ensures Filter(a + b, p) == Filter(a, p) + Filter(b, p)
  {
    if a == [] {
      assert a + b == b;
    } else {
      assert (a + b)[1..] == a[1..] + b;
      FilterAppend(a[1..], b, p);
    }
  }

  /** Filtering keeps everything when every element passes. */
  lemma {:induction false} FilterKeepsAll<T>(s: seq<T>, p: T -> bool)
    requires forall i :: 0 <= i < |s| ==> p(s[i])
    ensures Filter(s, p) == s
  {
    if s != [] {
      FilterKeepsAll(s[1..], p);
    }
  }

  /** Filtering keeps nothing when no element passes. */
  lemma {:induction false} FilterRejectsAll<T>(s: seq<T>, p: T -> bool)
    requires forall i :: 0 <= i < |s| ==> !p(s[i])
    ensures Filter(s, p) == []
  {
    if s != [] {
      FilterRejectsAll(s[1..], p);
    }
  }

  /** No two elements share a key. */
  ghost predicate UniqueBy<T>(s: seq<T>, key: T -> int) {
    forall i, j :: 0 <= i < j < |s| ==> key(s[i]) != key(s[j])
  }

  /** Filtering around one position: what comes before it, the element itself,
      and what comes after it. */
  lemma {:induction false} FilterAround<T>(s: seq<T>, i: nat, p: T -> bool)
    requires i < |s|
    ensures Filter(s, p) == Filter(s[..i], p) + Filter([s[i]], p) + Filter(s[i + 1..], p)
  {
    var before, here, after := s[..i], [s[i]], s[i + 1..];
    assert s == before + (here + after);
    FilterAppend(before, here + after, p);
    FilterAppend(here, after, p);
    var fb, fh, fa := Filter(before, p), Filter(here, p), Filter(after, p);
    assert fb + (fh + fa) == fb + fh + fa;
  }

  /** A filter that rejects exactly the element at position `i` removes
      that element and keeps the others in order. */
  lemma {:induction false} FilterDropsOne<T>(s: seq<T>, i: nat, p: T -> bool)
    requires i < |s| && !p(s[i])
    requires forall k :: 0 <= k < |s| && k != i ==> p(s[k])
    ensures Filter(s, p) == s[..i] + s[i + 1..]
  {
    var tail := s[1..];
    if i == 0 {
      forall k | 0 <= k < |tail| ensures p(tail[k]) {
        assert tail[k] == s[k + 1];
      }
      FilterKeepsAll(tail, p);
      assert s[..0] + s[1..] == tail;
    } else {
      forall k | 0 <= k < |tail| && k != i - 1 ensures p(tail[k]) {
        assert tail[k] == s[k + 1];
      }
      assert tail[i - 1] == s[i];
      FilterDropsOne(tail, i - 1, p);
      assert s[..i] == [s[0]] + tail[..i - 1];
      assert s[i + 1..] == tail[i..];
    }
  }

  /** Keys that never decrease along the sequence. */
  ghost predicate SortedBy<T>(s: seq<T>, key: T -> int) {
    forall i, j :: 0 <= i < j < |s| ==> key(s[i]) <= key(s[j])
  }

  /** Appending an element whose key is at least every key keeps sortedness. */
  lemma AppendSorted<T>(s: seq<T>, x: T, key: T -> int)
    requires SortedBy(s, key)
    requires forall k :: 0 <= k < |s| ==> key(s[k]) <= key(x)
    ensures SortedBy(s + [x], key)
  {
    var r := s + [x];
    assert forall k :: 0 <= k < |s| ==> r[k] == s[k];
    assert r[|s|] == x;
  }

  /** A filter keeps every key at least any lower bound of the input's keys. */
  lemma FilterBoundedBelow<T>(s: seq<T>, p: T -> bool, key: T -> int, x: T)
    requires forall k :: 0 <= k < |s| ==> key(x) <= key(s[k])
    ensures forall j :: 0 <= j < |Filter(s, p)| ==> key(x) <= key(Filter(s, p)[j])
  {
    var r := Filter(s, p);
    forall j | 0 <= j < |r| ensures key(x) <= key(r[j]) {
      var k :| 0 <= k < |s| && s[k] == r[j];
    }
  }

  /** A filter is an order-preserving subsequence, so it keeps any sortedness. */
  lemma {:induction false} FilterSorted<T>(s: seq<T>, p: T -> bool, key: T -> int)
    ensures SortedBy(s, key) ==> SortedBy(Filter(s, p), key)
  {
    if s != [] && SortedBy(s, key) {
      var tail := s[1..];
      forall i, j | 0 <= i < j < |tail| ensures key(tail[i]) <= key(tail[j]) {
        assert tail[i] == s[i + 1] && tail[j] == s[j + 1];
      }
      forall k | 0 <= k < |tail| ensures key(s[0]) <= key(tail[k]) {
        assert tail[k] == s[k + 1];
      }
      FilterSorted(tail, p, key);
      FilterBoundedBelow(tail, p, key, s[0]);
      var rest := Filter(tail, p);
      if p(s[0]) {
        var r := [s[0]] + rest;
        assert r == Filter(s, p);
        forall i, j | 0 <= i < j < |r| ensures key(r[i]) <= key(r[j]) {
          assert r[j] == rest[j - 1];
          if i > 0 {
            assert r[i] == rest[i - 1];
          }
        }
      } else {
        assert Filter(s, p) == rest;
      }
    }
  }

  /** A filter keeps no element whose key is absent from the input. */
  lemma FilterAvoidsKey<T, K>(s: seq<T>, p: T -> bool, key: T -> K, x: T)
    requires forall k :: 0 <= k < |s| ==> key(s[k]) != key(x)
    ensures forall j :: 0 <= j < |Filter(s, p)| ==> key(Filter(s, p)[j]) != key(x)
  {
    var r := Filter(s, p);
    forall j | 0 <= j < |r| ensures key(r[j]) != key(x) {
      var k :| 0 <= k < |s| && s[k] == r[j];
    }
  }

  /** A filter never brings together two elements with the same key: keys
      that are pairwise distinct stay so. */
  lemma {:induction false} FilterKeepsDistinct<T, K>(s: seq<T>, p: T -> bool, key: T -> K)
    requires forall i, j :: 0 <= i < j < |s| ==> key(s[i]) != key(s[j])
    ensures forall i, j :: 0 <= i < j < |Filter(s, p)| ==> key(Filter(s, p)[i]) != key(Filter(s, p)[j])
  {
    if s != [] {
      var tail := s[1..];
      forall i, j | 0 <= i < j < |tail| ensures key(tail[i]) != key(tail[j]) {
        assert tail[i] == s[i + 1] && tail[j] == s[j + 1];
      }
      forall k | 0 <= k < |tail| ensures key(tail[k]) != key(s[0]) {
        assert tail[k] == s[k + 1];
      }
      FilterKeepsDistinct(tail, p, key);
      FilterAvoidsKey(tail, p, key, s[0]);
      var rest := Filter(tail, p);
      if p(s[0]) {
        var r := [s[0]] + rest;
        assert r == Filter(s, p);
        forall i, j | 0 <= i < j < |r| ensures key(r[i]) != key(r[j]) {
          assert r[j] == rest[j - 1];
          if i > 0 {
            assert r[i] == rest[i - 1];
          }
        }
      } else {
        assert Filter(s, p) == rest;
      }
    }
  }

  /** `s.slice(0, n)`. */
  function Take<T>(s: seq<T>, n: nat): (r: seq<T>)
    ensures |r| <= n && |r| <= |s|
    ensures r == s[..|r|]
    ensures |r| == n || r == s
  {
    if n <= |s| then s[..n] else s
  }

  /** `s.map(f)`. */
  function Map<T, U>(s: seq<T>, f: T -> U): (r: seq<U>)
    ensures |r| == |s|
    ensures forall i :: 0 <= i < |s| ==> r[i] == f(s[i])
  {
    if s == [] then [] else [f(s[0])] + Map(s[1..], f)
  }

  /** `s.reverse()`, kept pure. */
  function Reverse<T>(s: seq<T>): (r: seq<T>)
    ensures |r| == |s|
    ensures forall i :: 0 <= i < |s| ==> r[i] == s[|s| - 1 - i]
  {
    if s == [] then [] else Reverse(s[1..]) + [s[0]]
  }

  /** The number of elements satisfying `p`. */
  function Count<T>(s: seq<T>, p: T -> bool): nat {
    |Filter(s, p)|
  }

  lemma CountAppend<T>(a: seq<T>, b: seq<T>, p: T -> bool)
    ensures Count(a + b, p) == Count(a, p) + Count(b, p)
  {
    FilterAppend(a, b, p);
  }
}
