/**
 * Generic sequence operations behind the SQL the core runs: `ORDER BY key DESC`
 * as a stable insertion sort, `LIMIT n OFFSET k` with SQLite's treatment of
 * negative values, and facts about keys that stay distinct.
 */
module Sequences {

  /** Every element's key is at least the key of every later element. */
  predicate SortedDesc<T>(s: seq<T>, key: T -> int) {
    forall i, j :: 0 <= i < j < |s| ==> key(s[i]) >= key(s[j])
  }

  /** A contiguous part of a descending list is descending. */
  lemma SortedDescSlice<T>(s: seq<T>, key: T -> int, lo: nat, hi: nat)
    requires SortedDesc(s, key) && lo <= hi <= |s|
    ensures SortedDesc(s[lo..hi], key)
  {
    var t := s[lo..hi];
    forall i, j | 0 <= i < j < |t| ensures key(t[i]) >= key(t[j]) {
      assert t[i] == s[lo + i] && t[j] == s[lo + j];
    }
  }

  /** Inserts `x` before the first element whose key does not exceed its own. */
  function InsertDesc<T>(x: T, s: seq<T>, key: T -> int): (r: seq<T>)
    requires SortedDesc(s, key)
    ensures SortedDesc(r, key)
    ensures multiset(r) == multiset(s) + multiset{x}
  {
    if |s| == 0 then [x]
    else if key(s[0]) <= key(x) then [x] + s
    else
      var t := InsertDesc(x, s[1..], key);
      InsertDescStep(x, s, key, t);
      [s[0]] + t
  }

  lemma InsertDescStep<T>(x: T, s: seq<T>, key: T -> int, t: seq<T>)
    requires SortedDesc(s, key) && |s| > 0 && key(s[0]) > key(x)
    requires SortedDesc(t, key) && multiset(t) == multiset(s[1..]) + multiset{x}
    ensures SortedDesc([s[0]] + t, key)
    ensures multiset([s[0]] + t) == multiset(s) + multiset{x}
  {
    assert s == [s[0]] + s[1..];
    forall k | 0 <= k < |t| ensures key(s[0]) >= key(t[k]) {
      assert t[k] in multiset(t);
    }
  }

  /** `ORDER BY key DESC`: a permutation of the input with keys in descending order. */
  function SortDesc<T>(s: seq<T>, key: T -> int): (r: seq<T>)
    ensures SortedDesc(r, key)
    ensures multiset(r) == multiset(s)
    ensures |r| == |s|
  {
    if |s| == 0 then []
    else
      assert s == [s[0]] + s[1..];
      InsertDesc(s[0], SortDesc(s[1..], key), key)
  }

  /** Sorting keeps exactly the elements it was given. */
  lemma SortDescMembers<T>(s: seq<T>, key: T -> int)
    ensures forall y :: y in SortDesc(s, key) <==> y in s
  {
    forall y ensures y in SortDesc(s, key) <==> y in s {
      assert y in SortDesc(s, key) <==> y in multiset(SortDesc(s, key));
    }
  }

  /** An integer clamped into `0..hi`. */
  function Clamp(n: int, hi: nat): (r: nat)
    ensures r <= hi
    ensures 0 <= n <= hi ==> r == n
  {
    if n < 0 then 0 else if n > hi then hi else n
  }

  /**
   * `LIMIT limit OFFSET offset` as SQLite evaluates it: a negative offset
   * counts as zero and a negative limit means no upper bound.
   */
  function Window<T>(s: seq<T>, limit: int, offset: int): (r: seq<T>)
    ensures limit >= 0 ==> |r| <= limit
    ensures var lo := Clamp(offset, |s|);
            && lo + |r| <= |s|
            && r == s[lo..lo + |r|]
            && (limit < 0 || limit >= |s| - lo ==> lo + |r| == |s|)
            && (0 <= limit < |s| - lo ==> |r| == limit)
    ensures multiset(r) <= multiset(s)
  {
    var lo := Clamp(offset, |s|);
    var hi := if limit < 0 || limit >= |s| - lo then |s| else lo + limit;
    assert s == s[..lo] + s[lo..hi] + s[hi..];
    s[lo..hi]
  }

  /** `(page - 1) * pageSize`, the OFFSET the store computes for a page. */
  function PageOffset(page: int, pageSize: int): int {
    (page - 1) * pageSize
  }

  /** The first page of a query (`OFFSET 0`) is empty exactly when the query matches nothing. */
  lemma FirstPageEmptyIff<T>(s: seq<T>, limit: int)
    requires limit != 0
    ensures Window(s, limit, 0) == [] <==> s == []
  {
  }

  /** No two elements share a key. */
  ghost predicate DistinctBy<T, K>(s: seq<T>, key: T -> K) {
    forall i, j :: 0 <= i < j < |s| ==> key(s[i]) != key(s[j])
  }

  lemma DistinctByTail<T, K>(s: seq<T>, key: T -> K)
    requires |s| > 0 && DistinctBy(s, key)
    ensures DistinctBy(s[1..], key)
  {
    var t := s[1..];
    forall i, j | 0 <= i < j < |t| ensures key(t[i]) != key(t[j]) {
      assert t[i] == s[i + 1] && t[j] == s[j + 1];
    }
  }

  /** A contiguous part of a sequence with distinct keys has distinct keys. */
  lemma DistinctBySlice<T, K>(s: seq<T>, key: T -> K, lo: nat, hi: nat)
    requires DistinctBy(s, key) && lo <= hi <= |s|
    ensures DistinctBy(s[lo..hi], key)
  {
    var t := s[lo..hi];
    forall i, j | 0 <= i < j < |t| ensures key(t[i]) != key(t[j]) {
      assert t[i] == s[lo + i] && t[j] == s[lo + j];
    }
  }

  lemma DistinctByCons<T, K>(x: T, t: seq<T>, key: T -> K)
    requires DistinctBy(t, key)
    requires forall k :: 0 <= k < |t| ==> key(x) != key(t[k])
    ensures DistinctBy([x] + t, key)
  {
    var s := [x] + t;
    forall i, j | 0 <= i < j < |s| ensures key(s[i]) != key(s[j]) {
      assert s[j] == t[j - 1];
      if i > 0 { assert s[i] == t[i - 1]; }
    }
  }

  lemma {:induction false} InsertDescDistinct<T, K>(x: T, s: seq<T>, key: T -> int, id: T -> K)
    requires SortedDesc(s, key) && DistinctBy(s, id)
    requires forall y :: y in s ==> id(y) != id(x)
    ensures DistinctBy(InsertDesc(x, s, key), id)
  {
    if |s| > 0 && key(s[0]) > key(x) {
      var t := InsertDesc(x, s[1..], key);
      DistinctByTail(s, id);
      InsertDescDistinct(x, s[1..], key, id);
      forall k | 0 <= k < |t| ensures id(s[0]) != id(t[k]) {
        assert t[k] in multiset(s[1..]) + multiset{x} by { assert t[k] in multiset(t); }
        if t[k] != x {
          var j :| 0 <= j < |s[1..]| && s[1..][j] == t[k];
          assert s[j + 1] == t[k];
        }
      }
      DistinctByCons(s[0], t, id);
    } else {
      forall k | 0 <= k < |s| ensures id(x) != id(s[k]) {
        assert s[k] in s;
      }
      DistinctByCons(x, s, id);
    }
  }

  /** Sorting a sequence whose elements have distinct ids leaves the ids distinct. */
  lemma {:induction false} SortDescDistinct<T, K>(s: seq<T>, key: T -> int, id: T -> K)
    requires DistinctBy(s, id)
    ensures DistinctBy(SortDesc(s, key), id)
  {
    if |s| > 0 {
      var tail := s[1..];
      var sorted := SortDesc(tail, key);
      SortDescDistinct(tail, key, id);
      forall y | y in sorted ensures id(y) != id(s[0]) {
        assert y in multiset(sorted);
        assert y in tail;
        var j :| 0 <= j < |tail| && tail[j] == y;
        assert s[j + 1] == y;
      }
      InsertDescDistinct(s[0], sorted, key, id);
    }
  }

  /** The keys of a sequence form a set no larger than the sequence. */
  ghost function KeySet<T, K>(s: seq<T>, key: T -> K): set<K> {
    set k | 0 <= k < |s| :: key(s[k])
  }

  /** Appending an element adds its key. */
  lemma KeySetSnoc<T, K>(s: seq<T>, key: T -> K)
    requires |s| > 0
    ensures KeySet(s, key) == KeySet(s[..|s| - 1], key) + {key(s[|s| - 1])}
  {
    var init := s[..|s| - 1];
    var all, front := KeySet(s, key), KeySet(init, key);
    forall y | y in all ensures y in front + {key(s[|s| - 1])} {
      var k :| 0 <= k < |s| && key(s[k]) == y;
      if k < |init| { assert key(init[k]) == y; }
    }
    forall y | y in front ensures y in all {
      var k :| 0 <= k < |init| && key(init[k]) == y;
      assert key(s[k]) == y;
    }
  }

  lemma {:induction false} KeySetCard<T, K>(s: seq<T>, key: T -> K)
    ensures |KeySet(s, key)| <= |s|
  {
    if |s| > 0 {
      KeySetCard(s[..|s| - 1], key);
      KeySetSnoc(s, key);
    }
  }

  /** With no key repeated, there are exactly as many keys as elements. */
  lemma {:induction false} KeySetCardDistinct<T, K>(s: seq<T>, key: T -> K)
    requires DistinctBy(s, key)
    ensures |KeySet(s, key)| == |s|
  {
    if |s| > 0 {
      var init := s[..|s| - 1];
      DistinctBySlice(s, key, 0, |s| - 1);
      KeySetCardDistinct(init, key);
      KeySetSnoc(s, key);
      forall k | 0 <= k < |init| ensures key(init[k]) != key(s[|s| - 1]) {
        assert init[k] == s[k];
      }
      assert key(s[|s| - 1]) !in KeySet(init, key);
    }
  }
}
