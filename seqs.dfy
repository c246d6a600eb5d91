/**
 * Sequence operations of the Java stream and JavaScript array libraries used by
 * the modelled code: `filter`, order-preserving sublists, stable sorting by a
 * key (Java `sorted` with a comparator, JavaScript `sort`) and `flatMap`.
 */
module Seqs {
  /** `s.filter(p)`: the elements satisfying `p`, in their original order. */
  function Filter<T>(s: seq<T>, p: T -> bool): (r: seq<T>)
    ensures |r| <= |s|
    ensures forall i :: 0 <= i < |r| ==> r[i] in s && p(r[i])
    ensures forall i :: 0 <= i < |s| && p(s[i]) ==> s[i] in r
  {
    if |s| == 0 then [] else (if p(s[0]) then [s[0]] else []) + Filter(s[1..], p)
  }

  /** `r` can be obtained from `s` by deleting elements. */
  predicate IsSubsequence<T(==)>(r: seq<T>, s: seq<T>)
    decreases |r| + |s|
  {
    if |r| == 0 then true
    else if |s| == 0 then false
    else if r[0] == s[0] then IsSubsequence(r[1..], s[1..])
    else IsSubsequence(r, s[1..])
  }

  lemma {:induction false} FilterIsSubsequence<T>(s: seq<T>, p: T -> bool)
    ensures IsSubsequence(Filter(s, p), s)
  {
    if |s| > 0 {
      FilterIsSubsequence(s[1..], p);
      var r := Filter(s, p);
      if p(s[0]) {
        assert r[0] == s[0] && r[1..] == Filter(s[1..], p);
      } else {
        assert r == Filter(s[1..], p);
        if |r| > 0 {
          assert r[0] in r;
        }
      }
    }
  }

  /** Every sequence is a subsequence of itself. */
  lemma {:induction false} SubsequenceOfItself<T>(s: seq<T>)
    ensures IsSubsequence(s, s)
  {
    if |s| > 0 {
      SubsequenceOfItself(s[1..]);
    }
  }

  lemma {:induction false} FilterKeepsAll<T>(s: seq<T>, p: T -> bool)
    requires forall i :: 0 <= i < |s| ==> p(s[i])
    ensures Filter(s, p) == s
  {
    if |s| > 0 {
      FilterKeepsAll(s[1..], p);
    }
  }

  /** Filtering twice with the same predicate is filtering once. */
  lemma FilterIdempotent<T>(s: seq<T>, p: T -> bool)
    ensures Filter(Filter(s, p), p) == Filter(s, p)
  {
    var r := Filter(s, p);
    FilterKeepsAll(r, p);
  }

  /** Lexicographic order on a two-part sort key. */
  predicate KeyLe(a: (int, int), b: (int, int)) {
    a.0 < b.0 || (a.0 == b.0 && a.1 <= b.1)
  }

  predicate SortedBy<T>(s: seq<T>, key: T -> (int, int)) {
    forall i, j :: 0 <= i < j < |s| ==> KeyLe(key(s[i]), key(s[j]))
  }

  /** Two positions of a sorted sequence, in order. */
  lemma SortedAt<T>(s: seq<T>, key: T -> (int, int), i: int, j: int)
    requires SortedBy(s, key) && 0 <= i < j < |s|
    ensures KeyLe(key(s[i]), key(s[j]))
  {
  }

  /** Puts `x` in front of the first element whose key is not smaller. */
  function InsertBy<T>(x: T, s: seq<T>, key: T -> (int, int)): (r: seq<T>)
    requires SortedBy(s, key)
    ensures SortedBy(r, key)
    ensures multiset(r) == multiset(s) + multiset{x}
    ensures |r| == |s| + 1
  {
    if |s| == 0 then [x]
    else if KeyLe(key(x), key(s[0])) then [x] + s
    else
      var rest := InsertBy(x, s[1..], key);
      assert s == [s[0]] + s[1..];
      forall k | 0 <= k < |rest| ensures KeyLe(key(s[0]), key(rest[k])) {
        assert rest[k] in multiset(rest);
        if rest[k] != x {
          assert rest[k] in s[1..];
          var m :| 0 <= m < |s| - 1 && s[1..][m] == rest[k];
          assert s[m + 1] == rest[k];
        }
      }
      [s[0]] + rest
  }

  /**
   * Stable insertion sort by `key`: the result is ordered by the key and is a
   * permutation of the input.
   */
  function SortBy<T>(s: seq<T>, key: T -> (int, int)): (r: seq<T>)
    ensures SortedBy(r, key)
    ensures multiset(r) == multiset(s)
    ensures |r| == |s|
  {
    if |s| == 0 then []
    else
      assert s == [s[0]] + s[1..];
      InsertBy(s[0], SortBy(s[1..], key), key)
  }

  /** The elements of `s` whose key is `k`, in their order in `s`. */
  function KeyClass<T>(s: seq<T>, key: T -> (int, int), k: (int, int)): (r: seq<T>)
    ensures |r| <= |s|
  {
    if |s| == 0 then [] else (if key(s[0]) == k then [s[0]] else []) + KeyClass(s[1..], key, k)
  }

  /**
   * Inserting `x` puts it before every element with its own key and leaves
   * the order of every key's elements alone.
   */
  lemma {:induction false} InsertByKeyClass<T>(x: T, s: seq<T>, key: T -> (int, int), k: (int, int))
    requires SortedBy(s, key)
    ensures KeyClass(InsertBy(x, s, key), key, k) == (if key(x) == k then [x] else []) + KeyClass(s, key, k)
  {
    var r := InsertBy(x, s, key);
    var own := if key(x) == k then [x] else [];
    if |s| == 0 {
      assert r == [x] && r[1..] == [];
    } else if KeyLe(key(x), key(s[0])) {
      assert r == [x] + s && r[0] == x && r[1..] == s;
    } else {
      var first := if key(s[0]) == k then [s[0]] else [];
      var rest := InsertBy(x, s[1..], key);
      assert r == [s[0]] + rest && r[0] == s[0] && r[1..] == rest;
      assert KeyClass(r, key, k) == first + KeyClass(rest, key, k);
      InsertByKeyClass(x, s[1..], key, k);
      assert KeyClass(s, key, k) == first + KeyClass(s[1..], key, k);
      // `s[0]`'s key is smaller than `x`'s, so at most one of the two is kept.
      if key(x) == k {
        assert first == [] && KeyClass(s, key, k) == KeyClass(s[1..], key, k);
        assert KeyClass(r, key, k) == [x] + KeyClass(s[1..], key, k);
      } else {
        assert KeyClass(rest, key, k) == KeyClass(s[1..], key, k);
      }
    }
  }

  /**
   * `SortBy` is stable: the elements sharing a key keep their relative
   * order, so each key's elements appear exactly as in the input.
   */
  lemma {:induction false} SortByStable<T>(s: seq<T>, key: T -> (int, int), k: (int, int))
    ensures KeyClass(SortBy(s, key), key, k) == KeyClass(s, key, k)
  {
    if |s| > 0 {
      SortByStable(s[1..], key, k);
      InsertByKeyClass(s[0], SortBy(s[1..], key), key, k);
    }
  }

  /** Filtering keeps the order of a sorted sequence. */
  lemma {:induction false} FilterKeepsSorted<T>(s: seq<T>, p: T -> bool, key: T -> (int, int))
    requires SortedBy(s, key)
    ensures SortedBy(Filter(s, p), key)
  {
    if |s| > 0 {
      FilterKeepsSorted(s[1..], p, key);
      var rest := Filter(s[1..], p);
      forall k | 0 <= k < |rest|
        ensures KeyLe(key(s[0]), key(rest[k]))
      {
        var m :| 0 <= m < |s[1..]| && s[1..][m] == rest[k];
        assert s[m + 1] == rest[k];
      }
    }
  }

  /** `flatMap` over an already mapped sequence: the concatenation of the parts in order. */
  function Flatten<T>(ss: seq<seq<T>>): seq<T> {
    if |ss| == 0 then [] else ss[0] + Flatten(ss[1..])
  }

  lemma {:induction false} FlattenAppend<T>(ss: seq<seq<T>>, x: seq<T>)
    ensures Flatten(ss + [x]) == Flatten(ss) + x
  {
    if |ss| > 0 {
      assert (ss + [x])[1..] == ss[1..] + [x];
      FlattenAppend(ss[1..], x);
    } else {
      assert ss + [x] == [x];
    }
  }

  /** A non-empty set has an element (the witness for picking one in set iteration order). */
  lemma SomeElement<T>(s: set<T>) returns (x: T)
    requires s != {}
    ensures x in s
  {
    if forall y :: y !in s {
      assert false;
    }
    x :| x in s;
  }
}
