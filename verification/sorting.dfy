/**
 * Python's `sorted(xs, key=key, reverse=True)`: a stable sort by non-increasing key.
 * Elements with equal keys keep their original relative order, which is the only
 * tie-break the program has.
 */
module Sorting {
  import Seqs

  /** Keys never increase from left to right: each key is at least the next one. */
  ghost predicate SortedDesc<T>(s: seq<T>, key: T -> int) {
    |s| <= 1 || (key(s[0]) >= key(s[1]) && SortedDesc(s[1..], key))
  }

  /** In a sorted list every key is at least every key after it. */
  lemma {:induction false} SortedPairwise<T>(s: seq<T>, key: T -> int)
    requires SortedDesc(s, key)
    ensures forall i, j :: 0 <= i < j < |s| ==> key(s[i]) >= key(s[j])
  {
    if |s| > 1 {
      SortedPairwise(s[1..], key);
      forall i, j | 0 <= i < j < |s| ensures key(s[i]) >= key(s[j]) {
        assert s[j] == s[1..][j - 1];
        if i > 0 {
          assert s[i] == s[1..][i - 1];
        } else if j > 1 {
          assert key(s[1]) >= key(s[j]) by { assert s[1] == s[1..][0]; }
        }
      }
    }
  }

  /** The test "this element has key `k`". */
  function KeyEq<T>(key: T -> int, k: int): T -> bool {
    x => key(x) == k
  }

  /** The elements of `s` whose key is `k`, in order. */
  function WithKey<T>(s: seq<T>, key: T -> int, k: int): seq<T> {
    Seqs.Filter(s, KeyEq(key, k))
  }

  /** Puts `x` in front of the first element whose key is not larger than its own. */
  function Insert<T>(x: T, s: seq<T>, key: T -> int): (r: seq<T>)
    ensures |r| == |s| + 1
    ensures multiset(r) == multiset(s) + multiset{x}
  {
    if |s| == 0 then [x]
    else if key(s[0]) <= key(x) then
      [x] + s
    else
      var t := Insert(x, s[1..], key);
      assert s == [s[0]] + s[1..];
      [s[0]] + t
  }

  /** Inserting into a sorted list keeps it sorted; the new head is `x` or the old head. */
  lemma {:induction false} InsertSorted<T>(x: T, s: seq<T>, key: T -> int)
    requires SortedDesc(s, key)
    ensures SortedDesc(Insert(x, s, key), key)
    ensures Insert(x, s, key)[0] == x || (|s| > 0 && Insert(x, s, key)[0] == s[0])
  {
    if |s| > 0 && key(s[0]) > key(x) {
      var t := Insert(x, s[1..], key);
      InsertSorted(x, s[1..], key);
      assert Insert(x, s, key) == [s[0]] + t;
      assert ([s[0]] + t)[1..] == t;
      if |s| > 1 {
        assert s[1..][0] == s[1];
      }
    } else if |s| > 0 {
      assert ([x] + s)[1..] == s;
    }
  }

  /** Insertion sort, taking the elements front to back. */
  function SortDesc<T>(s: seq<T>, key: T -> int): (r: seq<T>)
    ensures |r| == |s|
    ensures multiset(r) == multiset(s)
    ensures SortedDesc(r, key)
  {
    if |s| == 0 then []
    else
      assert s == [s[0]] + s[1..];
      var t := SortDesc(s[1..], key);
      InsertSorted(s[0], t, key);
      Insert(s[0], t, key)
  }

  /** Insertion puts `x` first among the elements that share its key. */
  lemma {:induction false} InsertWithKey<T>(x: T, s: seq<T>, key: T -> int, k: int)
    ensures WithKey(Insert(x, s, key), key, k)
         == (if key(x) == k then [x] else []) + WithKey(s, key, k)
  {
    if |s| == 0 {
      Seqs.FilterCons(x, s, KeyEq(key, k));
    } else if key(s[0]) <= key(x) {
      assert Insert(x, s, key) == [x] + s;
      Seqs.FilterCons(x, s, KeyEq(key, k));
    } else {
      InsertWithKey(x, s[1..], key, k);
      InsertPast(x, s, key);
      assert s == [s[0]] + s[1..];
      WithKeyPastHead(x, s[0], Insert(x, s[1..], key), s[1..], key, k);
    }
  }

  /** When the head outranks `x`, insertion keeps the head and inserts into the rest. */
  lemma InsertPast<T>(x: T, s: seq<T>, key: T -> int)
    requires |s| > 0 && key(s[0]) > key(x)
    ensures Insert(x, s, key) == [s[0]] + Insert(x, s[1..], key)
  {
  }

  /**
   * If `t` lists `x` (when it has key `k`) ahead of the key-`k` elements of `u`, then so
   * does `[y] + t` ahead of those of `[y] + u`, for a head `y` that outranks `x`.
   */
  lemma WithKeyPastHead<T>(x: T, y: T, t: seq<T>, u: seq<T>, key: T -> int, k: int)
    requires key(y) > key(x)
    requires WithKey(t, key, k) == (if key(x) == k then [x] else []) + WithKey(u, key, k)
    ensures WithKey([y] + t, key, k) == (if key(x) == k then [x] else []) + WithKey([y] + u, key, k)
  {
    var p := KeyEq(key, k);
    Seqs.FilterCons(y, t, p);
    Seqs.FilterCons(y, u, p);
    SwapPastEmpty(if p(y) then [y] else [], if key(x) == k then [x] else [], WithKey(u, key, k));
  }

  /** Two prefixes of which one is empty can be swapped. */
  lemma SwapPastEmpty<T>(a: seq<T>, b: seq<T>, rest: seq<T>)
    requires a == [] || b == []
    ensures a + (b + rest) == b + (a + rest)
  {
    if a == [] {
      assert a + (b + rest) == b + rest;
    } else {
      assert b + (a + rest) == a + rest;
    }
  }

  /** The sort is stable: for every key, the elements with that key keep their order. */
  lemma {:induction false} SortStable<T>(s: seq<T>, key: T -> int, k: int)
    ensures WithKey(SortDesc(s, key), key, k) == WithKey(s, key, k)
  {
    if |s| > 0 {
      SortStable(s[1..], key, k);
      InsertWithKey(s[0], SortDesc(s[1..], key), key, k);
    }
  }

  /** A list that is already in order comes back unchanged. */
  lemma {:induction false} SortSorted<T>(s: seq<T>, key: T -> int)
    requires SortedDesc(s, key)
    ensures SortDesc(s, key) == s
  {
    if |s| > 0 {
      SortSorted(s[1..], key);
      assert SortDesc(s, key) == Insert(s[0], s[1..], key);
      if |s| > 1 {
        assert key(s[1..][0]) <= key(s[0]);
      }
      assert s == [s[0]] + s[1..];
    }
  }

  /** Sorting twice is sorting once. */
  lemma SortIdempotent<T>(s: seq<T>, key: T -> int)
    ensures SortDesc(SortDesc(s, key), key) == SortDesc(s, key)
  {
    SortSorted(SortDesc(s, key), key);
  }
}
