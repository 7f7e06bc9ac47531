/**
 * Python's `sorted(xs, key=k, reverse=True)` on integer keys, and the
 * slice `xs[:n]`.  Python's sort is stable even with `reverse=True`:
 * elements with equal keys keep their original relative order.  Both the
 * largest-face selection and the top-people table rely on that.
 */
module StableSort {

  /** `s` runs from the largest key to the smallest. */
  ghost predicate SortedDesc<T>(s: seq<T>, key: T -> int) {
    forall i, j :: 0 <= i < j < |s| ==> key(s[i]) >= key(s[j])
  }

  /** The elements of `s` whose key is `k`, in their order in `s`. */
  function WithKey<T>(s: seq<T>, key: T -> int, k: int): seq<T> {
    if s == [] then []
    else (if key(s[0]) == k then [s[0]] else []) + WithKey(s[1..], key, k)
  }

  /** Python's `s[:n]` for a non-negative `n`. */
  function Take<T>(s: seq<T>, n: nat): (r: seq<T>)
    ensures |r| == if n < |s| then n else |s|
    ensures forall i :: 0 <= i < |r| ==> r[i] == s[i]
  {
    if n < |s| then s[..n] else s
  }

  /** Puts `x` in front of the first element whose key is not larger than its own. */
  function Insert<T>(x: T, s: seq<T>, key: T -> int): seq<T> {
    if s == [] || key(s[0]) <= key(x) then [x] + s
    else [s[0]] + Insert(x, s[1..], key)
  }

  /** Stable sort by descending key: insertion sort from the back. */
  function SortDesc<T>(s: seq<T>, key: T -> int): seq<T> {
    if s == [] then [] else Insert(s[0], SortDesc(s[1..], key), key)
  }

  /**
   * An independent description of the head of a stable descending sort:
   * the index of the first element whose key is maximal.
   */
  function FirstLargest<T>(s: seq<T>, key: T -> int): (i: nat)
    requires s != []
    ensures i < |s|
    ensures forall j :: 0 <= j < |s| ==> key(s[j]) <= key(s[i])
    ensures forall j :: 0 <= j < i ==> key(s[j]) < key(s[i])
  {
    if |s| == 1 then 0
    else
      var k := FirstLargest(s[1..], key);
      if key(s[0]) >= key(s[1..][k]) then 0 else k + 1
  }

  lemma {:induction false} InsertPermutes<T>(x: T, s: seq<T>, key: T -> int)
    ensures multiset(Insert(x, s, key)) == multiset([x] + s)
    ensures |Insert(x, s, key)| == |s| + 1
  {
    if s == [] || key(s[0]) <= key(x) {
    } else {
      InsertPermutes(x, s[1..], key);
      calc {
        multiset(Insert(x, s, key));
        multiset([s[0]]) + multiset(Insert(x, s[1..], key));
        multiset([s[0]]) + multiset([x] + s[1..]);
        { assert s == [s[0]] + s[1..]; }
        multiset([x] + s);
      }
    }
  }

  lemma {:induction false} InsertSorted<T>(x: T, s: seq<T>, key: T -> int)
    requires SortedDesc(s, key)
    ensures SortedDesc(Insert(x, s, key), key)
  {
    if s == [] || key(s[0]) <= key(x) {
    } else {
      InsertSorted(x, s[1..], key);
      InsertPermutes(x, s[1..], key);
      var t := Insert(x, s[1..], key);
      forall j | 0 < j < |t| + 1
        ensures key(s[0]) >= key(([s[0]] + t)[j])
      {
        assert t[j - 1] in multiset([x] + s[1..]);
        assert t[j - 1] in [x] + s[1..];
      }
    }
  }

  /** Insertion keeps `x` in front of every element of equal key. */
  lemma {:induction false} InsertKeepsTies<T>(x: T, s: seq<T>, key: T -> int, k: int)
    ensures WithKey(Insert(x, s, key), key, k) == WithKey([x] + s, key, k)
  {
    if s == [] || key(s[0]) <= key(x) {
    } else {
      InsertKeepsTies(x, s[1..], key, k);
      var t := Insert(x, s[1..], key);
      assert ([s[0]] + t)[1..] == t;
      assert ([x] + s)[1..] == s;
      assert ([x] + s[1..])[1..] == s[1..];
    }
  }

  lemma {:induction false} SortDescPermutes<T>(s: seq<T>, key: T -> int)
    ensures multiset(SortDesc(s, key)) == multiset(s)
    ensures |SortDesc(s, key)| == |s|
  {
    if s != [] {
      SortDescPermutes(s[1..], key);
      InsertPermutes(s[0], SortDesc(s[1..], key), key);
      assert s == [s[0]] + s[1..];
    }
  }

  lemma {:induction false} SortDescSorted<T>(s: seq<T>, key: T -> int)
    ensures SortedDesc(SortDesc(s, key), key)
  {
    if s != [] {
      SortDescSorted(s[1..], key);
      InsertSorted(s[0], SortDesc(s[1..], key), key);
    }
  }

  /** Stability: among equal keys the sorted order is the original order. */
  lemma {:induction false} SortDescStable<T>(s: seq<T>, key: T -> int, k: int)
    ensures WithKey(SortDesc(s, key), key, k) == WithKey(s, key, k)
  {
    if s != [] {
      SortDescStable(s[1..], key, k);
      InsertKeepsTies(s[0], SortDesc(s[1..], key), key, k);
      assert ([s[0]] + SortDesc(s[1..], key))[1..] == SortDesc(s[1..], key);
    }
  }

  /** The head of the stable descending sort is the first element of largest key. */
  lemma {:induction false} SortDescHead<T>(s: seq<T>, key: T -> int)
    requires s != []
    ensures SortDesc(s, key) != [] && SortDesc(s, key)[0] == s[FirstLargest(s, key)]
  {
    SortDescPermutes(s, key);
    if |s| > 1 {
      SortDescHead(s[1..], key);
    }
  }
}
