/** Stable ordering by an integer priority, lowest first.
    Service providers (by the priority of their Init step) and event
    listeners (by the priority they were registered with) are both ordered
    this way: ascending priority, and on equal priority the element that
    came first stays first. */
module Ordering {

  /** `s` is ascending in `key`. */
  ghost predicate SortedBy<T>(s: seq<T>, key: T -> int) {
    forall i, j :: 0 <= i < j < |s| ==> key(s[i]) <= key(s[j])
  }

  /** The elements of `s` whose key is `p`, in their order in `s`. */
  function WithKey<T>(s: seq<T>, key: T -> int, p: int): (r: seq<T>)
    ensures |r| <= |s|
  {
    if s == [] then []
    else (if key(s[0]) == p then [s[0]] else []) + WithKey(s[1..], key, p)
  }

  /** Inserts `x` after every element whose key is at most `key(x)`. */
  function Insert<T>(x: T, s: seq<T>, key: T -> int): (r: seq<T>)
    ensures |r| == |s| + 1
  {
    if s == [] then [x]
    else if key(x) < key(s[0]) then [x] + s
    else [s[0]] + Insert(x, s[1..], key)
  }

  /** Insertion sort: the last element is inserted into the sorted rest. */
  function SortBy<T>(s: seq<T>, key: T -> int): (r: seq<T>)
    ensures |r| == |s|
  {
    if s == [] then [] else Insert(s[|s| - 1], SortBy(s[..|s| - 1], key), key)
  }

  lemma {:induction false} InsertPermutes<T>(x: T, s: seq<T>, key: T -> int)
    ensures multiset(Insert(x, s, key)) == multiset(s) + multiset{x}
    ensures |Insert(x, s, key)| == |s| + 1
  {
    if s != [] && key(x) >= key(s[0]) {
      InsertPermutes(x, s[1..], key);
      assert s == [s[0]] + s[1..];
    }
  }

  lemma {:induction false} InsertSorted<T>(x: T, s: seq<T>, key: T -> int)
    requires SortedBy(s, key)
    ensures SortedBy(Insert(x, s, key), key)
  {
    if s != [] && key(x) >= key(s[0]) {
      InsertSorted(x, s[1..], key);
      InsertPermutes(x, s[1..], key);
      var t := Insert(x, s[1..], key);
      forall k | 0 <= k < |t| ensures key(s[0]) <= key(t[k]) {
        assert t[k] in multiset(t);
        assert t[k] == x || t[k] in multiset(s[1..]);
      }
    }
  }

  /** The sorted order is a permutation of the input. */
  lemma {:induction false} SortPermutes<T>(s: seq<T>, key: T -> int)
    ensures multiset(SortBy(s, key)) == multiset(s)
    ensures |SortBy(s, key)| == |s|
  {
    if s != [] {
      var init := s[..|s| - 1];
      SortPermutes(init, key);
      InsertPermutes(s[|s| - 1], SortBy(init, key), key);
      assert s == init + [s[|s| - 1]];
    }
  }

  /** The sorted order is ascending in priority. */
  lemma {:induction false} SortSorted<T>(s: seq<T>, key: T -> int)
    ensures SortedBy(SortBy(s, key), key)
  {
    if s != [] {
      SortSorted(s[..|s| - 1], key);
      InsertSorted(s[|s| - 1], SortBy(s[..|s| - 1], key), key);
    }
  }

  lemma {:induction false} WithKeyAppend<T>(a: seq<T>, b: seq<T>, key: T -> int, p: int)
    ensures WithKey(a + b, key, p) == WithKey(a, key, p) + WithKey(b, key, p)
  {
    if a != [] {
      WithKeyAppend(a[1..], b, key, p);
      assert (a + b)[1..] == a[1..] + b;
    } else {
      assert a + b == b;
    }
  }

  lemma {:induction false} WithKeyAbove<T>(s: seq<T>, key: T -> int, p: int)
    requires forall i :: 0 <= i < |s| ==> p < key(s[i])
    ensures WithKey(s, key, p) == []
  {
    if s != [] {
      WithKeyAbove(s[1..], key, p);
    }
  }

  lemma WithKeyCons<T>(y: T, t: seq<T>, key: T -> int, p: int)
    ensures WithKey([y] + t, key, p) == (if key(y) == p then [y] else []) + WithKey(t, key, p)
  {
    assert ([y] + t)[0] == y && ([y] + t)[1..] == t;
  }

  /** Inserting into a sorted sequence puts `x` behind every element of
      the same priority, and moves no other element of that priority. */
  lemma {:induction false} InsertKeepsTies<T>(x: T, s: seq<T>, key: T -> int, p: int)
    requires SortedBy(s, key)
    ensures WithKey(Insert(x, s, key), key, p)
         == WithKey(s, key, p) + (if key(x) == p then [x] else [])
  {
    if s == [] {
      WithKeyCons(x, [], key, p);
    } else if key(x) < key(s[0]) {
      WithKeyCons(x, s, key, p);
      if key(x) == p {
        WithKeyAbove(s, key, p);
      }
    } else {
      var t := Insert(x, s[1..], key);
      InsertKeepsTies(x, s[1..], key, p);
      WithKeyCons(s[0], t, key, p);
      WithKeyCons(s[0], s[1..], key, p);
      assert s == [s[0]] + s[1..];
    }
  }

  /** Stability: elements of equal priority keep their original order. */
  lemma {:induction false} SortStable<T>(s: seq<T>, key: T -> int, p: int)
    ensures WithKey(SortBy(s, key), key, p) == WithKey(s, key, p)
  {
    if s != [] {
      var init, last := s[..|s| - 1], s[|s| - 1];
      SortStable(init, key, p);
      SortSorted(init, key);
      InsertKeepsTies(last, SortBy(init, key), key, p);
      WithKeyAppend(init, [last], key, p);
      assert s == init + [last];
    }
  }
}
