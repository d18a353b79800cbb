/**
  lodash `orderBy(s, key, 'desc')`: a STABLE sort by a numeric key in
  non-increasing order. Modelled as a functional insertion sort; stability is
  stated per key: the elements sharing any one key keep their relative order.
*/
module OrderBy {
  import opened Lodash

  /** Keys never increase from left to right. */
  predicate SortedDesc<T>(s: seq<T>, key: T -> int)
  {
    forall i, j :: 0 <= i < j < |s| ==> key(s[i]) >= key(s[j])
  }

  /** `a` is an initial segment of `b`. */
  predicate IsPrefix<T(==)>(a: seq<T>, b: seq<T>)
  {
    |a| <= |b| && b[..|a|] == a
  }

  /** The elements whose key is `k`, in their order in `s`. */
  function WithKey<T>(s: seq<T>, key: T -> int, k: int): seq<T>
    decreases |s|
  {
    if |s| == 0 then []
    else (if key(s[0]) == k then [s[0]] else []) + WithKey(s[1..], key, k)
  }

  lemma {:induction false} WithKeyAppend<T>(a: seq<T>, b: seq<T>, key: T -> int, k: int)
    ensures WithKey(a + b, key, k) == WithKey(a, key, k) + WithKey(b, key, k)
    decreases |a|
  {
    if |a| == 0 {
      assert a + b == b;
    } else {
      var head := if key(a[0]) == k then [a[0]] else [];
      assert (a + b)[0] == a[0];
      assert (a + b)[1..] == a[1..] + b;
      assert WithKey(a + b, key, k) == head + WithKey(a[1..] + b, key, k);
      WithKeyAppend(a[1..], b, key, k);
      assert head + (WithKey(a[1..], key, k) + WithKey(b, key, k))
          == (head + WithKey(a[1..], key, k)) + WithKey(b, key, k);
    }
  }

  /**
    Puts `x` in front of the first element whose key is not greater than its
    own, so that `x` precedes every element of equal key.
  */
  function Insert<T>(x: T, s: seq<T>, key: T -> int): seq<T>
    decreases |s|
  {
    if |s| == 0 || key(x) >= key(s[0]) then [x] + s
    else [s[0]] + Insert(x, s[1..], key)
  }

  /** Inserting adds `x` and nothing else. */
  lemma {:induction false} InsertPermutes<T>(x: T, s: seq<T>, key: T -> int)
    ensures multiset(Insert(x, s, key)) == multiset(s) + multiset{x}
    decreases |s|
  {
    if |s| > 0 && key(x) < key(s[0]) {
      InsertPermutes(x, s[1..], key);
      assert s == [s[0]] + s[1..];
    }
  }

  /** Inserting into a sorted list keeps it sorted. */
  lemma {:induction false} InsertSorted<T>(x: T, s: seq<T>, key: T -> int)
    requires SortedDesc(s, key)
    ensures SortedDesc(Insert(x, s, key), key)
    decreases |s|
  {
    if |s| == 0 || key(x) >= key(s[0]) {
      assert forall j :: 0 < j < |s| + 1 ==> ([x] + s)[j] == s[j - 1];
    } else {
      var tail := s[1..];
      var rest := Insert(x, tail, key);
      assert SortedDesc(tail, key);
      InsertSorted(x, tail, key);
      InsertPermutes(x, tail, key);
      forall i | 0 <= i < |rest|
        ensures key(s[0]) >= key(rest[i])
      {
        assert rest[i] in multiset(rest);
        if rest[i] != x {
          assert rest[i] in multiset(tail);
          var j :| 0 <= j < |tail| && tail[j] == rest[i];
          assert s[j + 1] == rest[i];
        }
      }
      var r := [s[0]] + rest;
      assert forall j :: 0 < j < |r| ==> r[j] == rest[j - 1];
    }
  }

  /** Inserting `x` disturbs no key's relative order: it is as if `x` stood first. */
  lemma {:induction false} InsertStable<T>(x: T, s: seq<T>, key: T -> int, k: int)
    ensures WithKey(Insert(x, s, key), key, k) == WithKey([x] + s, key, k)
    decreases |s|
  {
    if |s| == 0 || key(x) >= key(s[0]) {
    } else {
      var rest := Insert(x, s[1..], key);
      InsertStable(x, s[1..], key, k);
      assert ([s[0]] + rest)[1..] == rest;
      assert ([x] + s[1..])[1..] == s[1..];
      assert ([x] + s)[1..] == s;
    }
  }

  /** Stable descending sort by `key`. */
  function SortDesc<T>(s: seq<T>, key: T -> int): (r: seq<T>)
    ensures multiset(r) == multiset(s)
    ensures SortedDesc(r, key)
    ensures forall k :: WithKey(r, key, k) == WithKey(s, key, k)
    decreases |s|
  {
    if |s| == 0 then []
    else
      var rest := SortDesc(s[1..], key);
      assert s == [s[0]] + s[1..];
      InsertPermutes(s[0], rest, key);
      InsertSorted(s[0], rest, key);
      assert forall k :: WithKey(Insert(s[0], rest, key), key, k) == WithKey(s, key, k) by {
        forall k ensures WithKey(Insert(s[0], rest, key), key, k) == WithKey(s, key, k) {
          InsertStable(s[0], rest, key, k);
          assert ([s[0]] + rest)[1..] == rest;
        }
      }
      Insert(s[0], rest, key)
  }

  /** Sorting a list with a first element inserts it into the sorted rest. */
  lemma SortCons<T>(x: T, t: seq<T>, key: T -> int)
    ensures SortDesc([x] + t, key) == Insert(x, SortDesc(t, key), key)
  {
    assert ([x] + t)[1..] == t;
  }

  /** One step of the insertion sort. */
  lemma InsertCons<T>(x: T, y: T, t: seq<T>, key: T -> int)
    ensures Insert(x, [y] + t, key) == if key(x) >= key(y) then [x, y] + t else [y] + Insert(x, t, key)
  {
    assert ([y] + t)[1..] == t;
  }

  /** A prefix of a sorted list is sorted and a sub-multiset of it. */
  lemma TakeOfSorted<T>(s: seq<T>, n: nat, key: T -> int)
    requires SortedDesc(s, key)
    ensures SortedDesc(Take(s, n), key)
    ensures multiset(Take(s, n)) <= multiset(s)
  {
    var r := Take(s, n);
    assert s == r + s[|r|..];
  }

  /** Whatever a prefix of a sorted list leaves out ranks no higher than what it keeps. */
  lemma TakeIsTop<T>(s: seq<T>, n: nat, key: T -> int, x: T)
    requires SortedDesc(s, key)
    requires x in s && x !in Take(s, n)
    ensures forall i :: 0 <= i < |Take(s, n)| ==> key(Take(s, n)[i]) >= key(x)
  {
    var r := Take(s, n);
    var tail := s[|r|..];
    assert s == r + tail;
    assert x in tail;
    var t :| 0 <= t < |tail| && tail[t] == x;
    assert s[|r| + t] == x;
  }

  /** Cutting a list short cuts each key's sub-list short. */
  lemma WithKeyOfTake<T>(s: seq<T>, n: nat, key: T -> int, k: int)
    ensures IsPrefix(WithKey(Take(s, n), key, k), WithKey(s, key, k))
  {
    var r := Take(s, n);
    assert s == r + s[|r|..];
    WithKeyAppend(r, s[|r|..], key, k);
  }
}
