/**
  The collection helpers the artist store borrows from lodash, modelled by
  their documented semantics. Elements are compared by identity (lodash's
  SameValueZero on object references), which for the reference handles of
  this model is plain `==`.

  `Distinct` scans left to right with the set of elements already seen, as
  lodash's `baseUniq` does.
*/
module Lodash {

  /** No element occurs twice. */
  predicate NoDup<T(==,!new)>(s: seq<T>)
  {
    forall i, j :: 0 <= i < j < |s| ==> s[i] != s[j]
  }

  /** `r` is `a` with some elements deleted: what is kept keeps its order. */
  predicate IsSubsequence<T(==)>(r: seq<T>, a: seq<T>)
    decreases |a|
  {
    if |r| == 0 then true
    else |a| > 0 && ((r[0] == a[0] && IsSubsequence(r[1..], a[1..])) || IsSubsequence(r, a[1..]))
  }

  /** The elements of a sequence, as a set. */
  function Elements<T(==,!new)>(s: seq<T>): set<T>
  {
    set x | x in s
  }

  /** The first occurrence of every element of `s` not in `seen`, in order. */
  function DistinctFrom<T(==,!new)>(s: seq<T>, seen: set<T>): (r: seq<T>)
    ensures NoDup(r)
    ensures forall x :: x in r <==> x in s && x !in seen
    ensures |r| <= |s|
    decreases |s|
  {
    if |s| == 0 then []
    else
      assert s == [s[0]] + s[1..];
      if s[0] in seen then DistinctFrom(s[1..], seen)
      else [s[0]] + DistinctFrom(s[1..], seen + {s[0]})
  }

  /** `uniq`: the first occurrence of every element, in order of first occurrence. */
  function Distinct<T(==,!new)>(s: seq<T>): (r: seq<T>)
    ensures NoDup(r)
    ensures forall x :: x in r <==> x in s
    ensures |r| <= |s|
  {
    DistinctFrom(s, {})
  }

  /** `union(a, b)`: the distinct elements of `a ++ b` in order of first occurrence. */
  function Union<T(==,!new)>(a: seq<T>, b: seq<T>): (r: seq<T>)
    ensures NoDup(r)
    ensures forall x :: x in r <==> x in a || x in b
  {
    Distinct(a + b)
  }

  /** `difference(a, b)`: `a` with every element that occurs in `b` dropped, order kept. */
  function Difference<T(==,!new)>(a: seq<T>, b: seq<T>): (r: seq<T>)
    ensures forall x :: x in r <==> x in a && x !in b
    ensures |r| <= |a|
    ensures NoDup(a) ==> NoDup(r)
    decreases |a|
  {
    if |a| == 0 then []
    else
      assert a == [a[0]] + a[1..];
      assert NoDup(a) ==> NoDup(a[1..]) && a[0] !in a[1..];
      (if a[0] in b then [] else [a[0]]) + Difference(a[1..], b)
  }

  /**
    `difference` is the order-keeping filter: its result is a subsequence of
    `a` in which the elements of `b` occur 0 times and every other element
    as often as in `a`.
  */
  lemma {:induction false} DifferenceFilters<T(!new)>(a: seq<T>, b: seq<T>)
    ensures IsSubsequence(Difference(a, b), a)
    ensures forall x :: multiset(Difference(a, b))[x] == if x in b then 0 else multiset(a)[x]
    decreases |a|
  {
    if |a| > 0 {
      var rest := Difference(a[1..], b);
      var r := Difference(a, b);
      DifferenceFilters(a[1..], b);
      assert r == if a[0] in b then rest else [a[0]] + rest;
      if a[0] !in b {
        assert r[1..] == rest;
      }
      DifferenceStepCount(a, b, rest, r);
    }
  }

  lemma DifferenceStepCount<T(!new)>(a: seq<T>, b: seq<T>, rest: seq<T>, r: seq<T>)
    requires |a| > 0 && r == if a[0] in b then rest else [a[0]] + rest
    requires forall x :: multiset(rest)[x] == if x in b then 0 else multiset(a[1..])[x]
    ensures forall x :: multiset(r)[x] == if x in b then 0 else multiset(a)[x]
  {
    var head := if a[0] in b then [] else [a[0]];
    assert r == head + rest;
    assert a == [a[0]] + a[1..];
    assert multiset(a) == multiset([a[0]]) + multiset(a[1..]);
    assert multiset(r) == multiset(head) + multiset(rest);
    forall x
      ensures multiset(r)[x] == if x in b then 0 else multiset(a)[x]
    {
      assert multiset(a)[x] == multiset([a[0]])[x] + multiset(a[1..])[x];
      assert multiset(r)[x] == multiset(head)[x] + multiset(rest)[x];
    }
  }

  /** `take(s, n)`: the first `n` elements, or all of them when there are fewer. */
  function Take<T>(s: seq<T>, n: nat): seq<T>
  {
    if n < |s| then s[..n] else s
  }

  lemma {:induction false} DistinctFromNoDup<T(!new)>(s: seq<T>, seen: set<T>)
    requires NoDup(s) && forall x :: x in s ==> x !in seen
    ensures DistinctFrom(s, seen) == s
    decreases |s|
  {
    if |s| > 0 {
      assert s == [s[0]] + s[1..];
      assert NoDup(s[1..]);
      DistinctFromNoDup(s[1..], seen + {s[0]});
    }
  }

  /** A duplicate-free sequence is its own `uniq`. */
  lemma DistinctOfNoDup<T(!new)>(s: seq<T>)
    requires NoDup(s)
    ensures Distinct(s) == s
  {
    DistinctFromNoDup(s, {});
  }

  /** Scanning `a ++ b` is scanning `a`, then `b` with `a`'s elements already seen. */
  lemma {:induction false} DistinctFromAppend<T(!new)>(a: seq<T>, b: seq<T>, seen: set<T>)
    ensures DistinctFrom(a + b, seen) == DistinctFrom(a, seen) + DistinctFrom(b, seen + Elements(a))
    decreases |a|
  {
    if |a| == 0 {
      assert a + b == b;
      assert seen + Elements(a) == seen;
    } else {
      assert (a + b)[0] == a[0];
      assert (a + b)[1..] == a[1..] + b;
      assert Elements(a) == {a[0]} + Elements(a[1..]) by {
        assert a == [a[0]] + a[1..];
      }
      if a[0] in seen {
        DistinctFromAppend(a[1..], b, seen);
        assert seen + Elements(a[1..]) == seen + Elements(a);
      } else {
        DistinctFromAppend(a[1..], b, seen + {a[0]});
        assert seen + {a[0]} + Elements(a[1..]) == seen + Elements(a);
      }
    }
  }

  /** Having seen the elements of `a` is the same as dropping them beforehand. */
  lemma {:induction false} DistinctFromDifference<T(!new)>(b: seq<T>, a: seq<T>, seen: set<T>)
    ensures DistinctFrom(b, seen + Elements(a)) == DistinctFrom(Difference(b, a), seen)
    decreases |b|
  {
    if |b| > 0 {
      var rest := Difference(b[1..], a);
      if b[0] in a {
        assert Difference(b, a) == rest;
        DistinctFromDifference(b[1..], a, seen);
      } else {
        assert Difference(b, a) == [b[0]] + rest;
        assert ([b[0]] + rest)[0] == b[0] && ([b[0]] + rest)[1..] == rest;
        if b[0] in seen {
          DistinctFromDifference(b[1..], a, seen);
        } else {
          DistinctFromDifference(b[1..], a, seen + {b[0]});
          assert seen + Elements(a) + {b[0]} == seen + {b[0]} + Elements(a);
        }
      }
    }
  }

  /**
    The distinct elements of `a ++ b` are those of `a`, followed by those of `b`
    that do not already occur in `a`.
  */
  lemma DistinctAppend<T(!new)>(a: seq<T>, b: seq<T>)
    ensures Distinct(a + b) == Distinct(a) + Distinct(Difference(b, a))
  {
    DistinctFromAppend(a, b, {});
    DistinctFromDifference(b, a, {});
    assert {} + Elements(a) == Elements(a);
  }

  /** Difference distributes over concatenation: it drops elements one by one, in place. */
  lemma {:induction false} DifferenceAppend<T(!new)>(a: seq<T>, c: seq<T>, b: seq<T>)
    ensures Difference(a + c, b) == Difference(a, b) + Difference(c, b)
    decreases |a|
  {
    if |a| == 0 {
      assert a + c == c;
    } else {
      assert (a + c)[0] == a[0];
      assert (a + c)[1..] == a[1..] + c;
      var head := if a[0] in b then [] else [a[0]];
      DifferenceAppend(a[1..], c, b);
      assert head + (Difference(a[1..], b) + Difference(c, b))
          == (head + Difference(a[1..], b)) + Difference(c, b);
    }
  }

  /** Nothing is dropped when the two arguments share no element. */
  lemma {:induction false} DifferenceDisjoint<T(!new)>(a: seq<T>, b: seq<T>)
    requires forall x :: x in a ==> x !in b
    ensures Difference(a, b) == a
    decreases |a|
  {
    if |a| > 0 {
      assert a == [a[0]] + a[1..];
      DifferenceDisjoint(a[1..], b);
    }
  }

  /** Everything is dropped when every element of `a` occurs in `b`. */
  lemma {:induction false} DifferenceCovered<T(!new)>(a: seq<T>, b: seq<T>)
    requires forall x :: x in a ==> x in b
    ensures Difference(a, b) == []
    decreases |a|
  {
    if |a| > 0 {
      assert a == [a[0]] + a[1..];
      DifferenceCovered(a[1..], b);
    }
  }

  /**
    When the first argument is already duplicate-free, `union` keeps it as a
    prefix and appends the new elements of the second, each once.
  */
  lemma UnionExtends<T(!new)>(a: seq<T>, b: seq<T>)
    requires NoDup(a)
    ensures Union(a, b) == a + Distinct(Difference(b, a))
  {
    DistinctAppend(a, b);
    DistinctOfNoDup(a);
  }

  /** Removing `b` again after a union with `b` leaves exactly what `difference(a, b)` leaves. */
  lemma DifferenceOfUnion<T(!new)>(a: seq<T>, b: seq<T>)
    requires NoDup(a)
    ensures Difference(Union(a, b), b) == Difference(a, b)
  {
    var added := Distinct(Difference(b, a));
    UnionExtends(a, b);
    DifferenceAppend(a, added, b);
    DifferenceCovered(added, b);
    assert Difference(a, b) + [] == Difference(a, b);
  }

  /** `union` followed by `difference` with the same, disjoint, list is the identity. */
  lemma UnionThenDifference<T(!new)>(a: seq<T>, b: seq<T>)
    requires NoDup(a)
    requires forall x :: x in a ==> x !in b
    ensures Difference(Union(a, b), b) == a
  {
    DifferenceOfUnion(a, b);
    DifferenceDisjoint(a, b);
  }
}
