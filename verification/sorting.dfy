/**
 * An insertion sort on sequences under a caller-supplied "may stay in
 * front of" relation, which orders the list as `Array.prototype.sort`
 * with a comparator does when the relation is total.
 */
module Sorting {

  /** Each element may stay in front of its successor. */
  predicate SortedBy<T>(s: seq<T>, before: (T, T) -> bool) {
    forall i :: 0 <= i < |s| - 1 ==> before(s[i], s[i + 1])
  }

  /** Any two elements are ordered one way or the other. */
  ghost predicate Total<T(!new)>(before: (T, T) -> bool) {
    forall a, b :: before(a, b) || before(b, a)
  }

  /** Insert `x` in front of the first element it may precede. */
  function Insert<T>(x: T, t: seq<T>, before: (T, T) -> bool): (r: seq<T>)
    ensures multiset(r) == multiset(t) + multiset{x}
    ensures |r| == |t| + 1 && (r[0] == x || (|t| > 0 && r[0] == t[0]))
    decreases |t|
  {
    if |t| == 0 then [x]
    else if before(x, t[0]) then [x] + t
    else
      assert t == [t[0]] + t[1..];
      [t[0]] + Insert(x, t[1..], before)
  }

  /** Sort by inserting each element into the sorted rest. */
  function Sort<T>(s: seq<T>, before: (T, T) -> bool): (r: seq<T>)
    ensures multiset(r) == multiset(s)
    ensures |r| == |s|
    decreases |s|
  {
    if |s| == 0 then []
    else
      assert s == [s[0]] + s[1..];
      Insert(s[0], Sort(s[1..], before), before)
  }

  lemma SortedTail<T>(t: seq<T>, before: (T, T) -> bool)
    requires |t| > 0 && SortedBy(t, before)
    ensures SortedBy(t[1..], before)
  {
    var t1 := t[1..];
    forall i | 0 <= i < |t1| - 1 ensures before(t1[i], t1[i + 1]) {
      assert t1[i] == t[i + 1] && t1[i + 1] == t[i + 2];
    }
  }

  lemma SortedCons<T>(h: T, t: seq<T>, before: (T, T) -> bool)
    requires SortedBy(t, before)
    requires |t| > 0 ==> before(h, t[0])
    ensures SortedBy([h] + t, before)
  {
    var r := [h] + t;
    forall i | 0 <= i < |r| - 1 ensures before(r[i], r[i + 1]) {
      if i > 0 {
        assert r[i] == t[i - 1] && r[i + 1] == t[i];
      }
    }
  }

  /** Inserting into an ordered list keeps it ordered, for a total relation. */
  lemma {:induction false} InsertSorted<T(!new)>(x: T, t: seq<T>, before: (T, T) -> bool)
    requires Total(before) && SortedBy(t, before)
    ensures SortedBy(Insert(x, t, before), before)
    decreases |t|
  {
    if |t| == 0 {
    } else if before(x, t[0]) {
      SortedCons(x, t, before);
    } else {
      assert before(t[0], x);
      SortedTail(t, before);
      InsertSorted(x, t[1..], before);
      var rest := Insert(x, t[1..], before);
      assert before(t[0], rest[0]) by {
        if rest[0] != x {
          assert before(t[0], t[1]);
        }
      }
      SortedCons(t[0], rest, before);
    }
  }

  /** With a total relation the result is ordered. */
  lemma {:induction false} SortSorted<T(!new)>(s: seq<T>, before: (T, T) -> bool)
    requires Total(before)
    ensures SortedBy(Sort(s, before), before)
    decreases |s|
  {
    if |s| > 0 {
      SortSorted(s[1..], before);
      InsertSorted(s[0], Sort(s[1..], before), before);
    }
  }

  /** The sorted list holds exactly the input's elements. */
  lemma SortMembers<T>(s: seq<T>, before: (T, T) -> bool)
    ensures forall y :: y in Sort(s, before) <==> y in s
  {
    var r := Sort(s, before);
    forall y ensures y in r <==> y in s {
      assert y in r <==> y in multiset(r);
      assert y in s <==> y in multiset(s);
    }
  }

  /** No two elements share a key. */
  predicate DistinctBy<T, K(==)>(s: seq<T>, key: T -> K) {
    forall i, j :: 0 <= i < j < |s| ==> key(s[i]) != key(s[j])
  }

  lemma DistinctByTail<T, K>(s: seq<T>, key: T -> K)
    requires |s| > 0 && DistinctBy(s, key)
    ensures DistinctBy(s[1..], key)
    ensures forall y :: y in s[1..] ==> key(y) != key(s[0])
  {
    var t := s[1..];
    forall i, j | 0 <= i < j < |t| ensures key(t[i]) != key(t[j]) {
      assert t[i] == s[i + 1] && t[j] == s[j + 1];
    }
    forall y | y in t ensures key(y) != key(s[0]) {
      var k :| 0 <= k < |t| && t[k] == y;
      assert t[k] == s[k + 1];
    }
  }

  lemma DistinctByCons<T, K>(h: T, t: seq<T>, key: T -> K)
    requires DistinctBy(t, key)
    requires forall y :: y in t ==> key(y) != key(h)
    ensures DistinctBy([h] + t, key)
  {
    var r := [h] + t;
    forall i, j | 0 <= i < j < |r| ensures key(r[i]) != key(r[j]) {
      assert r[j] == t[j - 1];
      if i > 0 {
        assert r[i] == t[i - 1];
      }
    }
  }

  lemma {:induction false} InsertDistinct<T, K>(x: T, t: seq<T>, before: (T, T) -> bool, key: T -> K)
    requires DistinctBy(t, key)
    requires forall y :: y in t ==> key(y) != key(x)
    ensures DistinctBy(Insert(x, t, before), key)
    decreases |t|
  {
    if |t| == 0 {
    } else if before(x, t[0]) {
      DistinctByCons(x, t, key);
    } else {
      DistinctByTail(t, key);
      InsertDistinct(x, t[1..], before, key);
      var rest := Insert(x, t[1..], before);
      forall y | y in rest ensures key(y) != key(t[0]) {
        assert y in multiset(rest);
      }
      DistinctByCons(t[0], rest, key);
    }
  }

  /** Sorting keeps keys distinct. */
  lemma {:induction false} SortDistinct<T, K>(s: seq<T>, before: (T, T) -> bool, key: T -> K)
    requires DistinctBy(s, key)
    ensures DistinctBy(Sort(s, before), key)
    decreases |s|
  {
    if |s| > 0 {
      DistinctByTail(s, key);
      SortDistinct(s[1..], before, key);
      var st := Sort(s[1..], before);
      forall y | y in st ensures key(y) != key(s[0]) {
        assert y in multiset(st);
        assert y in multiset(s[1..]);
      }
      InsertDistinct(s[0], st, before, key);
    }
  }
}
