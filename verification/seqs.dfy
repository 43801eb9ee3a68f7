/** Order-preserving filters, first-appearance de-duplication and counting over sequences. */
module Seqs {

  /** `a` is an order-preserving sub-list of `b` (what `Array.prototype.filter` returns). */
  predicate IsSubsequence<T(==)>(a: seq<T>, b: seq<T>)
    decreases |b|
  {
    if |a| == 0 then true
    else if |b| == 0 then false
    else if a[0] == b[0] then IsSubsequence(a[1..], b[1..])
    else IsSubsequence(a, b[1..])
  }

  /** No element occurs twice. */
  predicate NoDups<T(==)>(s: seq<T>) {
    forall i, j :: 0 <= i < j < |s| ==> s[i] != s[j]
  }

  /** The elements of `s` satisfying `p`, in their original order. */
  function Filter<T(==,!new)>(s: seq<T>, p: T -> bool): (r: seq<T>)
    ensures |r| <= |s|
    ensures forall x :: x in r <==> x in s && p(x)
    ensures IsSubsequence(r, s)
  {
    if |s| == 0 then []
    else if p(s[0]) then [s[0]] + Filter(s[1..], p)
    else Filter(s[1..], p)
  }

  /** Every sequence is a sub-list of itself. */
  lemma {:induction false} SubsequenceRefl<T>(s: seq<T>)
    ensures IsSubsequence(s, s)
    decreases |s|
  {
    if |s| > 0 {
      SubsequenceRefl(s[1..]);
    }
  }

  /** Filtering with a predicate every element satisfies returns the input. */
  lemma {:induction false} FilterAll<T(!new)>(s: seq<T>, p: T -> bool)
    requires forall i :: 0 <= i < |s| ==> p(s[i])
    ensures Filter(s, p) == s
    decreases |s|
  {
    if |s| > 0 {
      FilterAll(s[1..], p);
    }
  }

  /** Filtering distributes over concatenation. */
  lemma {:induction false} FilterAppend<T(!new)>(a: seq<T>, b: seq<T>, p: T -> bool)
    ensures Filter(a + b, p) == Filter(a, p) + Filter(b, p)
    decreases |a|
  {
    if |a| == 0 {
      assert a + b == b;
    } else {
      assert (a + b)[1..] == a[1..] + b;
      FilterAppend(a[1..], b, p);
    }
  }

  /**
   * The distinct elements of `s` in order of first appearance: what
   * `Array.from(new Set(s))` and the key order of a JavaScript `Map` built
   * by iterating `s` produce.
   */
  function Dedup<T(==,!new)>(s: seq<T>): (r: seq<T>)
    ensures NoDups(r)
    ensures |r| <= |s|
    ensures forall x :: x in r <==> x in s
    decreases |s|
  {
    if |s| == 0 then []
    else
      var prev := Dedup(s[..|s| - 1]);
      assert forall x :: x in s <==> x in s[..|s| - 1] || x == s[|s| - 1];
      if s[|s| - 1] in prev then prev else prev + [s[|s| - 1]]
  }

  /** The tail of a duplicate-free sequence is duplicate-free and does not contain the head. */
  lemma NoDupsTail<T>(s: seq<T>)
    requires |s| > 0 && NoDups(s)
    ensures NoDups(s[1..]) && s[0] !in s[1..]
  {
    var t := s[1..];
    forall i, j | 0 <= i < j < |t| ensures t[i] != t[j] {
      assert t[i] == s[i + 1] && t[j] == s[j + 1];
    }
    forall i | 0 <= i < |t| ensures t[i] != s[0] {
      assert t[i] == s[i + 1];
    }
  }

  /** The set of the elements of `s`. */
  function Elements<T>(s: seq<T>): set<T> {
    set x | x in s
  }

  /** A duplicate-free sequence has as many elements as its set. */
  lemma {:induction false} NoDupsCardinality<T>(s: seq<T>)
    requires NoDups(s)
    ensures |Elements(s)| == |s|
    decreases |s|
  {
    if |s| > 0 {
      var t := s[1..];
      assert NoDups(t) by {
        forall i, j | 0 <= i < j < |t| ensures t[i] != t[j] {
          assert t[i] == s[i + 1] && t[j] == s[j + 1];
        }
      }
      NoDupsCardinality(t);
      assert s[0] !in t by {
        forall i | 0 <= i < |t| ensures t[i] != s[0] {
          assert t[i] == s[i + 1];
        }
      }
      assert Elements(s) == Elements(t) + {s[0]} by {
        forall x ensures x in s <==> x in t || x == s[0] {
          assert s == [s[0]] + t;
        }
      }
    }
  }

  /** `Dedup` returns exactly as many elements as there are distinct values. */
  lemma DedupCardinality<T(!new)>(s: seq<T>)
    ensures |Dedup(s)| == |Elements(s)|
  {
    var r := Dedup(s);
    NoDupsCardinality(r);
    assert Elements(r) == Elements(s);
  }

  /** How many elements of `s` satisfy `p` (`s.filter(p).length`). */
  function Count<T(==,!new)>(s: seq<T>, p: T -> bool): (n: nat)
    ensures n <= |s|
    ensures n == 0 <==> forall i :: 0 <= i < |s| ==> !p(s[i])
    ensures n == |s| <==> forall i :: 0 <= i < |s| ==> p(s[i])
    decreases |s|
  {
    if |s| == 0 then 0
    else (if p(s[0]) then 1 else 0) + Count(s[1..], p)
  }

  /** Counting over a list with one more element adds one exactly when it qualifies. */
  lemma {:induction false} CountAppend<T(!new)>(s: seq<T>, x: T, p: T -> bool)
    ensures Count(s + [x], p) == Count(s, p) + (if p(x) then 1 else 0)
    decreases |s|
  {
    if |s| == 0 {
      assert s + [x] == [x];
      assert [x][1..] == [];
    } else {
      assert (s + [x])[1..] == s[1..] + [x];
      CountAppend(s[1..], x, p);
    }
  }

  /** Two predicates that agree on every element count alike. */
  lemma {:induction false} CountSame<T(!new)>(s: seq<T>, p: T -> bool, q: T -> bool)
    requires forall i :: 0 <= i < |s| ==> p(s[i]) == q(s[i])
    ensures Count(s, p) == Count(s, q)
    decreases |s|
  {
    if |s| > 0 {
      CountSame(s[1..], p, q);
    }
  }

  /** Replacing one element changes the count by what the old element contributed and the new one contributes. */
  lemma {:induction false} CountUpdate<T(!new)>(s: seq<T>, k: nat, x: T, p: T -> bool)
    requires k < |s|
    ensures Count(s[k := x], p) + (if p(s[k]) then 1 else 0) == Count(s, p) + (if p(x) then 1 else 0)
    decreases |s|
  {
    if k == 0 {
      assert s[k := x][1..] == s[1..];
    } else {
      assert s[k := x][1..] == s[1..][k - 1 := x];
      CountUpdate(s[1..], k - 1, x, p);
    }
  }

  /** The position of the first occurrence of `x` in `s`. */
  function FirstIndex<T(==)>(s: seq<T>, x: T): (i: nat)
    requires x in s
    ensures i < |s| && s[i] == x
    ensures forall k :: 0 <= k < i ==> s[k] != x
    decreases |s|
  {
    if s[0] == x then 0 else 1 + FirstIndex(s[1..], x)
  }

  /** An element of a prefix first appears in the whole sequence where it first appears in the prefix. */
  lemma FirstIndexPrefix<T>(s: seq<T>, n: nat, x: T)
    requires n <= |s| && x in s[..n]
    ensures FirstIndex(s, x) == FirstIndex(s[..n], x)
  {
    var a, b := FirstIndex(s, x), FirstIndex(s[..n], x);
    assert s[b] == x;
    assert a <= b;
    assert s[..n][a] == x;
  }

  /**
   * `Dedup` lists the distinct elements in the order in which they first
   * appear in `s`.
   */
  lemma {:induction false} DedupFirstAppearance<T(!new)>(s: seq<T>)
    ensures forall i, j :: 0 <= i < j < |Dedup(s)| ==> FirstIndex(s, Dedup(s)[i]) < FirstIndex(s, Dedup(s)[j])
    decreases |s|
  {
    if |s| > 0 {
      var n := |s| - 1;
      var p := s[..n];
      var prev := Dedup(p);
      DedupFirstAppearance(p);
      forall x | x in prev ensures FirstIndex(s, x) == FirstIndex(p, x) && FirstIndex(s, x) < n {
        FirstIndexPrefix(s, n, x);
      }
      if s[n] !in prev {
        assert FirstIndex(s, s[n]) == n by {
          forall k | 0 <= k < n ensures s[k] != s[n] {
            assert s[k] == p[k];
          }
        }
        assert Dedup(s) == prev + [s[n]];
      }
    }
  }

  /** A sequence without duplicates is its own de-duplication. */
  lemma {:induction false} DedupNoDups<T(!new)>(s: seq<T>)
    requires NoDups(s)
    ensures Dedup(s) == s
    decreases |s|
  {
    if |s| > 0 {
      var n := |s| - 1;
      var p := s[..n];
      assert NoDups(p) by {
        forall i, j | 0 <= i < j < |p| ensures p[i] != p[j] {
          assert p[i] == s[i] && p[j] == s[j];
        }
      }
      DedupNoDups(p);
      assert s[n] !in p by {
        forall i | 0 <= i < |p| ensures p[i] != s[n] {
          assert p[i] == s[i];
        }
      }
      assert p + [s[n]] == s;
    }
  }
}
