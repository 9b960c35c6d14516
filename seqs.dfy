/** Facts about sequences that the array pipelines of the client and the
    server rely on: keeping the relative order of elements, and removing
    duplicates while keeping first occurrences (`[...new Set(xs)]`). */
module Seqs {

  /** `a` is `b` with some elements left out, the rest in the same order. */
  predicate IsSubsequence<T(==)>(a: seq<T>, b: seq<T>)
    decreases |b|
  {
    a == [] ||
    (b != [] &&
      ((a[|a| - 1] == b[|b| - 1] && IsSubsequence(a[..|a| - 1], b[..|b| - 1])) ||
       IsSubsequence(a, b[..|b| - 1])))
  }

  /** The multiset of a non-empty sequence splits off its last element. */
  lemma MultisetSnoc<T>(s: seq<T>)
    requires s != []
    ensures multiset(s) == multiset(s[..|s| - 1]) + multiset{s[|s| - 1]}
  {
    assert s == s[..|s| - 1] + [s[|s| - 1]];
  }

  /** One step of a filter's count: `kept` is `before` with the last element
      of `s` appended when it is kept, and `before` counts `x` in the rest
      of `s`. */
  lemma FilterCountStep<T>(s: seq<T>, before: seq<T>, kept: seq<T>, keepLast: bool, keepX: bool, x: T)
    requires s != []
    requires kept == before + (if keepLast then [s[|s| - 1]] else [])
    requires multiset(before)[x] == if keepX then multiset(s[..|s| - 1])[x] else 0
    requires x == s[|s| - 1] ==> keepLast == keepX
    ensures multiset(kept)[x] == if keepX then multiset(s)[x] else 0
  {
    MultisetSnoc(s);
  }

  lemma {:induction false} SubsequenceOfItself<T>(s: seq<T>)
    ensures IsSubsequence(s, s)
  {
    if s != [] {
      SubsequenceOfItself(s[..|s| - 1]);
    }
  }

  lemma {:induction false} PrefixIsSubsequence<T>(s: seq<T>, n: nat)
    requires n <= |s|
    ensures IsSubsequence(s[..n], s)
    decreases |s|
  {
    if n == |s| {
      assert s[..n] == s;
      SubsequenceOfItself(s);
    } else {
      PrefixIsSubsequence(s[..|s| - 1], n);
      assert s[..|s| - 1][..n] == s[..n];
    }
  }

  lemma {:induction false} SubsequenceTransitive<T>(a: seq<T>, b: seq<T>, c: seq<T>)
    requires IsSubsequence(a, b) && IsSubsequence(b, c)
    ensures IsSubsequence(a, c)
    decreases |c|
  {
    if a != [] {
      assert c != [];
      if b[|b| - 1] == c[|c| - 1] && IsSubsequence(b[..|b| - 1], c[..|c| - 1]) {
        if a[|a| - 1] == b[|b| - 1] && IsSubsequence(a[..|a| - 1], b[..|b| - 1]) {
          SubsequenceTransitive(a[..|a| - 1], b[..|b| - 1], c[..|c| - 1]);
        } else {
          SubsequenceTransitive(a, b[..|b| - 1], c[..|c| - 1]);
        }
      } else {
        SubsequenceTransitive(a, b, c[..|c| - 1]);
      }
    }
  }

  lemma {:induction false} SubsequenceElements<T>(a: seq<T>, b: seq<T>)
    requires IsSubsequence(a, b)
    ensures |a| <= |b|
    ensures forall x :: x in a ==> x in b
    decreases |b|
  {
    if a != [] {
      if a[|a| - 1] == b[|b| - 1] && IsSubsequence(a[..|a| - 1], b[..|b| - 1]) {
        SubsequenceElements(a[..|a| - 1], b[..|b| - 1]);
        assert a == a[..|a| - 1] + [a[|a| - 1]];
        assert b == b[..|b| - 1] + [b[|b| - 1]];
      } else {
        SubsequenceElements(a, b[..|b| - 1]);
        assert b == b[..|b| - 1] + [b[|b| - 1]];
      }
    }
  }

  // ---------------------------------------------------------------------
  // Distinct values in first-occurrence order

  predicate NoDuplicates<T(==)>(s: seq<T>)
  {
    forall i, j :: 0 <= i < j < |s| ==> s[i] != s[j]
  }

  /** The position of the first occurrence of `x` in `s`. */
  function FirstIndex<T(==)>(s: seq<T>, x: T): (i: nat)
    requires x in s
    ensures i < |s| && s[i] == x
    ensures forall k :: 0 <= k < i ==> s[k] != x
  {
    if s[0] == x then 0 else 1 + FirstIndex(s[1..], x)
  }

  /** `[...new Set(s)]`: each value of `s` once, where it first occurs. */
  function Distinct<T(==,!new)>(s: seq<T>): (d: seq<T>)
    ensures forall x :: x in d <==> x in s
    ensures NoDuplicates(d)
  {
    if s == [] then []
    else
      var d := Distinct(s[..|s| - 1]);
      assert forall x :: x in s <==> x in s[..|s| - 1] || x == s[|s| - 1];
      if s[|s| - 1] in d then d else d + [s[|s| - 1]]
  }

  lemma FirstIndexOfPrefix<T>(s: seq<T>, n: nat, x: T)
    requires n <= |s| && x in s[..n]
    ensures FirstIndex(s, x) == FirstIndex(s[..n], x)
  {
    var i, j := FirstIndex(s, x), FirstIndex(s[..n], x);
    assert s[j] == x;
    assert s[..n][i] == x by { assert !(j < i); }
  }

  /** The distinct values come in the order of their first occurrence. */
  lemma {:induction false} DistinctFirstOccurrenceOrder<T(!new)>(s: seq<T>)
    ensures forall i, j :: 0 <= i < j < |Distinct(s)| ==>
              FirstIndex(s, Distinct(s)[i]) < FirstIndex(s, Distinct(s)[j])
  {
    if s != [] {
      var init := s[..|s| - 1];
      var d := Distinct(init);
      DistinctFirstOccurrenceOrder(init);
      forall y | y in d ensures FirstIndex(s, y) == FirstIndex(init, y) {
        FirstIndexOfPrefix(s, |s| - 1, y);
      }
      var x := s[|s| - 1];
      if x !in d {
        assert x !in init;
        assert FirstIndex(s, x) == |s| - 1;
        assert forall i :: 0 <= i < |d| ==> (d + [x])[i] == d[i];
      }
    }
  }

  lemma {:induction false} NoDuplicatesCardinality<T>(s: seq<T>)
    requires NoDuplicates(s)
    ensures |set x | x in s| == |s|
  {
    if s != [] {
      var init := s[..|s| - 1];
      NoDuplicatesCardinality(init);
      var last := s[|s| - 1];
      assert (set x | x in s) == (set x | x in init) + {last};
      assert last !in init;
    }
  }

  /** As many distinct values as the input has different values. */
  lemma DistinctLength<T(!new)>(s: seq<T>)
    ensures |Distinct(s)| == |set x | x in s|
  {
    NoDuplicatesCardinality(Distinct(s));
    assert (set x | x in Distinct(s)) == (set x | x in s);
  }
}
