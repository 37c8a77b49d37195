/** Facts about sequences shared by the debouncer and the registry. */
module Sequences {

  predicate Distinct<T(==)>(s: seq<T>) {
    forall i, j :: 0 <= i < j < |s| ==> s[i] != s[j]
  }

  /** `a` is `b` with some elements left out, the rest in the same order. */
  predicate IsSubsequence<T(==)>(a: seq<T>, b: seq<T>)
  {
    if a == [] then true
    else if b == [] then false
    else if a[0] == b[0] then IsSubsequence(a[1..], b[1..])
    else IsSubsequence(a, b[1..])
  }

  /** Putting an element in front of the longer sequence keeps a subsequence one. */
  lemma {:induction false} SubsequenceExtendLeft<T>(a: seq<T>, c: seq<T>, x: T)
    requires IsSubsequence(a, c)
    ensures IsSubsequence(a, [x] + c)
    decreases |c|, 1
  {
    assert ([x] + c)[1..] == c;
    if a != [] && a[0] == x {
      SubsequenceDropHead(a, c);
    }
  }

  /** Leaving out the first element of the shorter sequence keeps a subsequence one. */
  lemma {:induction false} SubsequenceDropHead<T>(a: seq<T>, c: seq<T>)
    requires a != [] && IsSubsequence(a, c)
    ensures IsSubsequence(a[1..], c)
    decreases |c|, 0
  {
    if a[0] == c[0] {
      SubsequenceExtendLeft(a[1..], c[1..], c[0]);
      assert [c[0]] + c[1..] == c;
    } else {
      SubsequenceDropHead(a, c[1..]);
      SubsequenceExtendLeft(a[1..], c[1..], c[0]);
      assert [c[0]] + c[1..] == c;
    }
  }

  lemma {:induction false} SubsequenceExtendRight<T>(a: seq<T>, b: seq<T>, x: T)
    requires IsSubsequence(a, b)
    ensures IsSubsequence(a, b + [x])
    decreases |b|
  {
    if a != [] {
      assert (b + [x])[1..] == b[1..] + [x];
      if a[0] == b[0] {
        SubsequenceExtendRight(a[1..], b[1..], x);
      } else {
        SubsequenceExtendRight(a, b[1..], x);
      }
    }
  }

  lemma {:induction false} SubsequenceExtendBoth<T>(a: seq<T>, b: seq<T>, x: T)
    requires IsSubsequence(a, b)
    ensures IsSubsequence(a + [x], b + [x])
    decreases |b|
  {
    if a == [] {
      if b != [] && b[0] != x {
        assert (b + [x])[1..] == b[1..] + [x];
        SubsequenceExtendBoth(a, b[1..], x);
        assert a + [x] == [x];
      }
    } else {
      assert (b + [x])[1..] == b[1..] + [x];
      assert (a + [x])[1..] == a[1..] + [x];
      if a[0] == b[0] {
        SubsequenceExtendBoth(a[1..], b[1..], x);
      } else {
        SubsequenceExtendBoth(a, b[1..], x);
      }
    }
  }

  lemma {:induction false} SubsequenceTransitive<T>(a: seq<T>, b: seq<T>, c: seq<T>)
    requires IsSubsequence(a, b) && IsSubsequence(b, c)
    ensures IsSubsequence(a, c)
    decreases |c|
  {
    if a != [] {
      if b[0] == c[0] {
        if a[0] == b[0] {
          SubsequenceTransitive(a[1..], b[1..], c[1..]);
        } else {
          SubsequenceTransitive(a, b[1..], c[1..]);
        }
      } else {
        SubsequenceTransitive(a, b, c[1..]);
        SubsequenceExtendLeft(a, c[1..], c[0]);
        assert [c[0]] + c[1..] == c;
      }
    }
  }

  lemma {:induction false} SubsequenceReflexive<T>(a: seq<T>)
    ensures IsSubsequence(a, a)
    decreases |a|
  {
    if a != [] {
      SubsequenceReflexive(a[1..]);
    }
  }
}
