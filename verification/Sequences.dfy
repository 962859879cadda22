/** Facts about plain sequences that several parts share. */
module Sequences {
  ghost predicate Distinct<T>(s: seq<T>) {
    forall i, j :: 0 <= i < j < |s| ==> s[i] != s[j]
  }

  lemma DistinctConcat<T>(a: seq<T>, b: seq<T>)
    requires Distinct(a) && Distinct(b)
    requires forall i, j :: 0 <= i < |a| && 0 <= j < |b| ==> a[i] != b[j]
    ensures Distinct(a + b)
  {
  }

  lemma ConcatAssociates<T>(a: seq<T>, b: seq<T>, c: seq<T>)
    ensures a + (b + c) == (a + b) + c
  {
  }

  /** What is left of b when some of its elements are dropped. */
  ghost predicate Subsequence<T>(a: seq<T>, b: seq<T>) {
    a == [] || (b != [] && ((a[0] == b[0] && Subsequence(a[1..], b[1..])) || Subsequence(a, b[1..])))
  }

  lemma {:induction false} SubsequenceAppend<T>(a: seq<T>, b: seq<T>, e: T)
    requires Subsequence(a, b)
    ensures Subsequence(a, b + [e]) && Subsequence(a + [e], b + [e])
    decreases |b|
  {
    if b == [] {
      assert a + [e] == [e] && b + [e] == [e];
      assert [e][1..] == [];
    } else {
      assert (b + [e])[1..] == b[1..] + [e];
      if a == [] {
        SubsequenceAppend(a, b[1..], e);
        assert a + [e] == [e];
      } else if a[0] == b[0] && Subsequence(a[1..], b[1..]) {
        SubsequenceAppend(a[1..], b[1..], e);
        assert (a + [e])[1..] == a[1..] + [e];
      } else {
        SubsequenceAppend(a, b[1..], e);
      }
    }
  }

  /** Taking the next element along or leaving it out. */
  lemma SubsequenceStep<T>(a: seq<T>, b: seq<T>, e: T, take: bool)
    requires Subsequence(a, b)
    ensures Subsequence(a + if take then [e] else [], b + [e])
  {
    SubsequenceAppend(a, b, e);
    assert a + [] == a;
  }
}
