/** itertools.combinations_with_replacement: the non-decreasing index tuples of one
    length, in lexicographic order, one for each multiset of indices. */
module Combinations {
  import opened Sequences

  type Pick = seq<nat>

  function PutFirst(x: nat, picks: seq<Pick>): (r: seq<Pick>)
    ensures |r| == |picks| && forall i :: 0 <= i < |picks| ==> r[i] == [x] + picks[i]
  {
    seq(|picks|, i requires 0 <= i < |picks| => [x] + picks[i])
  }

  /** The tuples of length k over the indices from lo up to n. */
  function WithReplacement(lo: nat, n: nat, k: nat): seq<Pick>
    decreases n - lo + k, n - lo
  {
    if k == 0 then [[]]
    else if lo >= n then []
    else PutFirst(lo, WithReplacement(lo, n, k - 1)) + WithReplacement(lo + 1, n, k)
  }

  ghost predicate Ascending(c: Pick, lo: nat, n: nat) {
    && (forall i :: 0 <= i < |c| ==> lo <= c[i] < n)
    && forall i, j :: 0 <= i < j < |c| ==> c[i] <= c[j]
  }

  lemma InPutFirst(x: nat, picks: seq<Pick>, c: Pick)
    ensures c in PutFirst(x, picks) <==> c != [] && c[0] == x && c[1..] in picks
  {
    if c != [] && c[0] == x && c[1..] in picks {
      var i :| 0 <= i < |picks| && picks[i] == c[1..];
      assert PutFirst(x, picks)[i] == c;
    }
    if c in PutFirst(x, picks) {
      var i :| 0 <= i < |picks| && PutFirst(x, picks)[i] == c;
      assert c[1..] == picks[i];
    }
  }

  lemma AscendingCons(c: Pick, lo: nat, n: nat)
    requires c != []
    ensures Ascending(c, lo, n) <==> lo <= c[0] < n && Ascending(c[1..], c[0], n)
  {
    if lo <= c[0] < n && Ascending(c[1..], c[0], n) {
      forall i, j | 0 <= i < j < |c|
        ensures c[i] <= c[j]
      {
        assert c[j] == c[1..][j - 1];
        if i > 0 { assert c[i] == c[1..][i - 1]; }
      }
      forall i | 0 <= i < |c|
        ensures lo <= c[i] < n
      {
        if i > 0 { assert c[i] == c[1..][i - 1]; }
      }
    }
  }

  /** The same, told from the first index on. */
  predicate Climbs(c: Pick, lo: nat, n: nat) {
    c == [] || (lo <= c[0] < n && Climbs(c[1..], c[0], n))
  }

  lemma {:induction false} ClimbsIff(c: Pick, lo: nat, n: nat)
    ensures Climbs(c, lo, n) <==> Ascending(c, lo, n)
    decreases |c|
  {
    if c != [] {
      AscendingCons(c, lo, n);
      ClimbsIff(c[1..], c[0], n);
    }
  }

  lemma ListedSplit(lo: nat, n: nat, k: nat, c: Pick)
    requires 0 < k && lo < n
    ensures c in WithReplacement(lo, n, k) <==>
            (c != [] && c[0] == lo && c[1..] in WithReplacement(lo, n, k - 1)) || c in WithReplacement(lo + 1, n, k)
  {
    InPutFirst(lo, WithReplacement(lo, n, k - 1), c);
  }

  lemma NoneListed(lo: nat, n: nat, k: nat, c: Pick)
    requires k == 0 || lo >= n
    ensures c in WithReplacement(lo, n, k) <==> |c| == k && Climbs(c, lo, n)
  {
    if k == 0 { assert |c| == 0 ==> c == []; }
  }

  lemma {:induction false} ListsClimbing(lo: nat, n: nat, k: nat, c: Pick)
    ensures c in WithReplacement(lo, n, k) <==> |c| == k && Climbs(c, lo, n)
    decreases n - lo + k, n - lo
  {
    if k == 0 || lo >= n {
      NoneListed(lo, n, k, c);
    } else {
      ListedSplit(lo, n, k, c);
      ListsClimbing(lo + 1, n, k, c);
      if c != [] { ListsClimbing(lo, n, k - 1, c[1..]); }
    }
  }

  /** Every ascending tuple is listed, and only those. */
  lemma ListsAscending(lo: nat, n: nat, k: nat, c: Pick)
    ensures c in WithReplacement(lo, n, k) <==> |c| == k && Ascending(c, lo, n)
  {
    ListsClimbing(lo, n, k, c);
    ClimbsIff(c, lo, n);
  }

  lemma PutFirstDistinct(x: nat, picks: seq<Pick>)
    requires Distinct(picks)
    ensures Distinct(PutFirst(x, picks))
  {
    var with := PutFirst(x, picks);
    forall i, j | 0 <= i < j < |with|
      ensures with[i] != with[j]
    {
      assert with[i][1..] == picks[i] && with[j][1..] == picks[j];
    }
  }

  lemma ListedLater(lo: nat, n: nat, k: nat, c: Pick)
    requires c in WithReplacement(lo + 1, n, k) && c != []
    ensures c[0] != lo
  {
    ListsClimbing(lo + 1, n, k, c);
  }

  /** No tuple is listed twice. */
  lemma {:induction false} ListsOnce(lo: nat, n: nat, k: nat)
    ensures Distinct(WithReplacement(lo, n, k))
    decreases n - lo + k, n - lo
  {
    if k > 0 && lo < n {
      var with, without := PutFirst(lo, WithReplacement(lo, n, k - 1)), WithReplacement(lo + 1, n, k);
      ListsOnce(lo, n, k - 1);
      ListsOnce(lo + 1, n, k);
      PutFirstDistinct(lo, WithReplacement(lo, n, k - 1));
      forall i, j | 0 <= i < |with| && 0 <= j < |without|
        ensures with[i] != without[j]
      {
        assert without[j] in without;
        if without[j] != [] { ListedLater(lo, n, k, without[j]); }
        assert with[i][0] == lo;
      }
      DistinctConcat(with, without);
    }
  }

  // ----- the order of the list

  /** At the first place where they differ c has the smaller index. */
  ghost predicate PickBefore(c: Pick, d: Pick) {
    exists k :: SmallerAt(c, d, k)
  }

  ghost predicate SmallerAt(c: Pick, d: Pick, k: int) {
    0 <= k < |c| && k < |d| && c[..k] == d[..k] && c[k] < d[k]
  }

  ghost predicate InOrder(picks: seq<Pick>) {
    forall i, j :: 0 <= i < j < |picks| ==> PickBefore(picks[i], picks[j])
  }

  lemma PickBeforeCons(x: nat, c: Pick, d: Pick)
    requires PickBefore(c, d)
    ensures PickBefore([x] + c, [x] + d)
  {
    var k :| SmallerAt(c, d, k);
    assert ([x] + c)[..k + 1] == [x] + c[..k] && ([x] + d)[..k + 1] == [x] + d[..k];
    assert SmallerAt([x] + c, [x] + d, k + 1);
  }

  /** The tuples are listed in lexicographic order. */
  lemma {:induction false} ListsInOrder(lo: nat, n: nat, k: nat)
    ensures InOrder(WithReplacement(lo, n, k))
    decreases n - lo + k, n - lo
  {
    if k > 0 && lo < n {
      var picks, without := WithReplacement(lo, n, k - 1), WithReplacement(lo + 1, n, k);
      ListsInOrder(lo, n, k - 1);
      ListsInOrder(lo + 1, n, k);
      forall i, j | 0 <= i < j < |picks|
        ensures PickBefore(PutFirst(lo, picks)[i], PutFirst(lo, picks)[j])
      {
        PickBeforeCons(lo, picks[i], picks[j]);
      }
      forall i, j | 0 <= i < |picks| && 0 <= j < |without|
        ensures PickBefore(PutFirst(lo, picks)[i], without[j])
      {
        ListsClimbing(lo + 1, n, k, without[j]);
        assert SmallerAt(PutFirst(lo, picks)[i], without[j], 0);
      }
      InOrderConcat(PutFirst(lo, picks), without);
    }
  }

  lemma InOrderConcat(a: seq<Pick>, b: seq<Pick>)
    requires InOrder(a) && InOrder(b)
    requires forall i, j :: 0 <= i < |a| && 0 <= j < |b| ==> PickBefore(a[i], b[j])
    ensures InOrder(a + b)
  {
  }

  // ----- one ascending tuple for each multiset

  lemma LeastFirst(c: Pick, d: Pick, lo: nat, n: nat)
    requires Ascending(c, lo, n) && multiset(c) == multiset(d) && c != [] && d != []
    ensures c[0] <= d[0]
  {
    assert d[0] in multiset(d);
    assert d[0] in c;
  }

  lemma TailMultiset(c: Pick)
    requires c != []
    ensures multiset(c[1..]) == multiset(c) - multiset{c[0]}
  {
    assert c == [c[0]] + c[1..];
  }

  lemma SameTails(c: Pick, d: Pick, lo: nat, n: nat)
    requires Ascending(c, lo, n) && Ascending(d, lo, n) && multiset(c) == multiset(d) && c != [] && d != []
    ensures c[0] == d[0] && multiset(c[1..]) == multiset(d[1..])
  {
    LeastFirst(c, d, lo, n);
    LeastFirst(d, c, lo, n);
    TailMultiset(c);
    TailMultiset(d);
  }

  lemma {:induction false} AscendingUnique(c: Pick, d: Pick, lo: nat, n: nat)
    requires Ascending(c, lo, n) && Ascending(d, lo, n) && multiset(c) == multiset(d)
    ensures c == d
    decreases |c|
  {
    SameSize(c, d);
    if c != [] {
      SameTails(c, d, lo, n);
      AscendingTail(c, lo, n);
      AscendingTail(d, lo, n);
      AscendingUnique(c[1..], d[1..], lo, n);
      assert c == [c[0]] + c[1..] && d == [d[0]] + d[1..];
    }
  }

  lemma AscendingTail(c: Pick, lo: nat, n: nat)
    requires Ascending(c, lo, n) && c != []
    ensures Ascending(c[1..], lo, n)
  {
  }

  lemma SameSize(c: Pick, d: Pick)
    requires multiset(c) == multiset(d)
    ensures |c| == |d|
  {
    assert |multiset(c)| == |c| && |multiset(d)| == |d|;
  }

  /** Put an index at its place. */
  function Insert(c: Pick, x: nat): (r: Pick)
    ensures multiset(r) == multiset(c) + multiset{x}
  {
    if c == [] then [x]
    else if x <= c[0] then [x] + c
    else
      assert c == [c[0]] + c[1..];
      [c[0]] + Insert(c[1..], x)
  }

  lemma {:induction false} InsertAscending(c: Pick, x: nat, lo: nat, n: nat)
    requires Ascending(c, lo, n) && lo <= x < n
    ensures Ascending(Insert(c, x), lo, n) && |Insert(c, x)| == |c| + 1
    decreases |c|
  {
    if c != [] {
      AscendingCons(c, lo, n);
      if x <= c[0] {
        assert ([x] + c)[1..] == c;
        AscendingCons([x] + c, lo, n);
        AscendingCons(c, x, n);
      } else {
        InsertAscending(c[1..], x, c[0], n);
        var r := Insert(c, x);
        assert r[1..] == Insert(c[1..], x);
        AscendingCons(r, lo, n);
      }
    }
  }

  /** Every multiset of indices below n is that of some ascending tuple. */
  lemma {:induction false} AscendingExists(m: multiset<nat>, n: nat) returns (c: Pick)
    requires forall x :: x in m ==> x < n
    ensures Ascending(c, 0, n) && multiset(c) == m && |c| == |m|
    decreases |m|
  {
    if m == multiset{} {
      c := [];
    } else {
      var x :| x in m;
      var rest := AscendingExists(m - multiset{x}, n);
      InsertAscending(rest, x, 0, n);
      c := Insert(rest, x);
      assert m - multiset{x} + multiset{x} == m;
    }
  }
}
