/** The whole run of get_cidrs: what state each turn leaves behind, and what the
    loop returns for every budget n. */
module CidrBlocks {
  import opened Options
  import opened Sequences
  import opened Prefixes
  import opened CidrMerge
  import opened CidrTrie
  import opened CidrAggregate

  /** The worklist mirrors the frontier of the trie: one entry, in order, for each
      maximal marked path, carrying that path as its label and the node at that path. */
  ghost predicate Synced(at: map<Bits, TrieNode>, labels: map<Bits, Bits>, list: seq<Entry>) {
    && (forall p :: p in labels ==> labels[p] == p)
    && StrictlySorted(list)
    && Ips(list) == Maximal(labels.Keys)
    && Placed(at, list)
  }

  /** Each entry holds the node at the path it is labelled with. */
  ghost predicate Placed(at: map<Bits, TrieNode>, list: seq<Entry>) {
    forall i :: 0 <= i < |list| ==> list[i].ip in at && list[i].node == at[list[i].ip]
  }

  lemma LastIsLongest(list: seq<Entry>)
    requires StrictlySorted(list) && list != []
    ensures Ips(list) != {} && list[|list| - 1].ip == Longest(Ips(list))
    ensures Ips(list[..|list| - 1]) == Ips(list) - {Longest(Ips(list))}
  {
    var last := list[|list| - 1];
    var init := list[..|list| - 1];
    assert list == init + [last];
    IpsConcat(init, [last]);
    assert Ips([last]) == {last.ip} by { assert [last][0].ip == last.ip; }
    KeyIrreflexive(last.ip);
    LongestUnique(Ips(list), last.ip);
  }

  // ----- what a turn does to the marks

  ghost function TurnMarks(M: set<Bits>, q: Bits): set<Bits>
    requires q != []
  {
    (M - Below(M, q)) + {Parent(q)}
  }

  /** A turn changes the frontier by one merging step. */
  lemma MarksStep(M: set<Bits>)
    requires Maximal(M) != {} && Longest(Maximal(M)) != []
    ensures var q := Longest(Maximal(M));
            Parent(q) !in M && Maximal(TurnMarks(M, q)) == Step(Maximal(M))
  {
    var F := Maximal(M);
    var q := Longest(F);
    MaximalIsAntichain(M);
    StepAntichain(F);
    assert Parent(q) <= q && Parent(q) != q;
    forall m | m in TurnMarks(M, q)
      ensures Covered(Step(F), m)
    {
      if m == Parent(q) {
        assert Parent(q) in Step(F) && Parent(q) <= m;
      } else {
        MaximalCovers(M, m);
        var f :| f in F && f <= m;
        if f == Sibling(q) {
          PrefixTransitive(Parent(q), f, m);
          assert Parent(q) in Step(F);
        } else {
          assert f in Step(F);
        }
      }
    }
    MaximalUnique(Step(F), TurnMarks(M, q));
  }

  /** The only leaf left beside the popped longest block is its sibling, if that is a leaf. */
  lemma LeafsBeside(M: set<Bits>, r: Bits)
    requires Maximal(M) != {} && Longest(Maximal(M)) != []
    ensures var q := Longest(Maximal(M));
            r in Maximal(Below(TurnMarks(M, q), Sibling(q))) <==> r == Sibling(q) && r in Maximal(M)
  {
    var q := Longest(Maximal(M));
    var s := Sibling(q);
    var B := Below(TurnMarks(M, q), s);
    assert Parent(q) <= q && Parent(q) != q && Parent(q) <= s && !(s <= Parent(q)) && !(s <= q) && !(q <= s);
    forall m | m in M && s <= m
      ensures m in B
    {
      if q <= m { PrefixesComparable(q, s, m); }
    }
    if r in Maximal(B) {
      forall m | m in M && m <= r
        ensures m == r
      {
        if |s| <= |m| {
          PrefixesComparable(s, m, r);
        } else {
          PrefixesComparable(m, s, r);
          PrefixOfParent(m, s);
          PrefixTransitive(m, Parent(q), q);
        }
      }
      assert r in Maximal(M);
      assert r == q || KeyLt(r, q);
      assert |r| == |s|;
    }
  }

  /** Its key set is what is left below the parent of the popped block, in both orders of the sides. */
  lemma SideLeafsAfter(keys: set<Bits>, M: set<Bits>, q: Bits)
    requires Maximal(M) != {} && q == Longest(Maximal(M)) && q != []
    requires Closed(keys) && M <= keys && Parent(q) in keys
    ensures SideLeafs(keys - Below(keys, q), TurnMarks(M, q), Parent(q)) ==
            if Sibling(q) in Maximal(M) then [Sibling(q)] else []
  {
    var keys', marks', p := keys - Below(keys, q), TurnMarks(M, q), Parent(q);
    assert p + [Last(q)] == q && p + [!Last(q)] == Sibling(q);
    forall k | k in keys' && k != []
      ensures Parent(k) in keys'
    {
      PrefixTransitive(q, Parent(k), k);
    }
    assert Side(keys', marks', p, Last(q)) == [];
    DfsSideFindsLeafs(keys', marks', p, !Last(q));
    var side := Side(keys', marks', p, !Last(q));
    forall r
      ensures r in side <==> r == Sibling(q) && r in Maximal(M)
    {
      LeafsBeside(M, r);
    }
    DistinctSingleton(side, Sibling(q));
  }

  lemma TwoDistinct(s: seq<Bits>, x: Bits)
    requires Distinct(s) && |s| > 1
    ensures exists r :: r in s && r != x
  {
    assert s[0] in s && s[1] in s && s[0] != s[1];
  }

  lemma DistinctSingleton(s: seq<Bits>, x: Bits)
    requires Distinct(s) && forall r :: r in s ==> r == x
    ensures s == if x in s then [x] else []
  {
    if |s| == 1 { assert s[0] in s; }
    if |s| > 1 { TwoDistinct(s, x); }
  }

  // ----- a turn on a list that mirrors the frontier

  lemma TurnLabelsMarks(labels: map<Bits, Bits>, q: Bits)
    requires q != []
    ensures TurnLabels(labels, q).Keys == TurnMarks(labels.Keys, q)
  {
    assert Parent(q) in labels ==> Parent(q) in Without(labels, q);
  }

  /** On the worklist a turn is one merging step: the last entry goes, the parent comes in
      at its place, and the sibling, if listed, is deleted. */
  lemma ListStep(list: seq<Entry>, parent: Entry, leafs: seq<Entry>) returns (next: seq<Entry>)
    requires StrictlySorted(list) && Sorted(list) && list != [] && Antichain(Ips(list))
    requires Ips(list) != {} && Longest(Ips(list)) != [] && parent.ip == Parent(Longest(Ips(list)))
    requires if Sibling(Longest(Ips(list))) in Ips(list) then |leafs| == 1 && leafs[0].ip == Sibling(Longest(Ips(list)))
             else leafs == []
    ensures Sorted(Insort(list[..|list| - 1], parent))
    ensures DeleteAll(Insort(list[..|list| - 1], parent), leafs) == Some(next)
    ensures StrictlySorted(next) && Ips(next) == Step(Ips(list))
    ensures Among(next, list[..|list| - 1] + [parent])
  {
    var F, init := Ips(list), list[..|list| - 1];
    var s := Sibling(Longest(F));
    LastIsLongest(list);
    StepAntichain(F);
    var mid := Insort(init, parent);
    InsortMembers(init, parent);
    InsortStrict(init, parent);
    InsortSorted(init, parent);
    if s in F {
      assert s in Ips(mid);
      next := DeleteOne(mid, s, leafs);
    } else {
      next := mid;
    }
  }

  lemma DeleteOne(list: seq<Entry>, s: Bits, leafs: seq<Entry>) returns (next: seq<Entry>)
    requires StrictlySorted(list) && Sorted(list) && s in Ips(list) && |leafs| == 1 && leafs[0].ip == s
    ensures DeleteAll(list, leafs) == Some(next)
    ensures StrictlySorted(next) && Ips(next) == Ips(list) - {s} && Among(next, list)
  {
    var k :| 0 <= k < |list| && list[k].ip == s;
    DeleteKeyExact(list, k);
    DeleteStrict(list, k);
    next := list[..k] + list[k + 1..];
    assert leafs[1..] == [];
  }

  /** The leafs a turn deletes when the labels are the paths: the sibling, or none. */
  lemma TurnLeafs(at: map<Bits, TrieNode>, labels: map<Bits, Bits>, q: Bits) returns (leafs: seq<Entry>)
    requires Closed(at.Keys) && labels.Keys <= at.Keys && forall p :: p in labels ==> labels[p] == p
    requires Maximal(labels.Keys) != {} && q == Longest(Maximal(labels.Keys)) && q != [] && Parent(q) in at
    ensures var keys', labels' := Without(at, q).Keys, TurnLabels(labels, q);
            && (forall p :: p in SideLeafs(keys', labels'.Keys, Parent(q)) ==> p in keys' && p in labels')
            && leafs == Entries(Without(at, q), labels', SideLeafs(keys', labels'.Keys, Parent(q)))
    ensures if Sibling(q) in Maximal(labels.Keys)
            then |leafs| == 1 && leafs[0].ip == Sibling(q) else leafs == []
  {
    var keys', labels' := Without(at, q).Keys, TurnLabels(labels, q);
    TurnLabelsMarks(labels, q);
    SideLeafsAfter(at.Keys, labels.Keys, q);
    SideLeafsHeld(at, labels, q);
    assert keys' == at.Keys - Below(at.Keys, q);
    assert Sibling(q) != Parent(q);
    leafs := Entries(Without(at, q), labels', SideLeafs(keys', labels'.Keys, Parent(q)));
  }

  /** What a turn deletes and inserts when the labels are the paths. */
  lemma TurnResultIs(at: map<Bits, TrieNode>, labels: map<Bits, Bits>, rest: seq<Entry>, q: Bits)
    returns (leafs: seq<Entry>)
    requires Closed(at.Keys) && labels.Keys <= at.Keys && Sorted(rest)
    requires forall p :: p in labels ==> labels[p] == p
    requires Maximal(labels.Keys) != {} && q == Longest(Maximal(labels.Keys)) && q != []
    ensures Parent(q) in at && Parent(q) !in labels
    ensures var parent := Entry(LabelOf(Parent(q)), at[Parent(q)]);
            && Sorted(Insort(rest, parent))
            && TurnResult(at, labels, q, rest) == DeleteAll(Insort(rest, parent), leafs)
    ensures if Sibling(q) in Maximal(labels.Keys)
            then |leafs| == 1 && leafs[0].ip == Sibling(q) else leafs == []
  {
    MarksStep(labels.Keys);
    assert q in labels.Keys;
    leafs := TurnLeafs(at, labels, q);
    InsortSorted(rest, Entry(LabelOf(Parent(q)), at[Parent(q)]));
  }

  /** One turn keeps the worklist and the trie in step and merges once. */
  lemma TurnSynced(at: map<Bits, TrieNode>, labels: map<Bits, Bits>, list: seq<Entry>) returns (next: seq<Entry>)
    requires Closed(at.Keys) && labels.Keys <= at.Keys
    requires Synced(at, labels, list) && list != [] && |list[|list| - 1].ip| >= 2
    ensures var q := list[|list| - 1].ip;
            && Parent(q) in at && Sorted(list[..|list| - 1])
            && TurnResult(at, labels, q, list[..|list| - 1]) == Some(next)
            && Synced(Without(at, q), TurnLabels(labels, q), next)
    ensures Ips(list) != {} && Longest(Ips(list)) == list[|list| - 1].ip && Ips(next) == Step(Ips(list))
  {
    var q, init := list[|list| - 1].ip, list[..|list| - 1];
    StrictIsSorted(list);
    LastIsLongest(list);
    MaximalIsAntichain(labels.Keys);
    var leafs := TurnResultIs(at, labels, init, q);
    var parent := Entry(Parent(q), at[Parent(q)]);
    next := ListStep(list, parent, leafs);
    SyncedNext(at, labels, list, next);
  }

  /** A list of kept entries and the parent mirrors the trie after the turn. */
  lemma SyncedNext(at: map<Bits, TrieNode>, labels: map<Bits, Bits>, list: seq<Entry>, next: seq<Entry>)
    requires Closed(at.Keys) && labels.Keys <= at.Keys && Synced(at, labels, list) && list != [] && Ips(list) != {}
    requires var q := Longest(Ips(list)); |q| >= 2 && q in at && Parent(q) in at && Ips(next) == Step(Ips(list))
    requires Among(next, list[..|list| - 1] + [Entry(Parent(Longest(Ips(list))), at[Parent(Longest(Ips(list)))])])
    requires StrictlySorted(next)
    ensures var q := Longest(Ips(list)); Synced(Without(at, q), TurnLabels(labels, q), next)
  {
    var q := Longest(Ips(list));
    MarksStep(labels.Keys);
    TurnLabelsMarks(labels, q);
    LastIsLongest(list);
    KeptNodes(at, labels, list);
    forall i | 0 <= i < |next|
      ensures next[i].ip in Without(at, q) && next[i].node == at[next[i].ip]
    {
      var e := next[i];
      if e in list[..|list| - 1] {
        var j :| 0 <= j < |list| - 1 && list[j] == e;
      } else {
        assert e == Entry(Parent(q), at[Parent(q)]);
      }
    }
  }

  /** The nodes of the entries that stay are not unlinked with the popped one. */
  lemma KeptNodes(at: map<Bits, TrieNode>, labels: map<Bits, Bits>, list: seq<Entry>)
    requires Synced(at, labels, list) && list != []
    ensures forall i :: 0 <= i < |list| - 1 ==> list[i].ip in Without(at, list[|list| - 1].ip)
  {
    MaximalIsAntichain(labels.Keys);
    var q := list[|list| - 1].ip;
    forall i | 0 <= i < |list| - 1
      ensures !(q <= list[i].ip)
    {
      KeyIrreflexive(q);
      assert q in Ips(list) && list[i].ip in Ips(list) && KeyLt(list[i].ip, q);
    }
  }

  // ----- turns at the top of the trie, where the root is labelled '0'

  lemma FrontierAtTop(F: set<Bits>)
    requires Antichain(F) && F != {} && |Longest(F)| == 1
    ensures F == {Longest(F)} || (F == {[false], [true]} && Longest(F) == [true])
  {
    var q := Longest(F);
    forall f | f in F
      ensures f == [false] || f == [true]
    {
      assert f == q || KeyLt(f, q);
      assert [] <= q;
      assert |f| == 1;
      if f[0] { assert f == [true]; } else { assert f == [false]; }
    }
  }

  /** When one half of the address space is all there is, its turn leaves the root alone in the list, as '0'. */
  lemma TurnSingle(at: map<Bits, TrieNode>, labels: map<Bits, Bits>, list: seq<Entry>)
    requires Closed(at.Keys) && labels.Keys <= at.Keys && Synced(at, labels, list)
    requires |list| == 1 && |list[0].ip| == 1
    ensures Parent(list[0].ip) == [] && [] in at
    ensures TurnResult(at, labels, list[0].ip, []) == Some([Entry([false], at[[]])])
  {
    var q := list[0].ip;
    LastIsLongest(list);
    assert Ips(list) == {q};
    assert Last(Sibling(q)) == !Last(q);
    var leafs := TurnResultIs(at, labels, [], q);
    assert Insort([], Entry([false], at[[]])) == [Entry([false], at[[]])];
  }

  /** Two entries with the key '0': the bisect deletion takes the second one. */
  lemma SecondZeroDeleted(lower: Entry, root: Entry, leafs: seq<Entry>)
    requires lower.ip == root.ip == [false] && |leafs| == 1 && leafs[0].ip == [false]
    ensures Sorted([lower]) && Sorted(Insort([lower], root))
    ensures DeleteAll(Insort([lower], root), leafs) == Some([lower])
  {
    InsortSecond(lower, root);
    SecondOfTwo([lower, root]);
    assert leafs[1..] == [];
  }

  lemma InsortSecond(lower: Entry, root: Entry)
    requires lower.ip == root.ip
    ensures Sorted([lower]) && Sorted([lower, root]) && Insort([lower], root) == [lower, root]
  {
    KeyIrreflexive(root.ip);
    assert BisectRight([lower], root.ip) == 1;
  }

  lemma SecondOfTwo(two: seq<Entry>)
    requires |two| == 2 && two[0].ip == two[1].ip && Sorted(two)
    ensures DeleteKey(two, two[1].ip) == Some([two[0]])
  {
    KeyIrreflexive(two[1].ip);
    assert BisectRight(two, two[1].ip) == 2;
    assert two[..1] + two[2..] == [two[0]];
  }

  lemma TwoAtTop(list: seq<Entry>)
    requires StrictlySorted(list) && Antichain(Ips(list)) && |list| >= 2 && |list[|list| - 1].ip| == 1
    ensures |list| == 2 && list[0].ip == [false] && list[1].ip == [true]
    ensures Ips(list) == {[false], [true]} && Longest(Ips(list)) == [true]
  {
    LastIsLongest(list);
    FrontierAtTop(Ips(list));
    IpsCount(list);
    assert list[0].ip in Ips(list) && KeyLt(list[0].ip, list[|list| - 1].ip);
    KeyIrreflexive([true]);
  }

  /** When both halves are there, the turn of '1' puts the root in as a second '0' and the
      deletion takes it out again: the lower half stays listed, the upper half is lost. */
  lemma TurnBoth(at: map<Bits, TrieNode>, labels: map<Bits, Bits>, list: seq<Entry>)
    requires Closed(at.Keys) && labels.Keys <= at.Keys && Synced(at, labels, list)
    requires |list| >= 2 && |list[|list| - 1].ip| == 1
    ensures |list| == 2 && list[0].ip == [false] && list[1].ip == [true]
    ensures Ips(list) == {[false], [true]}
    ensures [] in at && [] !in labels && [false] in labels
    ensures Sorted([list[0]]) && TurnResult(at, labels, [true], [list[0]]) == Some([list[0]])
  {
    MaximalIsAntichain(labels.Keys);
    TwoAtTop(list);
    assert [false] in Ips(list);
    assert Parent([true]) == [] && Sibling([true]) == [false];
    var leafs := TurnResultIs(at, labels, [list[0]], [true]);
    SecondZeroDeleted(list[0], Entry([false], at[[]]), leafs);
  }

  /** And when even that entry is popped, nothing is listed any more. */
  lemma TurnHalved(at: map<Bits, TrieNode>, labels: map<Bits, Bits>)
    requires Closed(at.Keys) && labels.Keys <= at.Keys && [] in labels && [true] !in at
    ensures TurnResult(at, labels, [false], []) == Some([])
  {
    var keys := Without(at, [false]).Keys;
    assert Parent([false]) == [];
    assert [] + [false] == [false] && [] + [true] == [true];
  }

  // ----- what get_cidrs returns

  datatype Outcome = Blocks(blocks: seq<Bits>) | KeyError | IndexError

  /** Some block of F lies in one half of the address space. */
  ghost predicate InHalf(F: set<Bits>, upper: bool) {
    exists f :: f in F && |f| > 0 && f[0] == upper
  }

  ghost predicate BothHalves(F: set<Bits>) {
    InHalf(F, true) && InHalf(F, false)
  }

  /** The blocks of F in (length, bits) order. */
  ghost predicate Lists(blocks: seq<Bits>, F: set<Bits>) {
    && (forall i, j :: 0 <= i < j < |blocks| ==> KeyLt(blocks[i], blocks[j]))
    && forall b :: b in blocks <==> b in F
  }

  /** The result for the set S of given blocks and the budget n. */
  ghost predicate Specified(S: set<Bits>, n: int, r: Outcome) {
    MaximalIsAntichain(S);
    var F := Maximal(S);
    if n >= 2 || (n == 1 && !BothHalves(F)) then r.Blocks? && Lists(r.blocks, Merge(F, n))
    else if n == 1 then r == Blocks([[false]])
    else if F == {} || BothHalves(F) then r == (if n == 0 then Blocks([]) else IndexError)
    else r == KeyError
  }

  lemma StepHalf(F: set<Bits>, upper: bool)
    requires Antichain(F) && F != {} && |Longest(F)| >= 2
    ensures InHalf(Step(F), upper) <==> InHalf(F, upper)
  {
    var q := Longest(F);
    var p := Parent(q);
    assert |p| > 0 && p[0] == q[0] && Sibling(q)[0] == q[0];
    if InHalf(F, upper) {
      var a :| a in F && |a| > 0 && a[0] == upper;
      assert (if a == q || a == Sibling(q) then p else a) in Step(F);
    }
    if InHalf(Step(F), upper) {
      var a :| a in Step(F) && |a| > 0 && a[0] == upper;
      assert (if a == p then q else a) in F;
    }
  }

  // ----- the phases of the run

  datatype Phase = Merging | Rooted | Halved | Drained

  /** What holds at the head of the loop; the last three phases are reached only for n <= 1. */
  ghost predicate AtHead(phase: Phase, F0: set<Bits>, n: int,
                         at: map<Bits, TrieNode>, labels: map<Bits, Bits>, list: seq<Entry>) {
    match phase
    case Merging =>
      && Synced(at, labels, list)
      && var F := Ips(list);
      && Antichain(F0) && Antichain(F)
      && (BothHalves(F) <==> BothHalves(F0)) && (F == {} <==> F0 == {})
      && (n >= 1 ==> Merge(F, n) == Merge(F0, n))
    case Rooted =>
      n <= 0 && F0 != {} && !BothHalves(F0) && [] in at && list == [Entry([false], at[[]])]
    case Halved =>
      && n <= 1 && F0 != {} && BothHalves(F0)
      && [false] in at && list == [Entry([false], at[[false]])]
      && [] in labels && [true] !in at
    case Drained =>
      n <= 0 && F0 != {} && BothHalves(F0) && list == []
  }

  /** Merging goes on below the top: one more step of Merge. */
  lemma PhaseMerging(F0: set<Bits>, n: int, at: map<Bits, TrieNode>, labels: map<Bits, Bits>, list: seq<Entry>)
    returns (next: seq<Entry>)
    requires Closed(at.Keys) && labels.Keys <= at.Keys && AtHead(Merging, F0, n, at, labels, list)
    requires |list| > n && list != [] && |list[|list| - 1].ip| >= 2
    ensures var q := list[|list| - 1].ip;
            && Parent(q) in at && Sorted(list[..|list| - 1])
            && TurnResult(at, labels, q, list[..|list| - 1]) == Some(next)
            && AtHead(Merging, F0, n, Without(at, q), TurnLabels(labels, q), next)
  {
    var F := Ips(list);
    next := TurnSynced(at, labels, list);
    IpsCount(list);
    StepShape(F);
    StepHalf(F, true);
    StepHalf(F, false);
    assert Parent(Longest(F)) in Step(F);
  }

  /** At the top of the trie with both halves listed: on to the halved list. */
  lemma PhaseTopBoth(F0: set<Bits>, n: int, at: map<Bits, TrieNode>, labels: map<Bits, Bits>, list: seq<Entry>)
    requires Closed(at.Keys) && labels.Keys <= at.Keys && AtHead(Merging, F0, n, at, labels, list)
    requires |list| > n && |list| >= 2 && |list[|list| - 1].ip| == 1
    ensures var q := list[|list| - 1].ip;
            && Parent(q) in at && list[..|list| - 1] == [list[0]] && Sorted([list[0]])
            && TurnResult(at, labels, q, [list[0]]) == Some([list[0]])
            && AtHead(Halved, F0, n, Without(at, q), TurnLabels(labels, q), [list[0]])
  {
    TurnBoth(at, labels, list);
    assert list[|list| - 1].ip == [true] && list[..|list| - 1] == [list[0]] && Parent([true]) == [];
    HalvedNext(F0, n, at, labels, list);
  }

  lemma HalvedNext(F0: set<Bits>, n: int, at: map<Bits, TrieNode>, labels: map<Bits, Bits>, list: seq<Entry>)
    requires Closed(at.Keys) && labels.Keys <= at.Keys && AtHead(Merging, F0, n, at, labels, list)
    requires |list| == 2 > n && list[0].ip == [false] && list[1].ip == [true] && [] in at
    ensures AtHead(Halved, F0, n, Without(at, [true]), TurnLabels(labels, [true]), [list[0]])
  {
    var F := Ips(list);
    assert [true] in F && [false] in F && [true][0] && ![false][0];
    assert Parent([true]) == [];
  }

  /** At the top with one half listed: on to the rooted list. */
  lemma PhaseTopSingle(F0: set<Bits>, n: int, at: map<Bits, TrieNode>, labels: map<Bits, Bits>, list: seq<Entry>)
    requires Closed(at.Keys) && labels.Keys <= at.Keys && AtHead(Merging, F0, n, at, labels, list)
    requires |list| > n && |list| == 1 && |list[0].ip| == 1
    ensures var q := list[0].ip;
            && Parent(q) == [] && [] in at
            && TurnResult(at, labels, q, []) == Some([Entry([false], at[[]])])
            && AtHead(Rooted, F0, n, Without(at, q), TurnLabels(labels, q), [Entry([false], at[[]])])
  {
    TurnSingle(at, labels, list);
    assert list[0] in list && Ips(list) == {list[0].ip};
  }

  /** Every turn, whatever the phase. */
  lemma PhaseTurn(phase: Phase, F0: set<Bits>, n: int, at: map<Bits, TrieNode>, labels: map<Bits, Bits>,
                  list: seq<Entry>, q: Bits)
    returns (phase': Phase, next: seq<Entry>)
    requires Closed(at.Keys) && labels.Keys <= at.Keys && AtHead(phase, F0, n, at, labels, list)
    requires |list| > n && list != [] && q != []
    requires if phase.Merging? then q == list[|list| - 1].ip else phase.Halved? && q == [false]
    ensures && Parent(q) in at && Sorted(list[..|list| - 1])
            && TurnResult(at, labels, q, list[..|list| - 1]) == Some(next)
            && AtHead(phase', F0, n, Without(at, q), TurnLabels(labels, q), next)
  {
    if phase.Halved? {
      TurnHalved(at, labels);
      assert list[..0] == [];
      phase', next := Drained, [];
    } else if |q| == 1 && |list| >= 2 {
      PhaseTopBoth(F0, n, at, labels, list);
      phase', next := Halved, [list[0]];
    } else if |q| == 1 {
      PhaseTopSingle(F0, n, at, labels, list);
      assert list[..0] == [];
      phase', next := Rooted, [Entry([false], at[[]])];
    } else {
      phase' := Merging;
      next := PhaseMerging(F0, n, at, labels, list);
    }
  }

  /** What the loop returns when it stops by itself. */
  lemma PhaseDone(phase: Phase, S: set<Bits>, n: int, at: map<Bits, TrieNode>, labels: map<Bits, Bits>,
                  list: seq<Entry>)
    requires AtHead(phase, Maximal(S), n, at, labels, list) && |list| <= n
    ensures Specified(S, n, Blocks(Labels(list)))
  {
    MaximalIsAntichain(S);
    if phase.Merging? {
      IpsCount(list);
      LabelsListed(list);
      if BothHalves(Ips(list)) { TwoHalvesTwoBlocks(Ips(list)); }
      assert list == [] <==> Ips(list) == {};
    }
  }

  function Labels(list: seq<Entry>): (blocks: seq<Bits>)
    ensures |blocks| == |list| && forall i :: 0 <= i < |list| ==> blocks[i] == list[i].ip
  {
    seq(|list|, i requires 0 <= i < |list| => list[i].ip)
  }

  lemma LabelsListed(list: seq<Entry>)
    requires StrictlySorted(list)
    ensures Lists(Labels(list), Ips(list))
  {
    forall b
      ensures b in Labels(list) <==> b in Ips(list)
    {
      if b in Labels(list) {
        var i :| 0 <= i < |list| && Labels(list)[i] == b;
        assert list[i].ip == b;
      }
      if b in Ips(list) {
        var i :| 0 <= i < |list| && list[i].ip == b;
        assert Labels(list)[i] == b;
      }
    }
  }

  lemma TwoHalvesTwoBlocks(F: set<Bits>)
    requires BothHalves(F)
    ensures |F| >= 2
  {
    var a :| a in F && |a| > 0 && a[0];
    var b :| b in F && |b| > 0 && !b[0];
    SubsetSize({a, b}, F);
  }

  /** What the loop raises when the last entry is the root, or there is none. */
  lemma PhaseRaises(phase: Phase, S: set<Bits>, n: int, at: map<Bits, TrieNode>, labels: map<Bits, Bits>,
                    list: seq<Entry>)
    requires AtHead(phase, Maximal(S), n, at, labels, list) && |list| > n
    ensures list == [] ==> Specified(S, n, IndexError)
    ensures list != [] && (phase.Rooted? || (phase.Merging? && list[|list| - 1].ip == [])) ==> Specified(S, n, KeyError)
  {
    MaximalIsAntichain(S);
    if list != [] && phase.Merging? && list[|list| - 1].ip == [] {
      IpsCount(list);
      assert list[|list| - 1] in list;
      assert [] in Ips(list);
      forall f | f in Ips(list)
        ensures f == []
      {
        assert [] <= f;
      }
      assert Ips(list) == {[]};
    }
  }

  /** Sorting the leafs of the trie puts the worklist in step with it. */
  lemma SyncedInitially(at: map<Bits, TrieNode>, labels: map<Bits, Bits>, leafs: seq<Entry>)
    requires Closed(at.Keys) && labels.Keys <= at.Keys && [] in at && forall p :: p in labels ==> labels[p] == p
    requires forall p :: p in Dfs(at.Keys, labels.Keys, []) ==> p in at && p in labels
    requires leafs == Entries(at, labels, Dfs(at.Keys, labels.Keys, []))
    ensures Synced(at, labels, SortByKey(leafs))
  {
    var found := Dfs(at.Keys, labels.Keys, []);
    DfsFindsLeafs(at.Keys, labels.Keys, []);
    assert Below(labels.Keys, []) == labels.Keys;
    EntriesListed(at, labels, found);
    assert Ips(leafs) == Maximal(labels.Keys);
    SortedSynced(at, labels, leafs);
  }

  ghost predicate DistinctIps(list: seq<Entry>) {
    forall i, j :: 0 <= i < j < |list| ==> list[i].ip != list[j].ip
  }

  lemma DistinctIpsPop(init: seq<Entry>, e: Entry)
    requires DistinctIps(init + [e])
    ensures DistinctIps(init) && e.ip !in Ips(init) && Ips(init + [e]) == Ips(init) + {e.ip}
  {
    var list := init + [e];
    assert list[|init|] == e && forall i :: 0 <= i < |init| ==> list[i] == init[i];
    IpsConcat(init, [e]);
    assert Ips([e]) == {e.ip} by { assert [e][0].ip == e.ip; }
  }

  lemma SortedSynced(at: map<Bits, TrieNode>, labels: map<Bits, Bits>, leafs: seq<Entry>)
    requires forall p :: p in labels ==> labels[p] == p
    requires DistinctIps(leafs)
    requires Placed(at, leafs)
    requires Ips(leafs) == Maximal(labels.Keys)
    ensures Synced(at, labels, SortByKey(leafs))
  {
    SortStrict(leafs);
    SortAmong(leafs);
  }

  lemma EntriesListed(at: map<Bits, TrieNode>, labels: map<Bits, Bits>, ps: seq<Bits>)
    requires Distinct(ps) && forall p :: p in ps ==> p in at && p in labels && labels[p] == p
    ensures var list := Entries(at, labels, ps);
            && DistinctIps(list)
            && Placed(at, list)
            && (forall p :: p in Ips(list) <==> p in ps)
  {
    var list := Entries(at, labels, ps);
    forall i | 0 <= i < |list|
      ensures list[i].ip == ps[i] && ps[i] in ps && ps[i] in Ips(list)
    {
      assert ps[i] in ps && list[i].ip == ps[i];
    }
  }

  lemma {:induction false} SortStrict(leafs: seq<Entry>)
    requires DistinctIps(leafs)
    ensures StrictlySorted(SortByKey(leafs))
    ensures Ips(SortByKey(leafs)) == Ips(leafs)
    decreases |leafs|
  {
    if leafs != [] {
      var init, e := leafs[..|leafs| - 1], leafs[|leafs| - 1];
      assert leafs == init + [e];
      DistinctIpsPop(init, e);
      SortStrict(init);
      SortPush(init, e);
      InsortStrict(SortByKey(init), e);
      InsortMembers(SortByKey(init), e);
    }
  }

  lemma AmongPush(a: seq<Entry>, list: seq<Entry>, init: seq<Entry>, e: Entry)
    requires Among(a, list + [e]) && Among(list, init)
    ensures Among(a, init + [e])
  {
    forall i | 0 <= i < |a|
      ensures a[i] in init + [e]
    {
      assert a[i] in list + [e];
      if a[i] != e {
        var j :| 0 <= j < |list| && list[j] == a[i];
      }
    }
  }

  lemma {:induction false} SortAmong(leafs: seq<Entry>)
    ensures Among(SortByKey(leafs), leafs)
    decreases |leafs|
  {
    if leafs != [] {
      var init, e := leafs[..|leafs| - 1], leafs[|leafs| - 1];
      assert leafs == init + [e];
      SortAmong(init);
      SortPush(init, e);
      InsortMembers(SortByKey(init), e);
      AmongPush(Insort(SortByKey(init), e), SortByKey(init), init, e);
    }
  }

  // ----- the program

  ghost function Given(ips: seq<Bits>): set<Bits> {
    set i | i in ips
  }

  /** A new trie with each of the given blocks inserted. */
  method Build(binaryIps: seq<Bits>) returns (t: Trie)
    ensures fresh(t) && fresh(t.at.Values) && t.Valid()
    ensures t.labels.Keys == Given(binaryIps) && forall p :: p in t.labels ==> t.labels[p] == p
  {
    t := new Trie();
    for i := 0 to |binaryIps|
      invariant fresh(t) && fresh(t.at.Values) && t.Valid()
      invariant t.labels.Keys == Given(binaryIps[..i]) && forall p :: p in t.labels ==> t.labels[p] == p
    {
      assert binaryIps[..i + 1] == binaryIps[..i] + [binaryIps[i]];
      t.Insert(binaryIps[i]);
    }
    assert binaryIps[..|binaryIps|] == binaryIps;
  }

  /** The listed nodes are those of the trie. */
  lemma LastHeld(t: Trie, phase: Phase, F0: set<Bits>, n: int, list: seq<Entry>)
    requires t.Valid() && AtHead(phase, F0, n, t.at, t.labels, list) && list != []
    ensures var last := list[|list| - 1];
            t.Holds(last.node) && last.node.path == if phase.Rooted? then [] else last.ip
  {
    assert list[|list| - 1] in list;
  }

  /** The body of the loop of get_cidrs: a raised error, or the next worklist. */
  method Round(t: Trie, list: seq<Entry>, n: int, ghost phase: Phase, ghost S: set<Bits>)
    returns (raised: Option<Outcome>, out: seq<Entry>, ghost phase': Phase)
    requires t.Valid() && AtHead(phase, Maximal(S), n, t.at, t.labels, list) && |list| > n
    modifies t`at, t`labels, t.at.Values
    ensures raised.Some? ==> Specified(S, n, raised.value)
    ensures raised.None? ==> t.Valid() && AtHead(phase', Maximal(S), n, t.at, t.labels, out)
    ensures raised.None? ==> t.at.Keys < old(t.at.Keys) && t.at.Values <= old(t.at.Values)
  {
    PhaseRaises(phase, S, n, t.at, t.labels, list);
    out, phase' := list, phase;
    if |list| == 0 {
      return Some(IndexError), list, phase;
    }
    LastHeld(t, phase, Maximal(S), n, list);
    var last := list[|list| - 1].node;
    assert Linked(t.at, t.labels, last.path);
    if last.parent == null {
      return Some(KeyError), list, phase;
    }
    ghost var next;
    phase', next := PhaseTurn(phase, Maximal(S), n, t.at, t.labels, list, last.path);
    if phase.Merging? { StrictIsSorted(list); }
    ghost var q := last.path;
    var dropped := Turn(t, list);
    assert q in old(t.at) && q !in t.at;
    raised, out := None, dropped.value;
  }

  /** The blocks of get_cidrs, before they are printed. */
  method Aggregate(binaryIps: seq<Bits>, n: int) returns (r: Outcome)
    ensures Specified(Given(binaryIps), n, r)
  {
    ghost var S := Given(binaryIps);
    var t := Build(binaryIps);
    var leafs := t.Leafs(t.root);
    var list := SortByKey(leafs);
    SyncedInitially(t.at, t.labels, leafs);
    ghost var phase := Merging;
    MaximalIsAntichain(S);
    while |list| > n
      invariant fresh(t) && fresh(t.at.Values) && t.Valid()
      invariant AtHead(phase, Maximal(S), n, t.at, t.labels, list)
      decreases t.at.Keys
    {
      var raised;
      raised, list, phase := Round(t, list, n, phase, S);
      if raised.Some? {
        return raised.value;
      }
    }
    PhaseDone(phase, S, n, t.at, t.labels, list);
    r := Blocks(Labels(list));
  }
}
