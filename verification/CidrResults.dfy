/** What callers of get_cidrs get: which addresses the printed blocks cover, how many
    blocks there are, and that they are the finest truncation that fits the budget. */
module CidrResults {
  import opened Options
  import opened Prefixes
  import opened CidrMerge
  import opened Texts
  import opened CidrBlocks
  import opened CidrText

  /** The text is that of a block that contains the address. */
  ghost predicate Names(cidr: string, address: Bits) {
    ParseBlock(cidr).Some? && ParseBlock(cidr).value <= address
  }

  /** Some printed block contains the address. */
  ghost predicate Reaches(cidrs: seq<string>, address: Bits) {
    exists i :: 0 <= i < |cidrs| && Names(cidrs[i], address)
  }

  ghost function Elements(blocks: seq<Bits>): set<Bits> {
    set b | b in blocks
  }

  /** Texts that read as some blocks reach what the blocks cover. */
  lemma ReachesCovered(cidrs: seq<string>, blocks: seq<Bits>, address: Bits)
    requires |cidrs| == |blocks| && forall i :: 0 <= i < |cidrs| ==> ParseBlock(cidrs[i]) == Some(blocks[i])
    ensures Reaches(cidrs, address) <==> Covered(Elements(blocks), address)
  {
    forall i | 0 <= i < |cidrs|
      ensures Names(cidrs[i], address) <==> blocks[i] <= address
    {
    }
    if Covered(Elements(blocks), address) {
      var b :| b in Elements(blocks) && b <= address;
      var i :| 0 <= i < |blocks| && blocks[i] == b;
      assert Names(cidrs[i], address);
    }
    if Reaches(cidrs, address) {
      var i :| 0 <= i < |cidrs| && Names(cidrs[i], address);
      assert blocks[i] in Elements(blocks);
    }
  }

  /** Printed blocks of at most 32 bits read as themselves. */
  lemma PrintedRead(S: set<Bits>, blocks: seq<Bits>, cidrs: seq<string>)
    requires PrefixesOf(Elements(blocks), S) && forall p :: p in S ==> |p| <= 32
    requires |cidrs| == |blocks| && forall i :: 0 <= i < |cidrs| ==> cidrs[i] == PrintBlock(blocks[i])
    ensures forall i :: 0 <= i < |cidrs| ==> ParseBlock(cidrs[i]) == Some(blocks[i])
  {
    forall i | 0 <= i < |cidrs|
      ensures ParseBlock(cidrs[i]) == Some(blocks[i])
    {
      assert blocks[i] in Elements(blocks);
      var f :| f in S && blocks[i] <= f;
      ParsePrint(blocks[i]);
    }
  }

  /** Every 32-bit address of a given block is in one of the listed blocks. */
  ghost predicate NothingLost(S: set<Bits>, blocks: seq<Bits>) {
    forall a: Bits :: |a| == 32 && Covered(S, a) ==> Covered(Elements(blocks), a)
  }

  /** With a positive budget get_cidrs returns blocks, at most n of them, each a prefix of a given one. */
  lemma BlocksShape(S: set<Bits>, n: int, o: Outcome)
    requires Specified(S, n, o) && n >= 1
    ensures o.Blocks? && |o.blocks| <= n && PrefixesOf(Elements(o.blocks), S)
  {
    MaximalIsAntichain(S);
    var F := Maximal(S);
    if n >= 2 || !BothHalves(F) {
      MergeCount(F, n);
      MergePrefixes(F, n);
      ListedCount(o.blocks, Merge(F, n));
    } else {
      var f :| f in F && |f| > 0 && !f[0];
      assert [false] <= f;
    }
  }

  lemma ListedCount(blocks: seq<Bits>, F: set<Bits>)
    requires Lists(blocks, F)
    ensures |blocks| == |F|
    decreases |blocks|
  {
    if blocks == [] {
      assert F == {};
    } else {
      var init, last := blocks[..|blocks| - 1], blocks[|blocks| - 1];
      KeyIrreflexive(last);
      assert last !in init;
      assert blocks == init + [last];
      assert last in blocks;
      ListedCount(init, F - {last});
    }
  }

  /** No address is lost exactly when the budget leaves room for both halves of the
      address space, or only one of them is in use. */
  lemma NothingLostIff(S: set<Bits>, n: int, o: Outcome)
    requires Specified(S, n, o) && n >= 1 && o.Blocks? && forall p :: p in S ==> |p| <= 32
    ensures NothingLost(S, o.blocks) <==> n >= 2 || !BothHalves(Maximal(S))
  {
    MaximalIsAntichain(S);
    var F := Maximal(S);
    if n >= 2 || !BothHalves(F) {
      forall a: Bits | |a| == 32 && Covered(S, a)
        ensures Covered(Elements(o.blocks), a)
      {
        MergedCovers(S, n, o.blocks, a);
      }
    } else {
      var f :| f in F && |f| > 0 && f[0];
      var a := f + seq(32 - |f|, _ => false);
      assert f in S && f <= a && |a| == 32;
      forall b | b in Elements(o.blocks)
        ensures !(b <= a)
      {
        assert b == [false] && b[0] != a[0];
      }
      assert !Covered(Elements(o.blocks), a);
    }
  }

  lemma MergedCovers(S: set<Bits>, n: nat, blocks: seq<Bits>, a: Bits)
    requires n >= 1 && Antichain(Maximal(S)) && Lists(blocks, Merge(Maximal(S), n)) && Covered(S, a)
    ensures Covered(Elements(blocks), a)
  {
    var p :| p in S && p <= a;
    MaximalCoversAll(S);
    MergeCovers(Maximal(S), n);
    CoversTransitive(Merge(Maximal(S), n), Maximal(S), S);
    var g :| g in Merge(Maximal(S), n) && g <= p;
    PrefixTransitive(g, p, a);
    assert g in Elements(blocks);
  }

  /** The same on the printed blocks of get_cidrs. */
  lemma NoAddressLostIff(S: set<Bits>, n: int, o: Outcome, cidrs: seq<string>)
    requires Specified(S, n, o) && n >= 1 && forall p :: p in S ==> |p| <= 32
    requires Prints(Printed(cidrs), o)
    ensures (forall a: Bits :: |a| == 32 && Covered(S, a) ==> Reaches(cidrs, a)) <==>
            n >= 2 || !BothHalves(Maximal(S))
  {
    BlocksShape(S, n, o);
    PrintedRead(S, o.blocks, cidrs);
    NothingLostIff(S, n, o);
    forall a: Bits | |a| == 32
      ensures Reaches(cidrs, a) <==> Covered(Elements(o.blocks), a)
    {
      ReachesCovered(cidrs, o.blocks, a);
    }
  }

  /** From text to text: every address of a listed block is in a printed one, exactly under that condition. */
  lemma NoTextLostIff(ipList: seq<string>, ips: seq<Bits>, n: int, o: Outcome, cidrs: seq<string>)
    requires |ips| == |ipList| && forall i :: 0 <= i < |ipList| ==> ParseBlock(ipList[i]) == Some(ips[i])
    requires forall i :: 0 <= i < |ips| ==> |ips[i]| <= 32
    requires Specified(Given(ips), n, o) && n >= 1 && Prints(Printed(cidrs), o)
    ensures (forall a: Bits :: |a| == 32 && Reaches(ipList, a) ==> Reaches(cidrs, a)) <==>
            n >= 2 || !BothHalves(Maximal(Given(ips)))
  {
    NoAddressLostIff(Given(ips), n, o, cidrs);
    forall a: Bits
      ensures Reaches(ipList, a) <==> Covered(Given(ips), a)
    {
      ReachesCovered(ipList, ips, a);
      assert Given(ips) == Elements(ips);
    }
  }

  /** And when it fails, what is printed is the lower half alone. */
  lemma HalfPrinted(S: set<Bits>, o: Outcome, cidrs: seq<string>)
    requires Specified(S, 1, o) && BothHalves(Maximal(S)) && Prints(Printed(cidrs), o)
    ensures cidrs == ["0.0.0.0/1"]
  {
    HalfText();
  }

  lemma HalfText()
    ensures PrintBlock([false]) == "0.0.0.0/1"
  {
    forall i | 0 <= i < 4
      ensures Octets([false])[i] == 0
    {
      HalfOctet(i);
    }
    DottedZeros(Octets([false]));
  }

  lemma DottedZeros(o: seq<nat>)
    requires |o| == 4 && forall i :: 0 <= i < 4 ==> o[i] == 0
    ensures Dotted(o, 1) == "0.0.0.0/1"
  {
    DecimalDigit(0);
    DecimalDigit(1);
    DottedText(o, 1);
  }

  lemma HalfOctet(i: nat)
    requires i < 4
    ensures Octet([false], i) == 0
  {
    assert Padded([false]) == Zeros(32);
    assert Zeros(32)[8 * i..8 * i + 8] == Zeros(8);
    ZerosValue(8);
  }

  // ----- the blocks themselves

  /** The blocks are listed by length, and those of one length by the number that their bits write. */
  lemma BlocksOrdered(S: set<Bits>, n: int, o: Outcome, i: nat, j: nat)
    requires Specified(S, n, o) && o.Blocks? && i < j < |o.blocks|
    ensures var a, b := o.blocks[i], o.blocks[j];
            |a| < |b| || (|a| == |b| && Value(a) < Value(b))
  {
    var a, b := o.blocks[i], o.blocks[j];
    if |a| == |b| { LexValue(a, b); }
  }

  /** A block cut to length L, or to L-1 when its first L-1 bits write a number that is not below v. */
  function CutAt(p: Bits, L: nat, v: nat): Bits
    requires L >= 1
  {
    if |p| < L then p else if Value(p[..L - 1]) < v then p[..L] else p[..L - 1]
  }

  /** The maximal blocks among the given ones, cut in this way. */
  ghost function Truncation(S: set<Bits>, L: nat, v: nat): set<Bits>
    requires L >= 1
  {
    Maximal(set p | p in S :: CutAt(p, L, v))
  }

  ghost predicate IsTruncation(F: set<Bits>, S: set<Bits>, L: nat, v: nat) {
    L >= 1 && F == Truncation(S, L, v)
  }

  lemma CutAtIs(p: Bits, L: nat, pivot: Bits)
    requires L >= 1 && |pivot| == L - 1
    ensures Cut(p, L, pivot) == CutAt(p, L, Value(pivot))
  {
    if |p| >= L { LexValue(p[..L - 1], pivot); }
  }

  lemma TruncationIs(S: set<Bits>, L: nat, pivot: Bits)
    requires L >= 1 && |pivot| == L - 1
    ensures Truncation(S, L, Value(pivot)) == Maximal(CutAll(S, L, pivot))
  {
    forall p | p in S
      ensures Cut(p, L, pivot) == CutAt(p, L, Value(pivot))
    {
      CutAtIs(p, L, pivot);
    }
    assert (set p | p in S :: CutAt(p, L, Value(pivot))) == CutAll(S, L, pivot);
  }

  /** A number too large for a pivot cuts every block to length L: the next level with the least pivot. */
  lemma CutAtTop(p: Bits, L: nat, v: nat)
    requires L >= 1 && v >= Pow2(L - 1)
    ensures CutAt(p, L, v) == CutAt(p, L + 1, 0)
  {
    if |p| == L { assert p[..L] == p; }
  }

  /** Every truncation has a level and a pivot. */
  lemma PivotOf(S: set<Bits>, L: nat, v: nat) returns (M: nat, pivot: Bits)
    requires L >= 1
    ensures M >= 1 && |pivot| == M - 1 && Truncation(S, L, v) == Maximal(CutAll(S, M, pivot))
  {
    if v < Pow2(L - 1) {
      M, pivot := L, Fixed(v, L - 1);
      ValueFixed(v, L - 1);
    } else {
      M, pivot := L + 1, Zeros(L);
      ZerosValue(L);
      forall p | p in S
        ensures CutAt(p, L, v) == CutAt(p, M, 0)
      {
        CutAtTop(p, L, v);
      }
      assert (set p | p in S :: CutAt(p, L, v)) == set p | p in S :: CutAt(p, M, 0);
    }
    TruncationIs(S, M, pivot);
  }

  /** The budget leaves room for both halves of the address space, or for the one that is in use. */
  ghost predicate Sufficient(S: set<Bits>, n: int) {
    n >= 2 || (n == 1 && !BothHalves(Maximal(S)))
  }

  /** With such a budget the result is a truncation of the given blocks, with n blocks or all of them. */
  lemma BlocksAreTruncation(S: set<Bits>, n: int, o: Outcome)
    requires Specified(S, n, o) && Sufficient(S, n)
    ensures o.Blocks? && exists L: nat, v: nat :: IsTruncation(Elements(o.blocks), S, L, v)
    ensures |o.blocks| == if |Maximal(S)| <= n then |Maximal(S)| else n
    ensures |Maximal(S)| <= n ==> Elements(o.blocks) == Maximal(S)
  {
    MergeIsTruncation(S, n);
    assert Elements(o.blocks) == Merge(Maximal(S), n);
    var L, pivot :| IsCut(Merge(Maximal(S), n), S, L, pivot);
    TruncationIs(S, L, pivot);
    assert IsTruncation(Elements(o.blocks), S, L, Value(pivot));
    MergeCount(Maximal(S), n);
    ListedCount(o.blocks, Merge(Maximal(S), n));
  }

  /** And of all truncations with at most n blocks it is the finest: each of the others covers it. */
  lemma BlocksAreFinest(S: set<Bits>, n: int, o: Outcome, L: nat, v: nat)
    requires Specified(S, n, o) && Sufficient(S, n) && L >= 1 && |Truncation(S, L, v)| <= n
    ensures o.Blocks? && Covers(Truncation(S, L, v), Elements(o.blocks))
  {
    var M, pivot := PivotOf(S, L, v);
    MergeIsFinest(S, n, M, pivot);
    assert Elements(o.blocks) == Merge(Maximal(S), n);
  }

  /** A block of G above each block of F. */
  ghost predicate Above(up: map<Bits, Bits>, G: set<Bits>, F: set<Bits>) {
    F <= up.Keys && forall f :: f in F ==> up[f] in G && up[f] <= f
  }

  lemma AboveAll(G: set<Bits>, F: set<Bits>) returns (up: map<Bits, Bits>)
    requires Covers(G, F)
    ensures Above(up, G, F)
  {
    forall f | f in F
      ensures exists g :: g in G && g <= f
    {
      assert Covered(G, f);
    }
    up := map f | f in F :: var g :| g in G && g <= f; g;
  }

  lemma PrefixesEqual(a: Bits, b: Bits)
    requires a <= b && b <= a
    ensures a == b
  {
    assert a == b[..|a|] && b == a[..|b|];
  }

  lemma AboveBoth(F: set<Bits>, G: set<Bits>, up: map<Bits, Bits>, down: map<Bits, Bits>)
    requires Antichain(F) && Above(up, G, F) && Above(down, F, G)
    ensures F <= G
  {
    forall f | f in F
      ensures f in G
    {
      var g := up[f];
      PrefixTransitive(down[g], g, f);
      assert down[g] == f;
      PrefixesEqual(f, g);
    }
  }

  /** Two sets of disjoint blocks that cover each other are the same. */
  lemma CoversBoth(F: set<Bits>, G: set<Bits>)
    requires Antichain(F) && Antichain(G) && Covers(F, G) && Covers(G, F)
    ensures F == G
  {
    var up := AboveAll(G, F);
    var down := AboveAll(F, G);
    AboveBoth(F, G, up, down);
    AboveBoth(G, F, down, up);
  }

  /** That leaves one set of blocks: a truncation with at most n blocks that all the others cover is the result. */
  lemma FinestIsResult(S: set<Bits>, n: int, o: Outcome, L: nat, v: nat)
    requires Specified(S, n, o) && Sufficient(S, n) && L >= 1 && |Truncation(S, L, v)| <= n
    requires forall M: nat, w: nat :: M >= 1 && |Truncation(S, M, w)| <= n ==>
               Covers(Truncation(S, M, w), Truncation(S, L, v))
    ensures o.Blocks? && Elements(o.blocks) == Truncation(S, L, v)
  {
    var F, G := Elements(o.blocks), Truncation(S, L, v);
    BlocksAreTruncation(S, n, o);
    var M: nat, w: nat :| IsTruncation(F, S, M, w);
    ElementsSize(o.blocks);
    assert |Truncation(S, M, w)| <= n;
    BlocksAreFinest(S, n, o, L, v);
    MaximalIsAntichain(set p | p in S :: CutAt(p, L, v));
    MaximalIsAntichain(set p | p in S :: CutAt(p, M, w));
    CoversBoth(F, G);
  }

  lemma {:induction false} ElementsSize(blocks: seq<Bits>)
    ensures |Elements(blocks)| <= |blocks|
    decreases |blocks|
  {
    if blocks != [] {
      var init, last := blocks[..|blocks| - 1], blocks[|blocks| - 1];
      ElementsSize(init);
      assert blocks == init + [last];
      assert Elements(blocks) == Elements(init) + {last};
    }
  }

  /** A smaller budget gives blocks that cover those of a larger one. */
  lemma SmallerBudgetCovers(S: set<Bits>, m: int, om: Outcome, n: int, on: Outcome)
    requires Specified(S, m, om) && Specified(S, n, on) && Sufficient(S, m) && m <= n
    ensures om.Blocks? && on.Blocks? && Covers(Elements(om.blocks), Elements(on.blocks))
  {
    MaximalIsAntichain(S);
    MergeMonotone(Maximal(S), m, n);
    assert Elements(om.blocks) == Merge(Maximal(S), m) && Elements(on.blocks) == Merge(Maximal(S), n);
  }

  /** The specification leaves get_cidrs one result. */
  lemma SpecifiedOnce(S: set<Bits>, n: int, o: Outcome, o': Outcome)
    requires Specified(S, n, o) && Specified(S, n, o')
    ensures o == o'
  {
    MaximalIsAntichain(S);
    if n >= 2 || (n == 1 && !BothHalves(Maximal(S))) {
      ListsOnce(o.blocks, o'.blocks, Merge(Maximal(S), n));
    }
  }

  lemma {:induction false} ListsOnce(a: seq<Bits>, b: seq<Bits>, F: set<Bits>)
    requires Lists(a, F) && Lists(b, F)
    ensures a == b
    decreases |a|
  {
    ListedCount(a, F);
    ListedCount(b, F);
    if a != [] {
      var x, y := a[|a| - 1], b[|b| - 1];
      LastListed(a, F);
      LastListed(b, F);
      LongestUnique(F, x);
      LongestUnique(F, y);
      InitListed(a, F);
      InitListed(b, F);
      ListsOnce(a[..|a| - 1], b[..|b| - 1], F - {x});
      assert a == a[..|a| - 1] + [x] && b == b[..|b| - 1] + [y];
    }
  }

  lemma LastListed(a: seq<Bits>, F: set<Bits>)
    requires Lists(a, F) && a != []
    ensures a[|a| - 1] in F && forall q :: q in F ==> q == a[|a| - 1] || KeyLt(q, a[|a| - 1])
  {
    assert a[|a| - 1] in a;
  }

  lemma InitListed(a: seq<Bits>, F: set<Bits>)
    requires Lists(a, F) && a != []
    ensures Lists(a[..|a| - 1], F - {a[|a| - 1]})
  {
    var init, last := a[..|a| - 1], a[|a| - 1];
    KeyIrreflexive(last);
    assert a == init + [last];
    assert last !in init;
    assert forall p :: p in a <==> p in init || p == last;
  }
}
