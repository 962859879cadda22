/** What merging CIDR blocks means, on sets of blocks: the longest block and its
    sibling give way to their parent until at most n blocks remain. */
module CidrMerge {
  import opened Prefixes

  /** One turn of merging. */
  ghost function Step(F: set<Bits>): set<Bits>
    requires F != {} && Longest(F) != []
  {
    var x := Longest(F);
    F - {x, Sibling(x)} + {Parent(x)}
  }

  lemma LongestNotRoot(F: set<Bits>)
    requires Antichain(F) && |F| >= 2
    ensures F != {} && Longest(F) != []
  {
    assert [] in F ==> |F - {[]}| == |F| - 1;
    assert [] !in F ==> F - {[]} == F;
    assert |F - {[]}| > 0;
    var q :| q in F - {[]};
    assert KeyLt([], q);
    assert !KeyLt(q, []);
  }

  /** What lies in F under the parent of its longest block: that block and perhaps its sibling. */
  lemma BelowParent(F: set<Bits>, q: Bits)
    requires F != {} && Longest(F) != [] && Antichain(F)
    requires q in F
    ensures Parent(Longest(F)) <= q ==> q == Longest(F) || q == Sibling(Longest(F))
  {
    var x := Longest(F);
    assert Parent(x) <= x;
    assert q == x || KeyLt(q, x);
    if Parent(x) <= q {
      assert |q| == |x|;
      TwoChildren(x, q);
    }
  }

  /** The parent of the longest block is new, and disjoint from all blocks but the ones it replaces. */
  lemma ParentIsNew(F: set<Bits>, q: Bits)
    requires Antichain(F) && F != {} && Longest(F) != []
    requires q in F - {Longest(F), Sibling(Longest(F))}
    ensures !(q <= Parent(Longest(F))) && !(Parent(Longest(F)) <= q)
  {
    var x := Longest(F);
    BelowParent(F, q);
    assert Parent(x) <= x;
    PrefixTransitive(q, Parent(x), x);
  }

  /** A turn keeps the blocks disjoint. */
  lemma StepAntichain(F: set<Bits>)
    requires Antichain(F) && F != {} && Longest(F) != []
    ensures Antichain(Step(F)) && Parent(Longest(F)) !in F
  {
    var x := Longest(F);
    assert Parent(x) <= x && Parent(x) != x;
    forall a, b | a in Step(F) && b in Step(F) && a <= b
      ensures a == b
    {
      if a != Parent(x) && b == Parent(x) { ParentIsNew(F, a); }
      if b != Parent(x) && a == Parent(x) { ParentIsNew(F, b); }
    }
  }

  lemma DropOne(F: set<Bits>, x: Bits)
    requires x in F
    ensures |F - {x}| == |F| - 1 && SumLen(F - {x}) + |x| == SumLen(F)
  {
    SumLenRemove(F, x);
  }

  lemma MinusPair(F: set<Bits>, x: Bits, s: Bits)
    ensures F - {x, s} == F - {x} - {s}
    ensures s !in F ==> F - {x, s} == F - {x}
  {
  }

  /** The sizes of a set without a block and perhaps its sibling. */
  lemma DropPair(F: set<Bits>, x: Bits, s: Bits)
    requires x in F && s != x
    ensures |F - {x, s}| == if s in F then |F| - 2 else |F| - 1
    ensures SumLen(F - {x, s}) + |x| <= SumLen(F)
  {
    MinusPair(F, x, s);
    DropOne(F, x);
    if s in F { DropOne(F - {x}, s); }
  }

  /** It replaces one or two blocks by one and shortens the prefixes in total. */
  lemma StepShape(F: set<Bits>)
    requires Antichain(F) && F != {} && Longest(F) != []
    ensures Antichain(Step(F))
    ensures |Step(F)| == if Sibling(Longest(F)) in F then |F| - 1 else |F|
    ensures SumLen(Step(F)) < SumLen(F)
  {
    var x := Longest(F);
    var p, s := Parent(x), Sibling(x);
    StepAntichain(F);
    assert Last(s) == !Last(x);
    DropPair(F, x, s);
    DropOne(Step(F), p);
    assert Step(F) - {p} == F - {x, s};
  }

  /** A turn loses no address. */
  lemma StepCovers(F: set<Bits>)
    requires Antichain(F) && F != {} && Longest(F) != []
    ensures Covers(Step(F), F)
  {
    var x := Longest(F);
    forall f | f in F
      ensures Covered(Step(F), f)
    {
      if f == x || f == Sibling(x) {
        assert Parent(x) in Step(F) && Parent(x) <= f;
      } else {
        assert f in Step(F) && f <= f;
      }
    }
  }

  /** A turn invents no block. */
  lemma StepPrefixes(F: set<Bits>)
    requires Antichain(F) && F != {} && Longest(F) != []
    ensures PrefixesOf(Step(F), F)
  {
    var x := Longest(F);
    forall g | g in Step(F)
      ensures exists f :: f in F && g <= f
    {
      if g == Parent(x) {
        assert x in F && g <= x;
      } else {
        assert g in F && g <= g;
      }
    }
  }

  /** Merging down to at most n blocks. */
  ghost function Merge(F: set<Bits>, n: nat): (R: set<Bits>)
    requires Antichain(F) && n >= 1
    ensures Antichain(R)
    decreases SumLen(F)
  {
    if |F| <= n then F else
      LongestNotRoot(F);
      StepShape(F);
      Merge(Step(F), n)
  }

  /** Merging ends with exactly n blocks, or with all of them when there are fewer. */
  lemma {:induction false} MergeCount(F: set<Bits>, n: nat)
    requires Antichain(F) && n >= 1
    ensures |Merge(F, n)| == if |F| <= n then |F| else n
    decreases SumLen(F)
  {
    if |F| > n {
      LongestNotRoot(F);
      StepShape(F);
      MergeCount(Step(F), n);
    }
  }

  /** Every merged-away block stays covered. */
  lemma {:induction false} MergeCovers(F: set<Bits>, n: nat)
    requires Antichain(F) && n >= 1
    ensures Covers(Merge(F, n), F)
    decreases SumLen(F)
  {
    if |F| <= n {
      CoversReflexive(F);
    } else {
      LongestNotRoot(F);
      StepShape(F);
      StepCovers(F);
      MergeCovers(Step(F), n);
      CoversTransitive(Merge(F, n), Step(F), F);
    }
  }

  /** Every result is a prefix of a given block. */
  lemma {:induction false} MergePrefixes(F: set<Bits>, n: nat)
    requires Antichain(F) && n >= 1
    ensures PrefixesOf(Merge(F, n), F)
    decreases SumLen(F)
  {
    if |F| <= n {
      PrefixesOfReflexive(F);
    } else {
      LongestNotRoot(F);
      StepShape(F);
      StepPrefixes(F);
      MergePrefixes(Step(F), n);
      PrefixesOfTransitive(Merge(F, n), Step(F), F);
    }
  }

  /** Merging to fewer blocks continues merging to more. */
  lemma {:induction false} MergeContinues(F: set<Bits>, m: nat, n: nat)
    requires Antichain(F) && 1 <= m <= n
    ensures Merge(F, m) == Merge(Merge(F, n), m)
    decreases SumLen(F)
  {
    if |F| > n {
      LongestNotRoot(F);
      StepShape(F);
      MergeContinues(Step(F), m, n);
    }
  }

  /** Hence a smaller budget gives wider blocks: the result for m covers the result for n. */
  lemma MergeMonotone(F: set<Bits>, m: nat, n: nat)
    requires Antichain(F) && 1 <= m <= n
    ensures Covers(Merge(F, m), Merge(F, n))
  {
    MergeContinues(F, m, n);
    MergeCovers(Merge(F, n), m);
  }

  // ----- the closed form: merging is truncation at one level and one pivot

  /** Cut a block to length L, or to L-1 when its (L-1)-bit prefix is at or above the pivot. */
  function Cut(p: Bits, L: nat, pivot: Bits): Bits
    requires L >= 1 && |pivot| == L - 1
  {
    if |p| < L then p
    else if Lex(p[..L - 1], pivot) then p[..L]
    else p[..L - 1]
  }

  ghost function CutAll(S: set<Bits>, L: nat, pivot: Bits): set<Bits>
    requires L >= 1 && |pivot| == L - 1
  {
    set p | p in S :: Cut(p, L, pivot)
  }

  /** F is the set of maximal blocks among the cut ones. */
  ghost predicate IsCut(F: set<Bits>, S: set<Bits>, L: nat, pivot: Bits) {
    L >= 1 && |pivot| == L - 1 && F == Maximal(CutAll(S, L, pivot))
  }

  lemma CutIsPrefix(p: Bits, L: nat, pivot: Bits)
    requires L >= 1 && |pivot| == L - 1
    ensures Cut(p, L, pivot) <= p && |Cut(p, L, pivot)| <= L
  {
  }

  /** The next cut after merging away the longest block x: level |x|, pivot the parent of x. */
  lemma CutNext(F: set<Bits>, S: set<Bits>, L: nat, pivot: Bits)
    requires IsCut(F, S, L, pivot) && F != {} && Longest(F) != []
    ensures IsCut(Step(F), S, |Longest(F)|, Parent(Longest(F)))
  {
    var C' := CutAll(S, |Longest(F)|, Parent(Longest(F)));
    MaximalIsAntichain(CutAll(S, L, pivot));
    StepShape(F);
    CutNextCovers(F, S, L, pivot);
    forall g | g in Step(F)
      ensures g in C'
    {
      NextIsCut(F, S, L, pivot, g);
    }
    MaximalUnique(Step(F), C');
  }

  lemma CutNextCovers(F: set<Bits>, S: set<Bits>, L: nat, pivot: Bits)
    requires IsCut(F, S, L, pivot) && Antichain(F) && F != {} && Longest(F) != []
    ensures Covers(Step(F), CutAll(S, |Longest(F)|, Parent(Longest(F))))
  {
    var x := Longest(F);
    forall p | p in S
      ensures Covered(Step(F), Cut(p, |x|, Parent(x)))
    {
      var c := Cut(p, L, pivot);
      assert c in CutAll(S, L, pivot);
      MaximalCovers(CutAll(S, L, pivot), c);
      var f :| f in F && f <= c;
      PrefixTransitive(f, c, p);
      NextCovers(F, f, p);
    }
  }

  /** A block f of F above p leaves, after the turn, a block above the next cut of p. */
  lemma NextCovers(F: set<Bits>, f: Bits, p: Bits)
    requires Antichain(F) && F != {} && Longest(F) != []
    requires f in F && f <= p
    ensures Covered(Step(F), Cut(p, |Longest(F)|, Parent(Longest(F))))
  {
    var x := Longest(F);
    var M, pivot' := |x|, Parent(x);
    var c := Cut(p, M, pivot');
    if f == x || f == Sibling(x) {
      assert p[..M - 1] == f[..M - 1] == pivot';
      LexIrreflexive(pivot');
      assert c == pivot' && pivot' in Step(F);
    } else {
      assert f in Step(F);
      if |f| == M && !Lex(p[..M - 1], pivot') {
        // f is at the longest level but not above x, so its parent is not above the pivot
        assert Lex(f, x);
        LexCut(f, x, M - 1);
        assert f[..M - 1] == p[..M - 1];
        TwoChildren(x, f);
      }
      assert |f| <= |c|;
      PrefixesComparable(f, c, p);
    }
  }

  /** Every block after the turn is the next cut of some block of S. */
  lemma NextIsCut(F: set<Bits>, S: set<Bits>, L: nat, pivot: Bits, g: Bits)
    requires IsCut(F, S, L, pivot) && Antichain(F) && F != {} && Longest(F) != []
    requires g in Step(F)
    ensures g in CutAll(S, |Longest(F)|, Parent(Longest(F)))
  {
    var x := Longest(F);
    var pivot' := Parent(x);
    assert x in CutAll(S, L, pivot);
    var q :| q in S && x == Cut(q, L, pivot);
    CutIsPrefix(q, L, pivot);
    if g == pivot' {
      assert q[..|x| - 1] == pivot';
      LexIrreflexive(pivot');
      assert Cut(q, |x|, pivot') == g;
    } else {
      assert g in CutAll(S, L, pivot);
      var p :| p in S && g == Cut(p, L, pivot);
      assert |x| == L ==> Lex(pivot', pivot) by {
        if |x| == L { assert q[..L - 1] == pivot'; }
      }
      NextKeeps(F, g, p, L, pivot);
      assert Cut(p, |x|, pivot') == g;
    }
  }

  /** A block of F that survives the turn is the next cut of whatever it was the cut of. */
  lemma NextKeeps(F: set<Bits>, g: Bits, p: Bits, L: nat, pivot: Bits)
    requires Antichain(F) && F != {} && Longest(F) != []
    requires L >= 1 && |pivot| == L - 1 && |Longest(F)| <= L
    requires |Longest(F)| == L ==> Lex(Parent(Longest(F)), pivot)
    requires g in F && g == Cut(p, L, pivot)
    requires g != Longest(F) && g != Sibling(Longest(F))
    ensures Cut(p, |Longest(F)|, Parent(Longest(F))) == g
  {
    var x := Longest(F);
    var M, pivot' := |x|, Parent(x);
    CutIsPrefix(p, L, pivot);
    if |g| == M {
      assert Lex(g, x);
      LexCut(g, x, M - 1);
      if g[..M - 1] == pivot' { TwoChildren(x, g); }
      assert p[..M - 1] == g[..M - 1];
    } else if |p| >= M {
      // then g is p cut to M-1 on the current level, at or above the old pivot
      assert M == L && |g| == M - 1;
      if Lex(g, pivot') { LexTransitive(g, pivot', pivot); }
    }
  }

  /** Merging from one cut of S ends at a cut of S. */
  lemma {:induction false} MergeIsCut(F: set<Bits>, S: set<Bits>, n: nat, L: nat, pivot: Bits)
    returns (L': nat, pivot': Bits)
    requires Antichain(F) && n >= 1 && IsCut(F, S, L, pivot)
    ensures IsCut(Merge(F, n), S, L', pivot')
    decreases SumLen(F)
  {
    if |F| <= n {
      return L, pivot;
    }
    LongestNotRoot(F);
    StepShape(F);
    CutNext(F, S, L, pivot);
    L', pivot' := MergeIsCut(Step(F), S, n, |Longest(F)|, Parent(Longest(F)));
  }

  /** A cut that touches nothing: one above every length. */
  lemma UncutIsCut(S: set<Bits>) returns (L: nat, pivot: Bits)
    ensures IsCut(Maximal(S), S, L, pivot)
  {
    L := SomeBound(S) + 1;
    pivot := seq(L - 1, _ => false);
    assert forall p :: p in S ==> Cut(p, L, pivot) == p;
    assert CutAll(S, L, pivot) == S;
  }

  /** Merging is truncation: the result is the set of maximal blocks among the given
      ones cut to one length, or one bit shorter from some pivot on. */
  lemma MergeIsTruncation(S: set<Bits>, n: nat)
    requires n >= 1
    ensures Antichain(Maximal(S))
    ensures exists L, pivot :: IsCut(Merge(Maximal(S), n), S, L, pivot)
  {
    MaximalIsAntichain(S);
    var L, pivot := UncutIsCut(S);
    var L', pivot' := MergeIsCut(Maximal(S), S, n, L, pivot);
  }

  /** A length no block of S exceeds. */
  ghost function SomeBound(S: set<Bits>): (top: nat)
    ensures forall p :: p in S ==> |p| <= top
  {
    if S == {} then 0 else |Longest(S)|
  }

  // ----- and the finest one that fits

  /** A block of a cut G that properly contains a block of another cut F was itself truncated. */
  lemma TruncatedBlock(F: set<Bits>, G: set<Bits>, S: set<Bits>, L: nat, pivot: Bits, M: nat, pivot': Bits,
                       f: Bits, g: Bits)
    requires IsCut(F, S, L, pivot) && IsCut(G, S, M, pivot')
    requires f in F && g in G && g <= f && g != f
    ensures |g| == M || (|g| == M - 1 && !Lex(g, pivot'))
  {
    var p :| p in S && g == Cut(p, M, pivot');
    if p == g {
      var c := Cut(p, L, pivot);
      CutIsPrefix(p, L, pivot);
      assert c in CutAll(S, L, pivot);
      assert f in CutAll(S, L, pivot);
      PrefixTransitive(c, p, f);
      assert c == f;
    }
  }

  /** A whole block at the level of a cut lies below its pivot. */
  lemma UntruncatedBlock(G: set<Bits>, S: set<Bits>, M: nat, pivot': Bits, x: Bits)
    requires IsCut(G, S, M, pivot') && x in G
    ensures |x| <= M && (|x| == M ==> Lex(x[..M - 1], pivot'))
  {
    var q :| q in S && x == Cut(q, M, pivot');
    CutIsPrefix(q, M, pivot');
    if |x| == M { assert x[..M - 1] == q[..M - 1]; }
  }

  /** With fewer blocks, a covering set contains a strictly wider block. */
  lemma WiderBlock(F: set<Bits>, G: set<Bits>) returns (f: Bits, g: Bits)
    requires Covers(G, F) && |G| < |F|
    ensures f in F && g in G && g <= f && g != f
  {
    if F <= G { SubsetSize(F, G); }
    f :| f in F && f !in G;
    assert Covered(G, f);
    g :| g in G && g <= f;
  }

  lemma SubsetSize<T>(A: set<T>, B: set<T>)
    requires A <= B
    ensures |A| <= |B|
  {
    assert |B - A| + |A| == |B| by { assert B == (B - A) + A; }
  }

  /** A cut G above F with fewer blocks cannot keep the longest block of F whole. */
  lemma LongestIsTruncated(F: set<Bits>, G: set<Bits>, S: set<Bits>, L: nat, pivot: Bits, M: nat, pivot': Bits)
    requires IsCut(F, S, L, pivot) && IsCut(G, S, M, pivot') && Covers(G, F)
    requires |G| < |F| && Longest(F) != []
    ensures Longest(F) !in G
  {
    var x := Longest(F);
    MaximalIsAntichain(CutAll(S, M, pivot'));
    if x in G {
      var f, g := WiderBlock(F, G);
      TruncatedBlock(F, G, S, L, pivot, M, pivot', f, g);
      UntruncatedBlock(G, S, M, pivot', x);
      assert f == x || KeyLt(f, x);
      if f == x {
        assert false;
      }
      LexCut(f, x, M - 1);
      assert f[..M - 1] == g;
      if g != x[..M - 1] { LexTransitive(g, x[..M - 1], pivot'); }
      assert false;
    }
  }

  /** A cut with fewer blocks than F, above F, is also above the next turn of F. */
  lemma CoarserCoversStep(F: set<Bits>, G: set<Bits>, S: set<Bits>, L: nat, pivot: Bits, M: nat, pivot': Bits)
    requires IsCut(F, S, L, pivot) && IsCut(G, S, M, pivot') && Covers(G, F)
    requires |G| < |F| && Longest(F) != []
    ensures Covers(G, Step(F))
  {
    var x := Longest(F);
    LongestIsTruncated(F, G, S, L, pivot, M, pivot');
    assert Covered(G, x);
    var y :| y in G && y <= x;
    PrefixOfParent(y, x);
    assert Covered(G, Parent(x));
  }

  /** Every cut with at most n blocks that is above F is above what F merges to. */
  lemma {:induction false} CoarserCoversMerge(F: set<Bits>, G: set<Bits>, S: set<Bits>, n: nat,
                                              L: nat, pivot: Bits, M: nat, pivot': Bits)
    requires Antichain(F) && n >= 1 && IsCut(F, S, L, pivot) && IsCut(G, S, M, pivot')
    requires Covers(G, F) && |G| <= n
    ensures Covers(G, Merge(F, n))
    decreases SumLen(F)
  {
    if |F| > n {
      LongestNotRoot(F);
      StepShape(F);
      CutNext(F, S, L, pivot);
      CoarserCoversStep(F, G, S, L, pivot, M, pivot');
      CoarserCoversMerge(Step(F), G, S, n, |Longest(F)|, Parent(Longest(F)), M, pivot');
    }
  }

  /** Of all truncations of S with at most n blocks, merging finds the finest: every
      other one covers it. */
  lemma MergeIsFinest(S: set<Bits>, n: nat, M: nat, pivot': Bits)
    requires n >= 1 && M >= 1 && |pivot'| == M - 1
    requires |Maximal(CutAll(S, M, pivot'))| <= n
    ensures Antichain(Maximal(S))
    ensures Covers(Maximal(CutAll(S, M, pivot')), Merge(Maximal(S), n))
  {
    var C := CutAll(S, M, pivot');
    MaximalIsAntichain(S);
    var L, pivot := UncutIsCut(S);
    forall f | f in Maximal(S)
      ensures Covered(Maximal(C), f)
    {
      assert Cut(f, M, pivot') in C;
      MaximalCovers(C, Cut(f, M, pivot'));
      CutIsPrefix(f, M, pivot');
      var g :| g in Maximal(C) && g <= Cut(f, M, pivot');
      PrefixTransitive(g, Cut(f, M, pivot'), f);
    }
    CoarserCoversMerge(Maximal(S), Maximal(C), S, n, L, pivot, M, pivot');
  }
}
