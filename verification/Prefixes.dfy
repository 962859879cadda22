/** Bit strings naming CIDR blocks: the prefix order between blocks, the
    (length, bits) order in which the aggregator keeps them, and the
    inclusion-maximal blocks of a set. */
module Prefixes {
  type Bits = seq<bool>

  function Parent(p: Bits): Bits
    requires p != []
  {
    p[..|p| - 1]
  }

  function Last(p: Bits): bool
    requires p != []
  {
    p[|p| - 1]
  }

  function Sibling(p: Bits): Bits
    requires p != []
  {
    Parent(p) + [!Last(p)]
  }

  /** String comparison of two bit strings of one length. */
  predicate Lex(a: Bits, b: Bits)
    requires |a| == |b|
  {
    a != [] && if a[0] == b[0] then Lex(a[1..], b[1..]) else !a[0]
  }

  /** At place k, and not before, a has '0' and b has '1'. */
  ghost predicate DiffersAt(a: Bits, b: Bits, k: int)
    requires |a| == |b|
  {
    0 <= k < |a| && a[..k] == b[..k] && !a[k] && b[k]
  }

  lemma DiffersAtCons(a: Bits, b: Bits, k: nat)
    requires |a| == |b| && a != [] && a[0] == b[0]
    ensures DiffersAt(a, b, k + 1) <==> DiffersAt(a[1..], b[1..], k)
  {
    if k + 1 < |a| {
      assert a[..k + 1] == [a[0]] + a[1..][..k] && b[..k + 1] == [b[0]] + b[1..][..k];
    }
  }

  lemma SameFirst(a: Bits, b: Bits, k: nat)
    requires |a| == |b| && DiffersAt(a, b, k) && k > 0
    ensures a[0] == b[0]
  {
    assert a[..k][0] == b[..k][0];
  }

  /** Strings of one length are ordered by the first place where they differ. */
  lemma {:induction false} LexIff(a: Bits, b: Bits)
    requires |a| == |b|
    ensures Lex(a, b) <==> exists k :: DiffersAt(a, b, k)
    decreases |a|
  {
    if a != [] && a[0] == b[0] {
      LexIff(a[1..], b[1..]);
      if k :| DiffersAt(a[1..], b[1..], k) {
        DiffersAtCons(a, b, k);
        assert DiffersAt(a, b, k + 1);
      }
      if k :| DiffersAt(a, b, k) {
        assert k > 0;
        DiffersAtCons(a, b, k - 1);
      }
    } else if a != [] {
      if Lex(a, b) { assert DiffersAt(a, b, 0); }
      if k :| DiffersAt(a, b, k) {
        if k > 0 { SameFirst(a, b, k); }
      }
    }
  }

  /** Comparison of the sort keys [len(x), x]. */
  predicate KeyLt(a: Bits, b: Bits) {
    |a| < |b| || (|a| == |b| && Lex(a, b))
  }

  lemma LexTotal(a: Bits, b: Bits)
    requires |a| == |b|
    ensures Lex(a, b) || Lex(b, a) || a == b
  {
    if a != [] && a[0] == b[0] {
      LexTotal(a[1..], b[1..]);
      assert a == [a[0]] + a[1..] && b == [b[0]] + b[1..];
    }
  }

  lemma LexIrreflexive(a: Bits)
    ensures !Lex(a, a)
  {
  }

  lemma LexTransitive(a: Bits, b: Bits, c: Bits)
    requires |a| == |b| == |c| && Lex(a, b) && Lex(b, c)
    ensures Lex(a, c)
  {
  }

  /** Cutting two strings to one length never reverses their order. */
  lemma LexCut(a: Bits, b: Bits, k: nat)
    requires |a| == |b| && k <= |a| && Lex(a, b)
    ensures a[..k] == b[..k] || Lex(a[..k], b[..k])
  {
    if k > 0 && a[0] == b[0] {
      LexCut(a[1..], b[1..], k - 1);
      assert a[..k][1..] == a[1..][..k - 1] && b[..k][1..] == b[1..][..k - 1];
      assert a[..k] == [a[0]] + a[..k][1..] && b[..k] == [b[0]] + b[..k][1..];
    }
  }

  lemma KeyTotal(a: Bits, b: Bits)
    ensures KeyLt(a, b) || KeyLt(b, a) || a == b
  {
    if |a| == |b| { LexTotal(a, b); }
  }

  lemma KeyIrreflexive(a: Bits)
    ensures !KeyLt(a, a)
  {
    LexIrreflexive(a);
  }

  lemma KeyTransitive(a: Bits, b: Bits, c: Bits)
    requires KeyLt(a, b) && KeyLt(b, c)
    ensures KeyLt(a, c)
  {
    if |a| == |b| == |c| { LexTransitive(a, b, c); }
  }

  /** A proper prefix of a non-empty string is a prefix of its parent. */
  lemma PrefixOfParent(q: Bits, p: Bits)
    requires q <= p && q != p
    ensures p != [] && q <= Parent(p)
  {
    assert |q| < |p|;
    assert Parent(p)[..|q|] == p[..|q|];
  }

  lemma ParentOfChild(p: Bits, b: bool)
    ensures Parent(p + [b]) == p && Last(p + [b]) == b && p <= p + [b]
  {
  }

  lemma ProperPrefixShorter(p: Bits, q: Bits)
    requires p <= q && p != q
    ensures |p| < |q|
  {
    assert p == q[..|p|];
  }

  lemma PrefixTransitive(a: Bits, b: Bits, c: Bits)
    ensures a <= b && b <= c ==> a <= c
  {
    if a <= b && b <= c { assert c[..|a|] == c[..|b|][..|a|]; }
  }

  /** Two prefixes of one string are comparable. */
  lemma PrefixesComparable(a: Bits, b: Bits, c: Bits)
    requires a <= c && b <= c && |a| <= |b|
    ensures a <= b
  {
    assert c[..|b|][..|a|] == c[..|a|];
  }

  /** Below its parent, a block of the parent's length plus one is either the block or its sibling. */
  lemma TwoChildren(p: Bits, q: Bits)
    requires p != [] && |q| == |p| && Parent(p) <= q
    ensures q == p || q == Sibling(p)
  {
    assert q == Parent(p) + [Last(q)] && p == Parent(p) + [Last(p)];
  }

  ghost predicate Antichain(F: set<Bits>) {
    forall p, q :: p in F && q in F && p <= q ==> p == q
  }

  /** Some block of F contains the block q. */
  ghost predicate Covered(F: set<Bits>, q: Bits) {
    exists f :: f in F && f <= q
  }

  /** Every address of a block of F is in a block of G. */
  ghost predicate Covers(G: set<Bits>, F: set<Bits>) {
    forall f :: f in F ==> Covered(G, f)
  }

  /** Every block of G contains a block of F. */
  ghost predicate PrefixesOf(G: set<Bits>, F: set<Bits>) {
    forall g :: g in G ==> exists f :: f in F && g <= f
  }

  lemma CoversReflexive(F: set<Bits>)
    ensures Covers(F, F)
  {
    assert forall f: Bits :: f in F ==> f <= f;
  }

  lemma PrefixesOfReflexive(F: set<Bits>)
    ensures PrefixesOf(F, F)
  {
    assert forall f: Bits :: f in F ==> f <= f;
  }

  lemma CoversTransitive(H: set<Bits>, G: set<Bits>, F: set<Bits>)
    requires Covers(H, G) && Covers(G, F)
    ensures Covers(H, F)
  {
    forall f | f in F
      ensures Covered(H, f)
    {
      var g :| g in G && g <= f;
      assert Covered(H, g);
      var h :| h in H && h <= g;
      PrefixTransitive(h, g, f);
    }
  }

  lemma PrefixesOfTransitive(H: set<Bits>, G: set<Bits>, F: set<Bits>)
    requires PrefixesOf(H, G) && PrefixesOf(G, F)
    ensures PrefixesOf(H, F)
  {
    forall h | h in H
      ensures exists f :: f in F && h <= f
    {
      var g :| g in G && h <= g;
      var f :| f in F && g <= f;
      PrefixTransitive(h, g, f);
    }
  }

  /** The inclusion-maximal blocks of S: those with no proper prefix in S. */
  ghost function Maximal(S: set<Bits>): set<Bits> {
    set p | p in S && forall q :: q in S && q <= p ==> q == p
  }

  lemma MaximalIsAntichain(S: set<Bits>)
    ensures Antichain(Maximal(S)) && Maximal(S) <= S
  {
  }

  lemma MaximalCovers(S: set<Bits>, p: Bits)
    requires p in S
    ensures Covered(Maximal(S), p)
    decreases |p|
  {
    if p !in Maximal(S) {
      var q :| q in S && q <= p && q != p;
      MaximalCovers(S, q);
      var f :| f in Maximal(S) && f <= q;
      PrefixTransitive(f, q, p);
    }
  }

  lemma MaximalCoversAll(S: set<Bits>)
    ensures Covers(Maximal(S), S)
  {
    forall p | p in S
      ensures Covered(Maximal(S), p)
    {
      MaximalCovers(S, p);
    }
  }

  /** An antichain drawn from S that covers S is the set of maximal blocks of S. */
  lemma MaximalUnique(F: set<Bits>, S: set<Bits>)
    requires Antichain(F) && F <= S && Covers(F, S)
    ensures F == Maximal(S)
  {
    forall p | p in S
      ensures p in F <==> p in Maximal(S)
    {
      var f :| f in F && f <= p;
      if p in F {
        forall q | q in S && q <= p
          ensures q == p
        {
          var g :| g in F && g <= q;
          PrefixTransitive(g, q, p);
          assert g == p;
        }
      }
    }
  }

  /** Every non-empty finite set of blocks has a last one in key order. */
  lemma LongestExists(F: set<Bits>)
    requires F != {}
    ensures exists m :: m in F && forall q :: q in F ==> q == m || KeyLt(q, m)
  {
    var x :| x in F;
    var R := F - {x};
    if R == {} {
      assert forall q :: q in F ==> q == x || q in R;
    } else {
      LongestExists(R);
      var m :| m in R && forall q :: q in R ==> q == m || KeyLt(q, m);
      KeyTotal(x, m);
      var top := if KeyLt(m, x) then x else m;
      forall q | q in F
        ensures q == top || KeyLt(q, top)
      {
        assert q == x || q in R;
        if q in R && q != m && top == x { KeyTransitive(q, m, x); }
      }
    }
  }

  /** The block of F that comes last in (length, bits) order. */
  ghost function Longest(F: set<Bits>): (m: Bits)
    requires F != {}
    ensures m in F && forall q :: q in F ==> q == m || KeyLt(q, m)
  {
    LongestExists(F);
    var m :| m in F && forall q :: q in F ==> q == m || KeyLt(q, m);
    m
  }

  lemma LongestUnique(F: set<Bits>, m: Bits)
    requires m in F && forall q :: q in F ==> q == m || KeyLt(q, m)
    ensures m == Longest(F)
  {
    var l := Longest(F);
    if l != m {
      KeyTransitive(l, m, l);
      KeyIrreflexive(l);
    }
  }

  /** Sum of the prefix lengths of a set of blocks. */
  ghost function SumLen(F: set<Bits>): nat {
    if F == {} then 0 else
      var x :| x in F;
      |x| + SumLen(F - {x})
  }

  lemma {:induction false} SumLenRemove(F: set<Bits>, x: Bits)
    requires x in F
    ensures SumLen(F) == |x| + SumLen(F - {x})
    decreases |F|
  {
    var y :| y in F && SumLen(F) == |y| + SumLen(F - {y});
    if y != x {
      SumLenRemove(F - {y}, x);
      SumLenRemove(F - {x}, y);
      assert F - {y} - {x} == F - {x} - {y};
    }
  }
}
