/** get_cidrs: the trie and the sorted worklist that are kept in step while the
    longest blocks are merged, proved against CidrMerge. */
module CidrAggregate {
  import opened Options
  import opened Sequences
  import opened Prefixes
  import opened CidrTrie

  // ----- the worklist, sorted by (length, bits)

  predicate Sorted(list: seq<Entry>) {
    forall i, j :: 0 <= i < j < |list| ==> !KeyLt(list[j].ip, list[i].ip)
  }

  ghost predicate StrictlySorted(list: seq<Entry>) {
    forall i, j :: 0 <= i < j < |list| ==> KeyLt(list[i].ip, list[j].ip)
  }

  lemma StrictIsSorted(list: seq<Entry>)
    requires StrictlySorted(list)
    ensures Sorted(list)
  {
    forall i, j | 0 <= i < j < |list|
      ensures !KeyLt(list[j].ip, list[i].ip)
    {
      KeyAsymmetric(list[i].ip, list[j].ip);
    }
  }

  lemma KeyAsymmetric(a: Bits, b: Bits)
    ensures !(KeyLt(a, b) && KeyLt(b, a))
  {
    KeyIrreflexive(a);
    if KeyLt(a, b) && KeyLt(b, a) { KeyTransitive(a, b, a); }
  }

  /** How many entries of a sorted list come before a new entry with this key. */
  function BisectRight(list: seq<Entry>, key: Bits): (pos: nat)
    requires Sorted(list)
    ensures pos <= |list|
    ensures forall i :: 0 <= i < pos ==> !KeyLt(key, list[i].ip)
    ensures forall i :: pos <= i < |list| ==> KeyLt(key, list[i].ip)
  {
    if list == [] then 0
    else if KeyLt(key, list[|list| - 1].ip) then BisectRight(list[..|list| - 1], key)
    else
      AllNotAfter(list, key);
      |list|
  }

  lemma AllNotAfter(list: seq<Entry>, key: Bits)
    requires Sorted(list) && list != [] && !KeyLt(key, list[|list| - 1].ip)
    ensures forall i :: 0 <= i < |list| ==> !KeyLt(key, list[i].ip)
  {
    var last := list[|list| - 1].ip;
    forall i | 0 <= i < |list|
      ensures !KeyLt(key, list[i].ip)
    {
      KeyTotal(list[i].ip, last);
      if KeyLt(key, list[i].ip) && KeyLt(list[i].ip, last) { KeyTransitive(key, list[i].ip, last); }
    }
  }

  /** bisect.insort: after the entries with keys that are not above its own, before the others. */
  function Insort(list: seq<Entry>, e: Entry): (r: seq<Entry>)
    requires Sorted(list)
    ensures multiset(r) == multiset(list) + multiset{e}
    ensures exists pos :: 0 <= pos <= |list| && r == list[..pos] + [e] + list[pos..] &&
              (forall i :: 0 <= i < pos ==> !KeyLt(e.ip, list[i].ip)) &&
              (forall i :: pos <= i < |list| ==> KeyLt(e.ip, list[i].ip))
  {
    var pos := BisectRight(list, e.ip);
    assert list == list[..pos] + list[pos..];
    list[..pos] + [e] + list[pos..]
  }

  lemma InsortSorted(list: seq<Entry>, e: Entry)
    requires Sorted(list)
    ensures Sorted(Insort(list, e))
  {
    var pos := BisectRight(list, e.ip);
    var r := Insort(list, e);
    forall i | pos <= i < |list|
      ensures !KeyLt(list[i].ip, e.ip)
    {
      KeyAsymmetric(list[i].ip, e.ip);
    }
  }

  /** Python's stable list.sort on the key. */
  function SortByKey(list: seq<Entry>): (r: seq<Entry>)
    ensures Sorted(r) && multiset(r) == multiset(list)
  {
    if list == [] then [] else
      assert list == list[..|list| - 1] + [list[|list| - 1]];
      InsortSorted(SortByKey(list[..|list| - 1]), list[|list| - 1]);
      Insort(SortByKey(list[..|list| - 1]), list[|list| - 1])
  }

  lemma SortPush(init: seq<Entry>, e: Entry)
    ensures SortByKey(init + [e]) == Insort(SortByKey(init), e)
  {
    assert (init + [e])[..|init|] == init;
  }

  /** The entries with one key, in their order. */
  function WithKey(list: seq<Entry>, key: Bits): seq<Entry> {
    if list == [] then []
    else WithKey(list[..|list| - 1], key) + if list[|list| - 1].ip == key then [list[|list| - 1]] else []
  }

  lemma WithKeyPush(list: seq<Entry>, e: Entry, key: Bits)
    ensures WithKey(list + [e], key) == WithKey(list, key) + if e.ip == key then [e] else []
  {
    assert (list + [e])[..|list|] == list;
  }

  lemma {:induction false} WithKeyConcat(a: seq<Entry>, b: seq<Entry>, key: Bits)
    ensures WithKey(a + b, key) == WithKey(a, key) + WithKey(b, key)
    decreases |b|
  {
    if b == [] {
      assert a + b == a;
    } else {
      var init, last := b[..|b| - 1], b[|b| - 1];
      assert b == init + [last];
      WithKeyConcat(a, init, key);
      ConcatAssociates(a, init, [last]);
      WithKeyPush(a + init, last, key);
      WithKeyPush(init, last, key);
      ConcatAssociates(WithKey(a, key), WithKey(init, key), if last.ip == key then [last] else []);
    }
  }

  lemma {:induction false} WithKeyNone(list: seq<Entry>, key: Bits)
    requires forall i :: 0 <= i < |list| ==> list[i].ip != key
    ensures WithKey(list, key) == []
    decreases |list|
  {
    if list != [] { WithKeyNone(list[..|list| - 1], key); }
  }

  lemma InsortStable(list: seq<Entry>, e: Entry, key: Bits)
    requires Sorted(list)
    ensures WithKey(Insort(list, e), key) == WithKey(list + [e], key)
  {
    var pos := BisectRight(list, e.ip);
    assert list == list[..pos] + list[pos..];
    KeyIrreflexive(e.ip);
    StableBetween(list[..pos], e, list[pos..], key);
  }

  /** An entry that moves over others with different keys keeps its place among those with its own. */
  lemma StableBetween(low: seq<Entry>, e: Entry, high: seq<Entry>, key: Bits)
    requires forall i :: 0 <= i < |high| ==> high[i].ip != e.ip
    ensures WithKey(low + [e] + high, key) == WithKey(low + high + [e], key)
  {
    WithKeyConcat(low + [e], high, key);
    WithKeyConcat(low, [e], key);
    WithKeyConcat(low + high, [e], key);
    WithKeyConcat(low, high, key);
    if key == e.ip {
      WithKeyNone(high, key);
    } else {
      WithKeyNone([e], key);
    }
  }

  /** The sort is stable. */
  lemma {:induction false} SortStable(list: seq<Entry>, key: Bits)
    ensures WithKey(SortByKey(list), key) == WithKey(list, key)
    decreases |list|
  {
    if list != [] {
      var init, last := list[..|list| - 1], list[|list| - 1];
      assert list == init + [last];
      SortStable(init, key);
      SortPush(init, last);
      InsortStable(SortByKey(init), last, key);
      WithKeyPush(SortByKey(init), last, key);
      WithKeyPush(init, last, key);
    }
  }

  /** bisect_right(...) - 1 followed by del, where index -1 means the last entry
      and deleting from an empty list raises. */
  function DeleteKey(list: seq<Entry>, key: Bits): (r: Option<seq<Entry>>)
    requires Sorted(list)
    ensures r.Some? ==> Sorted(r.value)
  {
    var pos := BisectRight(list, key);
    if list == [] then None
    else if pos == 0 then Some(list[..|list| - 1])
    else Some(list[..pos - 1] + list[pos..])
  }

  function DeleteAll(list: seq<Entry>, leafs: seq<Entry>): (r: Option<seq<Entry>>)
    requires Sorted(list)
    ensures r.Some? ==> Sorted(r.value)
  {
    if leafs == [] then Some(list) else
      var rest := DeleteKey(list, leafs[0].ip);
      if rest.None? then None else DeleteAll(rest.value, leafs[1..])
  }

  ghost function Ips(list: seq<Entry>): set<Bits> {
    set i | 0 <= i < |list| :: list[i].ip
  }

  lemma IpsCount(list: seq<Entry>)
    requires StrictlySorted(list)
    ensures |Ips(list)| == |list|
  {
    if list != [] {
      var n := |list| - 1;
      IpsCount(list[..n]);
      assert Ips(list) == Ips(list[..n]) + {list[n].ip};
      forall i | 0 <= i < n
        ensures list[i].ip != list[n].ip
      {
        KeyIrreflexive(list[i].ip);
      }
    }
  }

  /** Every entry of a is an entry of b. */
  ghost predicate Among(a: seq<Entry>, b: seq<Entry>) {
    forall i :: 0 <= i < |a| ==> a[i] in b
  }

  lemma IpsConcat(a: seq<Entry>, b: seq<Entry>)
    ensures Ips(a + b) == Ips(a) + Ips(b)
  {
    forall k | k in Ips(a) + Ips(b)
      ensures k in Ips(a + b)
    {
      if k in Ips(a) {
        var i :| 0 <= i < |a| && a[i].ip == k;
        assert (a + b)[i].ip == k;
      } else {
        var i :| 0 <= i < |b| && b[i].ip == k;
        assert (a + b)[|a| + i].ip == k;
      }
    }
  }

  lemma InsortMembers(list: seq<Entry>, e: Entry)
    requires Sorted(list)
    ensures Among(Insort(list, e), list + [e])
    ensures Ips(Insort(list, e)) == Ips(list) + {e.ip}
  {
    var pos := BisectRight(list, e.ip);
    assert list == list[..pos] + list[pos..];
    BetweenMembers(list[..pos], e, list[pos..]);
  }

  lemma BetweenMembers(low: seq<Entry>, e: Entry, high: seq<Entry>)
    ensures Among(low + [e] + high, low + high + [e])
    ensures Ips(low + [e] + high) == Ips(low + high) + {e.ip}
  {
    IpsConcat(low, high);
    IpsConcat(low, [e]);
    IpsConcat(low + [e], high);
    assert Ips([e]) == {e.ip} by { assert [e][0].ip == e.ip; }
  }

  /** Inserting a new key keeps the list strictly sorted. */
  lemma InsortStrict(list: seq<Entry>, e: Entry)
    requires StrictlySorted(list) && Sorted(list) && e.ip !in Ips(list)
    ensures StrictlySorted(Insort(list, e))
  {
    var pos := BisectRight(list, e.ip);
    forall i | 0 <= i < pos
      ensures KeyLt(list[i].ip, e.ip)
    {
      KeyTotal(list[i].ip, e.ip);
      assert list[i].ip in Ips(list);
    }
  }

  /** In a strictly sorted list the bisect deletion removes the entry with that key and nothing else. */
  lemma DeleteKeyExact(list: seq<Entry>, k: nat)
    requires StrictlySorted(list) && Sorted(list) && k < |list|
    ensures DeleteKey(list, list[k].ip) == Some(list[..k] + list[k + 1..])
  {
    var pos := BisectRight(list, list[k].ip);
    KeyIrreflexive(list[k].ip);
    assert k + 1 < |list| ==> KeyLt(list[k].ip, list[k + 1].ip);
    assert pos == k + 1;
  }

  lemma DeleteStrict(list: seq<Entry>, k: nat)
    requires StrictlySorted(list) && k < |list|
    ensures var r := list[..k] + list[k + 1..];
            StrictlySorted(r) && Among(r, list) && Ips(r) == Ips(list) - {list[k].ip}
  {
    var r := list[..k] + list[k + 1..];
    assert list == list[..k] + [list[k]] + list[k + 1..];
    IpsConcat(list[..k], [list[k]]);
    IpsConcat(list[..k] + [list[k]], list[k + 1..]);
    IpsConcat(list[..k], list[k + 1..]);
    assert Ips([list[k]]) == {list[k].ip} by { assert [list[k]][0].ip == list[k].ip; }
    KeyIrreflexive(list[k].ip);
    assert list[k].ip !in Ips(list[..k]) && list[k].ip !in Ips(list[k + 1..]);
  }

  // ----- one turn of the loop, on the trie

  /** The label a merged block gets: its path, but '0' for the root. */
  function LabelOf(p: Bits): Bits {
    if p == [] then [false] else p
  }

  /** The marks after a turn that unlinks the block q. */
  ghost function TurnLabels(labels: map<Bits, Bits>, q: Bits): map<Bits, Bits>
    requires q != []
  {
    var rest := Without(labels, q);
    if Parent(q) in rest then rest else rest[Parent(q) := LabelOf(Parent(q))]
  }

  /** The worklist after its last entry q gave way to its parent. */
  ghost function TurnList(at: map<Bits, TrieNode>, labels: map<Bits, Bits>, q: Bits, rest: seq<Entry>): seq<Entry>
    requires q != [] && Parent(q) in at && Sorted(rest)
  {
    if Parent(q) in labels then rest else Insort(rest, Entry(LabelOf(Parent(q)), at[Parent(q)]))
  }

  /** The leafs that are left on either side of a node. */
  ghost function SideLeafs(keys: set<Bits>, marks: set<Bits>, p: Bits): seq<Bits> {
    Side(keys, marks, p, false) + Side(keys, marks, p, true)
  }

  /** Unlink the popped node; if its parent is unmarked, mark and list it. */
  method RemoveLast(t: Trie, list: seq<Entry>) returns (p_ptr: TrieNode, out: seq<Entry>)
    requires t.Valid() && list != [] && Sorted(list)
    requires var last := list[|list| - 1].node; t.Holds(last) && last.path != []
    modifies t`at, t`labels, t.at.Values
    ensures t.Valid() && t.Holds(p_ptr)
    ensures var q := list[|list| - 1].node.path;
            && p_ptr.path == Parent(q)
            && t.at == Without(old(t.at), q)
            && t.labels == TurnLabels(old(t.labels), q)
            && out == TurnList(old(t.at), old(t.labels), q, list[..|list| - 1])
  {
    var last := list[|list| - 1].node;
    out := list[..|list| - 1];
    ghost var q := last.path;
    assert Linked(t.at, t.labels, q);
    p_ptr := last.parent;
    ParentOfChild(Parent(q), Last(q));
    assert Parent(q) + [Last(q)] == q;
    t.Detach(p_ptr, last.bit);
    assert Linked(t.at, t.labels, p_ptr.path);
    if p_ptr.ip == None {
      var newIp := t.Label(p_ptr);
      t.Mark(p_ptr, newIp);
      out := Insort(out, Entry(newIp, p_ptr));
    }
  }

  /** The leafs left below a node, the '0' side first. */
  method LeafsBelow(t: Trie, p_ptr: TrieNode) returns (leafs: seq<Entry>)
    requires t.Valid() && t.Holds(p_ptr)
    ensures forall p :: p in SideLeafs(t.at.Keys, t.labels.Keys, p_ptr.path) ==> p in t.at && p in t.labels
    ensures leafs == Entries(t.at, t.labels, SideLeafs(t.at.Keys, t.labels.Keys, p_ptr.path))
  {
    assert Linked(t.at, t.labels, p_ptr.path);
    ghost var keys, marks, p := t.at.Keys, t.labels.Keys, p_ptr.path;
    var zeros: seq<Entry>, ones: seq<Entry> := [], [];
    if p_ptr.zero != null {
      zeros := t.Leafs(p_ptr.zero);
    }
    if p_ptr.one != null {
      ones := t.Leafs(p_ptr.one);
    }
    EntriesConcat(t.at, t.labels, Side(keys, marks, p, false), Side(keys, marks, p, true));
    leafs := zeros + ones;
  }

  /** Take the given leafs off the worklist. */
  method DropLeafs(list: seq<Entry>, leafs: seq<Entry>) returns (out: Option<seq<Entry>>)
    requires Sorted(list)
    ensures out == DeleteAll(list, leafs)
  {
    var cidrs := list;
    for i := 0 to |leafs|
      invariant Sorted(cidrs)
      invariant DeleteAll(cidrs, leafs[i..]) == DeleteAll(list, leafs)
    {
      assert leafs[i..][1..] == leafs[i + 1..];
      var next := DeleteKey(cidrs, leafs[i].ip);
      if next == None {
        return None;
      }
      cidrs := next.value;
    }
    out := Some(cidrs);
  }

  /** The worklist after one turn that pops the node at path q; None when the deletion raises. */
  ghost function TurnResult(at: map<Bits, TrieNode>, labels: map<Bits, Bits>, q: Bits, rest: seq<Entry>)
    : Option<seq<Entry>>
    requires q != [] && Parent(q) in at && Sorted(rest)
    requires Closed(at.Keys) && labels.Keys <= at.Keys
  {
    SideLeafsHeld(at, labels, q);
    InsortSorted(rest, Entry(LabelOf(Parent(q)), at[Parent(q)]));
    var keys, marks := Without(at, q).Keys, TurnLabels(labels, q).Keys;
    DeleteAll(TurnList(at, labels, q, rest),
              Entries(Without(at, q), TurnLabels(labels, q), SideLeafs(keys, marks, Parent(q))))
  }

  lemma SideLeafsHeld(at: map<Bits, TrieNode>, labels: map<Bits, Bits>, q: Bits)
    requires q != [] && Parent(q) in at && Closed(at.Keys) && labels.Keys <= at.Keys
    ensures var keys, marks := Without(at, q).Keys, TurnLabels(labels, q).Keys;
            forall p :: p in SideLeafs(keys, marks, Parent(q)) ==> p in keys && p in marks
  {
    var keys, marks := Without(at, q).Keys, TurnLabels(labels, q).Keys;
    WithoutClosed(at, q);
    assert Parent(q) in keys;
    DfsSideFindsLeafs(keys, marks, Parent(q), false);
    DfsSideFindsLeafs(keys, marks, Parent(q), true);
  }

  /** The body of the loop, for a popped node that has a parent. */
  method Turn(t: Trie, list: seq<Entry>) returns (out: Option<seq<Entry>>)
    requires t.Valid() && list != [] && Sorted(list)
    requires var last := list[|list| - 1].node; t.Holds(last) && last.path != [] && Parent(last.path) in t.at
    modifies t`at, t`labels, t.at.Values
    ensures t.Valid()
    ensures var q := list[|list| - 1].node.path;
            && t.at == Without(old(t.at), q)
            && t.labels == TurnLabels(old(t.labels), q)
            && out == TurnResult(old(t.at), old(t.labels), q, list[..|list| - 1])
  {
    ghost var p := Parent(list[|list| - 1].node.path);
    InsortSorted(list[..|list| - 1], Entry(LabelOf(p), t.at[p]));
    var p_ptr, cidrs := RemoveLast(t, list);
    var leafs := LeafsBelow(t, p_ptr);
    out := DropLeafs(cidrs, leafs);
  }
}
