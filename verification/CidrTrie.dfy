/** The binary trie of CIDR blocks: dictionaries linked to their children and to
    their parent, changed in place. Its abstraction is a map from paths to nodes
    and a map from marked paths to the labels stored under 'ip'. */
module CidrTrie {
  import opened Prefixes
  import opened Options
  import opened Sequences

  // ----- paths: the leafs below a path in depth-first order

  ghost predicate Closed(keys: set<Bits>) {
    forall p :: p in keys && p != [] ==> Parent(p) in keys
  }

  lemma ClosedPrefix(keys: set<Bits>, p: Bits, q: Bits)
    requires Closed(keys) && q in keys && p <= q
    ensures p in keys
    decreases |q|
  {
    if p != q {
      PrefixOfParent(p, q);
      ClosedPrefix(keys, p, Parent(q));
    }
  }

  ghost function Below(S: set<Bits>, p: Bits): set<Bits> {
    set q | q in S && p <= q
  }

  lemma BelowChild(S: set<Bits>, p: Bits, b: bool)
    requires p in S
    ensures Below(S, p + [b]) < Below(S, p)
  {
    forall q | q in Below(S, p + [b])
      ensures q in Below(S, p)
    {
      assert p <= p + [b];
      PrefixTransitive(p, p + [b], q);
    }
    assert p in Below(S, p) && p !in Below(S, p + [b]);
  }

  /** The first marked paths below p, the '1' side before the '0' side. */
  ghost function Dfs(keys: set<Bits>, marks: set<Bits>, p: Bits): seq<Bits>
    requires p in keys
    decreases Below(keys, p)
  {
    if p in marks then [p] else
      BelowChild(keys, p, true);
      BelowChild(keys, p, false);
      (if p + [true] in keys then Dfs(keys, marks, p + [true]) else []) +
      (if p + [false] in keys then Dfs(keys, marks, p + [false]) else [])
  }

  /** The number of nodes a depth-first walk from p pops. */
  ghost function Visits(keys: set<Bits>, marks: set<Bits>, p: Bits): nat
    requires p in keys
    decreases Below(keys, p)
  {
    if p in marks then 1 else
      BelowChild(keys, p, true);
      BelowChild(keys, p, false);
      1 + (if p + [true] in keys then Visits(keys, marks, p + [true]) else 0)
        + (if p + [false] in keys then Visits(keys, marks, p + [false]) else 0)
  }

  /** Below an unmarked path the maximal marks are those of its two sides. */
  lemma MaximalSplit(marks: set<Bits>, p: Bits, q: Bits)
    requires p !in marks
    ensures q in Maximal(Below(marks, p)) <==>
            q in Maximal(Below(marks, p + [true])) || q in Maximal(Below(marks, p + [false]))
  {
    if p <= q && p != q {
      ProperPrefixShorter(p, q);
      assert p + [q[|p|]] <= q && !(p + [!q[|p|]] <= q);
      MaximalSide(marks, p, q[|p|], q);
    } else {
      NotBelowSide(p, true, q);
      NotBelowSide(p, false, q);
    }
  }

  lemma NotBelowSide(p: Bits, b: bool, q: Bits)
    requires p == q || !(p <= q)
    ensures !(p + [b] <= q)
  {
    assert p <= p + [b];
    if p != q && p + [b] <= q { PrefixTransitive(p, p + [b], q); }
  }

  lemma MaximalSide(marks: set<Bits>, p: Bits, b: bool, q: Bits)
    requires p !in marks && p + [b] <= q
    ensures q in Maximal(Below(marks, p)) <==> q in Maximal(Below(marks, p + [b]))
  {
    ParentOfChild(p, b);
    PrefixTransitive(p, p + [b], q);
    forall r | r in marks && r <= q
      ensures r in Below(marks, p) <==> r in Below(marks, p + [b])
    {
      if p <= r {
        ProperPrefixShorter(p, r);
        PrefixesComparable(p + [b], r, q);
      }
      if p + [b] <= r { PrefixTransitive(p, p + [b], r); }
    }
    assert q in Below(marks, p) <==> q in Below(marks, p + [b]);
  }

  /** The part of a depth-first search that goes down one side of p. */
  ghost function Side(keys: set<Bits>, marks: set<Bits>, p: Bits, b: bool): seq<Bits> {
    if p + [b] in keys then Dfs(keys, marks, p + [b]) else []
  }

  /** Depth-first search finds each maximal marked block below p exactly once. */
  lemma {:induction false} DfsFindsLeafs(keys: set<Bits>, marks: set<Bits>, p: Bits)
    requires p in keys && Closed(keys) && marks <= keys
    ensures forall q :: q in Dfs(keys, marks, p) <==> q in Maximal(Below(marks, p))
    ensures Distinct(Dfs(keys, marks, p))
    decreases Below(keys, p), 0
  {
    if p in marks {
      assert p in Below(marks, p);
    } else {
      BelowChild(keys, p, true);
      BelowChild(keys, p, false);
      DfsSideFindsLeafs(keys, marks, p, true);
      DfsSideFindsLeafs(keys, marks, p, false);
      assert Dfs(keys, marks, p) == Side(keys, marks, p, true) + Side(keys, marks, p, false);
      forall q
        ensures q in Dfs(keys, marks, p) <==> q in Maximal(Below(marks, p))
      {
        MaximalSplit(marks, p, q);
      }
      var ones, zeros := Side(keys, marks, p, true), Side(keys, marks, p, false);
      forall i, j | 0 <= i < |ones| && 0 <= j < |zeros|
        ensures ones[i] != zeros[j]
      {
        assert ones[i] in ones && zeros[j] in zeros;
        assert p + [true] <= ones[i] && p + [false] <= zeros[j];
        assert ones[i][|p|] && !zeros[j][|p|];
      }
      DistinctConcat(ones, zeros);
    }
  }

  lemma {:induction false} DfsSideFindsLeafs(keys: set<Bits>, marks: set<Bits>, p: Bits, b: bool)
    requires p in keys && Closed(keys) && marks <= keys
    ensures forall q :: q in Side(keys, marks, p, b) <==> q in Maximal(Below(marks, p + [b]))
    ensures Distinct(Side(keys, marks, p, b))
    decreases Below(keys, p + [b]), 1
  {
    if p + [b] in keys {
      DfsFindsLeafs(keys, marks, p + [b]);
    } else {
      forall q | q in marks
        ensures !(p + [b] <= q)
      {
        if p + [b] <= q { ClosedPrefix(keys, p + [b], q); }
      }
    }
  }

  // ----- the stack of a depth-first walk

  /** What a stack of paths still has to yield, its last path first. */
  ghost function Flat(keys: set<Bits>, marks: set<Bits>, stack: seq<Bits>): seq<Bits>
    requires forall p :: p in stack ==> p in keys
  {
    if stack == [] then [] else
      Dfs(keys, marks, stack[|stack| - 1]) + Flat(keys, marks, stack[..|stack| - 1])
  }

  /** How many nodes it still has to pop. */
  ghost function Work(keys: set<Bits>, marks: set<Bits>, stack: seq<Bits>): nat
    requires forall p :: p in stack ==> p in keys
  {
    if stack == [] then 0 else
      Visits(keys, marks, stack[|stack| - 1]) + Work(keys, marks, stack[..|stack| - 1])
  }

  lemma FlatPush(keys: set<Bits>, marks: set<Bits>, stack: seq<Bits>, p: Bits)
    requires p in keys && forall q :: q in stack ==> q in keys
    ensures forall q :: q in stack + [p] ==> q in keys
    ensures Flat(keys, marks, stack + [p]) == Dfs(keys, marks, p) + Flat(keys, marks, stack)
    ensures Work(keys, marks, stack + [p]) == Visits(keys, marks, p) + Work(keys, marks, stack)
  {
    assert (stack + [p])[..|stack|] == stack;
  }

  /** The path p + [b], when it exists, as a stack of at most one path. */
  ghost function One(keys: set<Bits>, p: Bits, b: bool): seq<Bits> {
    if p + [b] in keys then [p + [b]] else []
  }

  /** Popping an unmarked path and pushing its sides leaves the same paths to yield. */
  lemma FlatExpand(keys: set<Bits>, marks: set<Bits>, stack: seq<Bits>, p: Bits)
    requires p in keys && p !in marks && forall q :: q in stack ==> q in keys
    ensures var next := stack + One(keys, p, false) + One(keys, p, true);
            && (forall q :: q in next ==> q in keys)
            && Flat(keys, marks, next) == Dfs(keys, marks, p) + Flat(keys, marks, stack)
            && Work(keys, marks, next) < Visits(keys, marks, p) + Work(keys, marks, stack)
  {
    FlatOne(keys, marks, stack, p, false);
    FlatOne(keys, marks, stack + One(keys, p, false), p, true);
    DfsSplit(keys, marks, p);
    ConcatAssociates(Side(keys, marks, p, true), Side(keys, marks, p, false), Flat(keys, marks, stack));
  }

  lemma FlatOne(keys: set<Bits>, marks: set<Bits>, stack: seq<Bits>, p: Bits, b: bool)
    requires forall q :: q in stack ==> q in keys
    ensures forall q :: q in stack + One(keys, p, b) ==> q in keys
    ensures Flat(keys, marks, stack + One(keys, p, b)) == Side(keys, marks, p, b) + Flat(keys, marks, stack)
    ensures Work(keys, marks, stack + One(keys, p, b)) == SideVisits(keys, marks, p, b) + Work(keys, marks, stack)
  {
    if p + [b] in keys {
      FlatPush(keys, marks, stack, p + [b]);
    } else {
      assert stack + [] == stack;
    }
  }

  ghost function SideVisits(keys: set<Bits>, marks: set<Bits>, p: Bits, b: bool): nat {
    if p + [b] in keys then Visits(keys, marks, p + [b]) else 0
  }

  lemma DfsSplit(keys: set<Bits>, marks: set<Bits>, p: Bits)
    requires p in keys && p !in marks
    ensures Dfs(keys, marks, p) == Side(keys, marks, p, true) + Side(keys, marks, p, false)
    ensures Visits(keys, marks, p) == 1 + SideVisits(keys, marks, p, true) + SideVisits(keys, marks, p, false)
  {
  }

  // ----- the trie itself


  class TrieNode {
    const parent: TrieNode?
    const bit: bool
    ghost const path: Bits
    var zero: TrieNode?
    var one: TrieNode?
    var ip: Option<Bits>

    constructor Root()
      ensures parent == null && !bit && path == [] && zero == null && one == null && ip == None
    {
      parent, bit, path := null, false, [];
      zero, one, ip := null, null, None;
    }

    constructor Child(parent: TrieNode, bit: bool)
      ensures this.parent == parent && this.bit == bit && path == parent.path + [bit]
      ensures zero == null && one == null && ip == None
    {
      this.parent, this.bit, this.path := parent, bit, parent.path + [bit];
      zero, one, ip := null, null, None;
    }
  }

  /** One entry of the worklist: a block label and the node it stands for. */
  datatype Entry = Entry(ip: Bits, node: TrieNode)

  /** The entries for a list of marked paths. */
  ghost function Entries(at: map<Bits, TrieNode>, labels: map<Bits, Bits>, ps: seq<Bits>): seq<Entry>
    requires forall p :: p in ps ==> p in at && p in labels
  {
    seq(|ps|, i requires 0 <= i < |ps| => Entry(labels[ps[i]], at[ps[i]]))
  }

  lemma EntriesConcat(at: map<Bits, TrieNode>, labels: map<Bits, Bits>, ps: seq<Bits>, qs: seq<Bits>)
    requires forall p :: p in ps ==> p in at && p in labels
    requires forall p :: p in qs ==> p in at && p in labels
    ensures forall p :: p in ps + qs ==> p in at && p in labels
    ensures Entries(at, labels, ps + qs) == Entries(at, labels, ps) + Entries(at, labels, qs)
  {
  }

  lemma EntriesPush(at: map<Bits, TrieNode>, labels: map<Bits, Bits>, ps: seq<Bits>, p: Bits)
    requires forall q :: q in ps ==> q in at && q in labels
    requires p in at && p in labels
    ensures forall q :: q in ps + [p] ==> q in at && q in labels
    ensures Entries(at, labels, ps + [p]) == Entries(at, labels, ps) + [Entry(labels[p], at[p])]
  {
  }

  ghost function Link(at: map<Bits, TrieNode>, p: Bits): TrieNode? {
    if p in at then at[p] else null
  }

  ghost function LabelAt(labels: map<Bits, Bits>, p: Bits): Option<Bits> {
    if p in labels then Some(labels[p]) else None
  }

  /** The contents of a node. */
  datatype Fields = Fields(parent: TrieNode?, bit: bool, zero: TrieNode?, one: TrieNode?, ip: Option<Bits>)

  ghost function Contents(node: TrieNode): Fields
    reads node
  {
    Fields(node.parent, node.bit, node.zero, node.one, node.ip)
  }

  /** The contents the node at path p must have. */
  ghost function Expected(at: map<Bits, TrieNode>, labels: map<Bits, Bits>, p: Bits): Fields {
    Fields(if p == [] then null else Link(at, Parent(p)), p != [] && Last(p),
           Link(at, p + [false]), Link(at, p + [true]), LabelAt(labels, p))
  }

  ghost predicate Linked(at: map<Bits, TrieNode>, labels: map<Bits, Bits>, p: Bits)
    requires p in at
    reads at[p]
  {
    Contents(at[p]) == Expected(at, labels, p)
  }

  ghost function SetSide(f: Fields, b: bool, child: TrieNode?): Fields {
    if b then f.(one := child) else f.(zero := child)
  }

  /** A new path adds one link, from its parent, and has no links down. */
  lemma ExpectedGrow(at: map<Bits, TrieNode>, labels: map<Bits, Bits>, q: Bits, b: bool, child: TrieNode, p: Bits)
    requires Closed(at.Keys) && labels.Keys <= at.Keys
    requires q in at && q + [b] !in at && p in at[q + [b] := child]
    ensures Expected(at[q + [b] := child], labels, p) ==
            if p == q then SetSide(Expected(at, labels, p), b, child)
            else if p == q + [b] then Fields(at[q], b, null, null, None)
            else Expected(at, labels, p)
  {
    ParentOfChild(q, b);
    ParentOfChild(p, true);
    ParentOfChild(p, false);
  }

  /** Cutting off everything below a path cuts one link. */
  lemma ExpectedCut(at: map<Bits, TrieNode>, labels: map<Bits, Bits>, q: Bits, b: bool, p: Bits)
    requires p in Without(at, q + [b])
    ensures Expected(Without(at, q + [b]), Without(labels, q + [b]), p) ==
            if p == q then SetSide(Expected(at, labels, p), b, null) else Expected(at, labels, p)
  {
    ParentOfChild(q, b);
    if p != [] { PrefixTransitive(q + [b], Parent(p), p); }
    forall c: bool
      ensures q + [b] <= p + [c] <==> p == q && c == b
    {
      ParentOfChild(p, c);
      if q + [b] <= p + [c] && q + [b] != p + [c] { PrefixOfParent(q + [b], p + [c]); }
    }
  }

  /** A map without a path and everything below it. */
  ghost function Without<T>(m: map<Bits, T>, gone: Bits): map<Bits, T> {
    map p | p in m && !(gone <= p) :: m[p]
  }

  lemma WithoutClosed<T>(m: map<Bits, T>, gone: Bits)
    requires Closed(m.Keys)
    ensures Closed(Without(m, gone).Keys)
    ensures gone != [] ==> gone in m ==> Parent(gone) in Without(m, gone)
  {
    forall p | p in Without(m, gone) && p != []
      ensures !(gone <= Parent(p))
    {
      PrefixTransitive(gone, Parent(p), p);
    }
  }

  /** The nodes on a stack are those at the given paths. */
  ghost predicate Stacked(at: map<Bits, TrieNode>, nodes: seq<TrieNode>, stack: seq<Bits>) {
    && |nodes| == |stack|
    && forall i :: 0 <= i < |stack| ==> stack[i] in at && nodes[i] == at[stack[i]]
  }

  lemma StackedPush(at: map<Bits, TrieNode>, nodes: seq<TrieNode>, stack: seq<Bits>, p: Bits, b: bool)
    requires Stacked(at, nodes, stack)
    ensures Stacked(at, if Link(at, p + [b]) == null then nodes else nodes + [at[p + [b]]], stack + One(at.Keys, p, b))
  {
  }

  lemma StackedPop(at: map<Bits, TrieNode>, nodes: seq<TrieNode>, stack: seq<Bits>)
    requires Stacked(at, nodes, stack) && nodes != []
    ensures Stacked(at, nodes[..|nodes| - 1], stack[..|stack| - 1])
    ensures var p := stack[|stack| - 1]; p in at && nodes[|nodes| - 1] == at[p]
    ensures forall q :: q in stack ==> q in at
  {
  }

  class Trie {
    const root: TrieNode
    ghost var at: map<Bits, TrieNode>
    ghost var labels: map<Bits, Bits>

    ghost predicate Valid()
      reads this, at.Values
    {
      && [] in at && at[[]] == root
      && labels.Keys <= at.Keys
      && Closed(at.Keys)
      && (forall p :: p in at ==> at[p].path == p)
      && (forall p {:trigger Linked(at, labels, p)} :: p in at ==> Linked(at, labels, p))
    }

    ghost predicate Holds(node: TrieNode)
      reads this
    {
      node.path in at && at[node.path] == node
    }

    constructor ()
      ensures Valid() && at.Keys == {[]} && labels == map[] && fresh(at.Values)
    {
      var r := new TrieNode.Root();
      root := r;
      at := map[[] := r];
      labels := map[];
      new;
      assert Linked(at, labels, []);
    }

    /** Make the missing child of ptr on one side and link it. */
    method Grow(ptr: TrieNode, b: bool) returns (child: TrieNode)
      requires Valid() && Holds(ptr) && ptr.path + [b] !in at
      modifies this`at, ptr`zero, ptr`one
      ensures Valid() && fresh(child) && child.path == ptr.path + [b]
      ensures at == old(at)[ptr.path + [b] := child]
    {
      child := new TrieNode.Child(ptr, b);
      ParentOfChild(ptr.path, b);
      ghost var at0 := at;
      if b { ptr.one := child; } else { ptr.zero := child; }
      at := at[ptr.path + [b] := child];
      forall p | p in at
        ensures Linked(at, labels, p)
      {
        if p != ptr.path + [b] { assert old(Linked(at, labels, p)); }
        ExpectedGrow(at0, labels, ptr.path, b, child, p);
      }
    }

    /** The child of ptr on the given side, made and linked when missing. */
    method Descend(ptr: TrieNode, b: bool) returns (child: TrieNode)
      requires Valid() && Holds(ptr)
      modifies this`at, ptr`zero, ptr`one
      ensures Valid() && child.path == ptr.path + [b]
      ensures at == old(at)[ptr.path + [b] := child]
      ensures child in old(at.Values) || fresh(child)
    {
      assert Linked(at, labels, ptr.path);
      var next := if b then ptr.one else ptr.zero;
      if next == null {
        child := Grow(ptr, b);
      } else {
        child := next;
      }
    }

    /** Store a label in a node. */
    method Mark(node: TrieNode, newIp: Bits)
      requires Valid() && Holds(node)
      modifies this`labels, node`ip
      ensures Valid() && labels == old(labels)[node.path := newIp]
    {
      node.ip := Some(newIp);
      labels := labels[node.path := newIp];
      forall p | p in at
        ensures Linked(at, labels, p)
      {
        assert old(Linked(at, labels, p));
      }
    }

    /** Add a block: walk down from the root, making what is missing, and mark the end. */
    method Insert(ip: Bits)
      requires Valid()
      modifies this, at.Values
      ensures Valid() && labels == old(labels)[ip := ip]
      ensures old(at.Keys) <= at.Keys && fresh(at.Values - old(at.Values))
      ensures forall p :: p in at && p !in old(at) ==> p <= ip
    {
      var ptr := root;
      for i := 0 to |ip|
        invariant Valid() && Holds(ptr) && ptr.path == ip[..i] && labels == old(labels)
        invariant old(at.Keys) <= at.Keys && fresh(at.Values - old(at.Values))
        invariant forall p :: p in at && p !in old(at) ==> p <= ip
      {
        assert ip[..i + 1] == ip[..i] + [ip[i]];
        ptr := Descend(ptr, ip[i]);
      }
      assert ip[..|ip|] == ip;
      Mark(ptr, ip);
    }

    /** The label of a node: the bits on the way up, or '0' when there are none. */
    method Label(start: TrieNode) returns (newIp: Bits)
      requires Valid() && Holds(start)
      ensures newIp == if start.path == [] then [false] else start.path
    {
      var ptr: TrieNode := start;
      newIp := [];
      while ptr.parent != null
        invariant Holds(ptr) && ptr.path + newIp == start.path
        decreases |ptr.path|
      {
        assert Linked(at, labels, ptr.path);
        newIp := [ptr.bit] + newIp;
        ptr := ptr.parent;
      }
      assert Linked(at, labels, ptr.path);
      if newIp == [] {
        newIp := [false];
      }
    }

    /** Unlink the child of ptr on one side, with everything below it. */
    method Detach(ptr: TrieNode, b: bool)
      requires Valid() && Holds(ptr) && ptr.path + [b] in at
      modifies this`at, this`labels, ptr`zero, ptr`one
      ensures Valid() && Holds(ptr)
      ensures at == Without(old(at), ptr.path + [b]) && labels == Without(old(labels), ptr.path + [b])
    {
      ghost var at0, labels0 := at, labels;
      if b { ptr.one := null; } else { ptr.zero := null; }
      at := Without(at, ptr.path + [b]);
      labels := Without(labels, ptr.path + [b]);
      WithoutClosed(at0, ptr.path + [b]);
      forall p | p in at
        ensures Linked(at, labels, p)
      {
        assert old(Linked(at, labels, p));
        ExpectedCut(at0, labels0, ptr.path, b, p);
      }
    }

    /** The first marked nodes at or below a node, found with an explicit stack. */
    method Leafs(start: TrieNode) returns (list: seq<Entry>)
      requires Valid() && Holds(start)
      ensures forall p :: p in Dfs(at.Keys, labels.Keys, start.path) ==> p in at && p in labels
      ensures list == Entries(at, labels, Dfs(at.Keys, labels.Keys, start.path))
    {
      list := [];
      var nodes: seq<TrieNode> := [start];
      ghost var stack, found := [start.path], [];
      ghost var keys, marks := at.Keys, labels.Keys;
      FlatPush(keys, marks, [], start.path);
      while nodes != []
        invariant Stacked(at, nodes, stack)
        invariant forall p :: p in found ==> p in at && p in labels
        invariant list == Entries(at, labels, found)
        invariant found + Flat(keys, marks, stack) == Dfs(keys, marks, start.path)
        decreases Work(keys, marks, stack)
      {
        var node := nodes[|nodes| - 1];
        ghost var p := stack[|stack| - 1];
        StackedPop(at, nodes, stack);
        assert Linked(at, labels, p);
        nodes := nodes[..|nodes| - 1];
        stack := stack[..|stack| - 1];
        if node.ip.Some? {
          EntriesPush(at, labels, found, p);
          ConcatAssociates(found, [p], Flat(keys, marks, stack));
          list := list + [Entry(node.ip.value, node)];
          found := found + [p];
        } else {
          FlatExpand(keys, marks, stack, p);
          StackedPush(at, nodes, stack, p, false);
          if node.zero != null {
            nodes := nodes + [node.zero];
          }
          stack := stack + One(keys, p, false);
          StackedPush(at, nodes, stack, p, true);
          if node.one != null {
            nodes := nodes + [node.one];
          }
          stack := stack + One(keys, p, true);
        }
      }
    }
  }
}
