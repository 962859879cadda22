/** The packing bound: how many nodes of a type a run opens, against the demand it
    deployed and against any other packing of that demand. */
module ClusterBound {
  import opened Options
  import opened Arithmetic
  import opened RunnerDemand
  import opened ClusterSim
  import opened ClusterPacking

  /** The part of a capacity that an amount takes; resources without capacity do not count. */
  function Part(u: int, c: int): real {
    if c > 0 then u as real / c as real else 0.0
  }

  function Share(used: Resources, cap: Resources): real {
    Part(used.cpu, cap.cpu) + Part(used.mem, cap.mem) + Part(used.gpu, cap.gpu)
  }

  lemma PartIs(u: int, c: int)
    ensures c > 0 ==> Part(u, c) * c as real == u as real
    ensures c <= 0 ==> Part(u, c) == 0.0
  {
    if c > 0 { Quotient(u as real, c as real); }
  }

  lemma PartAdds(u: int, v: int, c: int)
    ensures Part(u + v, c) == Part(u, c) + Part(v, c)
  {
    if c > 0 {
      var x, y, z := u as real, v as real, c as real;
      assert (x + y) / z == x / z + y / z;
    }
  }

  lemma PartSize(u: int, c: int, b: nat)
    requires c > 0
    ensures u >= 0 ==> Part(u, c) >= 0.0
    ensures u > c ==> Part(u, c) > 1.0
    ensures u <= b * c ==> Part(u, c) <= b as real
  {
    DivAtMost(u as real, c as real, 1.0);
    DivAtMost(u as real, c as real, b as real);
    assert (b * c) as real == b as real * c as real;
    if u >= 0 { assert u as real / c as real >= 0.0; }
  }

  /** Resources without capacity are not used either. */
  predicate Usable(used: Resources, cap: Resources) {
    && cap.cpu >= 0 && cap.mem >= 0 && cap.gpu >= 0
    && (cap.cpu == 0 ==> used.cpu == 0) && (cap.mem == 0 ==> used.mem == 0) && (cap.gpu == 0 ==> used.gpu == 0)
  }

  predicate NonNegative(r: Resources) {
    r.cpu >= 0 && r.mem >= 0 && r.gpu >= 0
  }

  lemma ShareAdds(u: Resources, v: Resources, cap: Resources)
    ensures Share(u.Plus(v), cap) == Share(u, cap) + Share(v, cap)
  {
    PartAdds(u.cpu, v.cpu, cap.cpu);
    PartAdds(u.mem, v.mem, cap.mem);
    PartAdds(u.gpu, v.gpu, cap.gpu);
  }

  lemma ShareSize(u: Resources, cap: Resources)
    requires NonNegative(u) && Usable(u, cap)
    ensures Share(u, cap) >= 0.0
    ensures !u.AtMost(cap) ==> Share(u, cap) > 1.0
  {
    if cap.cpu > 0 { PartSize(u.cpu, cap.cpu, 0); }
    if cap.mem > 0 { PartSize(u.mem, cap.mem, 0); }
    if cap.gpu > 0 { PartSize(u.gpu, cap.gpu, 0); }
  }

  // ----- nodes of one type

  function OfType(nodes: seq<NodeState>, t: string): seq<NodeState> {
    if nodes == [] then []
    else OfType(nodes[..|nodes| - 1], t) +
         if nodes[|nodes| - 1].instanceType == t then [nodes[|nodes| - 1]] else []
  }

  function SumOf(nodes: seq<NodeState>): Resources {
    if nodes == [] then Resources(0, 0, 0)
    else SumOf(nodes[..|nodes| - 1]).Plus(nodes[|nodes| - 1].used)
  }

  lemma SumOfAppend(nodes: seq<NodeState>, n: NodeState)
    ensures SumOf(nodes + [n]) == SumOf(nodes).Plus(n.used)
  {
    assert (nodes + [n])[..|nodes|] == nodes;
  }

  lemma OfTypePush(nodes: seq<NodeState>, n: NodeState, t: string)
    ensures OfType(nodes + [n], t) == if n.instanceType == t then OfType(nodes, t) + [n] else OfType(nodes, t)
  {
    assert (nodes + [n])[..|nodes|] == nodes;
    assert OfType(nodes, t) + [] == OfType(nodes, t);
  }

  /** It holds all the nodes of the type. */
  lemma {:induction false} OfTypeCounts(nodes: seq<NodeState>, t: string)
    ensures |OfType(nodes, t)| == |set i | 0 <= i < |nodes| && nodes[i].instanceType == t|
    decreases |nodes|
  {
    if nodes != [] {
      var init, last := nodes[..|nodes| - 1], nodes[|nodes| - 1];
      OfTypeCounts(init, t);
      assert nodes == init + [last];
      OfTypePush(init, last, t);
      var before := set i | 0 <= i < |init| && init[i].instanceType == t;
      assert (set i | 0 <= i < |nodes| && nodes[i].instanceType == t) ==
             if last.instanceType == t then before + {|init|} else before;
    }
  }

  lemma GetPlus(u: Resources, v: Resources, k: Kind)
    ensures u.Plus(v).Get(k) == u.Get(k) + v.Get(k)
  {
  }

  lemma SumOfTypePush(nodes: seq<NodeState>, n: NodeState, t: string, k: Kind)
    ensures SumOf(OfType(nodes + [n], t)).Get(k) == SumOf(OfType(nodes, t)).Get(k) + UsedIn(n, Some(t), k)
  {
    OfTypePush(nodes, n, t);
    if n.instanceType == t {
      SumOfAppend(OfType(nodes, t), n);
      GetPlus(SumOf(OfType(nodes, t)), n.used, k);
    }
  }

  lemma {:induction false} SumOfType(nodes: seq<NodeState>, t: string, k: Kind)
    ensures SumUsed(nodes, Some(t), k) == SumOf(OfType(nodes, t)).Get(k)
    decreases |nodes|
  {
    if nodes != [] {
      var init, last := nodes[..|nodes| - 1], nodes[|nodes| - 1];
      assert nodes == init + [last];
      SumOfType(init, t, k);
      SumOfTypePush(init, last, t, k);
    }
  }

  /** Nodes with one capacity, none of them overfull with what another one holds to spare. */
  ghost predicate PairwiseCrowded(nodes: seq<NodeState>, cap: Resources) {
    && (forall i :: 0 <= i < |nodes| ==> nodes[i].total == cap && NonNegative(nodes[i].used))
    && forall i, j :: 0 <= i < j < |nodes| ==> Crowded(nodes[i], nodes[j])
  }

  lemma {:induction false} OfTypeCrowded(cfg: Config, nodes: seq<NodeState>, t: string)
    requires AnyFit(cfg, nodes) && t in cfg.alloc
    ensures PairwiseCrowded(OfType(nodes, t), cfg.alloc[t])
    ensures forall n :: n in OfType(nodes, t) ==> n in nodes && n.instanceType == t
    decreases |nodes|
  {
    if nodes != [] {
      var init, last := nodes[..|nodes| - 1], nodes[|nodes| - 1];
      OfTypeCrowded(cfg, init, t);
      assert nodes == init + [last];
      assert last.used.Get(Cpu) >= 0 && last.used.Get(Mem) >= 0 && last.used.Get(Gpu) >= 0;
      forall i | 0 <= i < |OfType(init, t)| && last.instanceType == t
        ensures Crowded(OfType(init, t)[i], last)
      {
        var m := OfType(init, t)[i];
        assert m in OfType(init, t);
        var j :| 0 <= j < |init| && init[j] == m;
        assert nodes[j] == m;
      }
    }
  }

  lemma CrowdedSum(m: NodeState, n: NodeState, cap: Resources)
    requires Crowded(m, n) && n.total == cap
    ensures !m.used.Plus(n.used).AtMost(cap)
  {
  }

  lemma UsableSummands(u: Resources, v: Resources, cap: Resources)
    requires NonNegative(u) && NonNegative(v) && Usable(u.Plus(v), cap)
    ensures Usable(u, cap) && Usable(v, cap)
  {
  }

  /** What a sum of non-negative usages does not use, none of its nodes uses. */
  lemma {:induction false} UsableParts(nodes: seq<NodeState>, cap: Resources)
    requires forall i :: 0 <= i < |nodes| ==> NonNegative(nodes[i].used)
    requires Usable(SumOf(nodes), cap)
    ensures forall i :: 0 <= i < |nodes| ==> Usable(nodes[i].used, cap)
    decreases |nodes|
  {
    if nodes != [] {
      var init, last := nodes[..|nodes| - 1], nodes[|nodes| - 1];
      SumNonNegative(init);
      UsableSummands(SumOf(init), last.used, cap);
      UsableParts(init, cap);
      assert nodes == init + [last];
    }
  }

  lemma {:induction false} SumNonNegative(nodes: seq<NodeState>)
    requires forall i :: 0 <= i < |nodes| ==> NonNegative(nodes[i].used)
    ensures NonNegative(SumOf(nodes))
    decreases |nodes|
  {
    if nodes != [] { SumNonNegative(nodes[..|nodes| - 1]); }
  }

  lemma SumOfLastTwo(nodes: seq<NodeState>)
    requires |nodes| >= 2
    ensures var c := |nodes|;
            SumOf(nodes) == SumOf(nodes[..c - 2]).Plus(nodes[c - 2].used.Plus(nodes[c - 1].used))
  {
    var rest, m, n := nodes[..|nodes| - 2], nodes[|nodes| - 2], nodes[|nodes| - 1];
    assert nodes == (rest + [m]) + [n];
    SumOfAppend(rest + [m], n);
    SumOfAppend(rest, m);
  }

  /** Two by two, crowded nodes use more than one node's share each pair. */
  lemma {:induction false} HalfBound(nodes: seq<NodeState>, cap: Resources)
    requires PairwiseCrowded(nodes, cap)
    requires forall i :: 0 <= i < |nodes| ==> Usable(nodes[i].used, cap)
    ensures Share(SumOf(nodes), cap) >= (|nodes| / 2) as real
    ensures |nodes| >= 2 ==> Share(SumOf(nodes), cap) > (|nodes| / 2) as real
    decreases |nodes|
  {
    if |nodes| == 1 {
      assert SumOf(nodes) == Resources(0, 0, 0).Plus(nodes[0].used) == nodes[0].used;
      ShareSize(nodes[0].used, cap);
    } else if |nodes| >= 2 {
      var c := |nodes|;
      var rest, m, n := nodes[..c - 2], nodes[c - 2], nodes[c - 1];
      HalfBound(rest, cap);
      SumOfLastTwo(nodes);
      ShareAdds(SumOf(rest), m.used.Plus(n.used), cap);
      assert Crowded(m, n);
      CrowdedSum(m, n, cap);
      ShareSize(m.used.Plus(n.used), cap);
      assert |nodes| / 2 == |rest| / 2 + 1;
    }
  }

  // ----- the bound on runs

  /** The demand of the deployed runners of one instance type. */
  function Demand(cfg: Config, s: SimState, t: string): Resources {
    Resources(SumDemand(cfg, cfg.order, s.deployed, Some(t), Cpu),
              SumDemand(cfg, cfg.order, s.deployed, Some(t), Mem),
              SumDemand(cfg, cfg.order, s.deployed, Some(t), Gpu))
  }

  lemma DemandIsUsed(cfg: Config, s: SimState, t: string)
    requires Conserved(cfg, s)
    ensures SumOf(OfType(s.nodes, t)) == Demand(cfg, s, t)
  {
    SumOfType(s.nodes, t, Cpu);
    SumOfType(s.nodes, t, Mem);
    SumOfType(s.nodes, t, Gpu);
    assert SumUsed(s.nodes, Some(t), Cpu) == SumDemand(cfg, cfg.order, s.deployed, Some(t), Cpu);
    assert SumUsed(s.nodes, Some(t), Mem) == SumDemand(cfg, cfg.order, s.deployed, Some(t), Mem);
    assert SumUsed(s.nodes, Some(t), Gpu) == SumDemand(cfg, cfg.order, s.deployed, Some(t), Gpu);
  }

  /** At most twice the demand, in shares of one node, plus one: with two or more nodes of a
      type the summed shares exceed half their number, rounded down. */
  lemma NodeBound(cfg: Config, run: seq<SimState>, k: nat, t: string)
    requires Wellformed(cfg) && IsRun(cfg, run) && k < |run| && t in cfg.alloc
    requires Usable(Demand(cfg, run[k], t), cfg.alloc[t])
    ensures var count := |OfType(run[k].nodes, t)|;
            var share := Share(Demand(cfg, run[k], t), cfg.alloc[t]);
            (count >= 2 ==> share > (count / 2) as real) && count as real <= 2.0 * share + 1.0
  {
    RunInv(cfg, run, k);
    var s := run[k];
    var nodes, cap := OfType(s.nodes, t), cfg.alloc[t];
    OfTypeCrowded(cfg, s.nodes, t);
    DemandIsUsed(cfg, s, t);
    SumNonNegative(nodes);
    UsableParts(nodes, cap);
    HalfBound(nodes, cap);
    ShareSize(SumOf(nodes), cap);
    var half := |nodes| / 2;
    assert |nodes| <= 2 * half + 1;
  }

  function Total(bins: seq<Resources>): Resources {
    if bins == [] then Resources(0, 0, 0) else Total(bins[..|bins| - 1]).Plus(bins[|bins| - 1])
  }

  lemma {:induction false} TotalAtMost(bins: seq<Resources>, cap: Resources)
    requires forall i :: 0 <= i < |bins| ==> bins[i].AtMost(cap)
    ensures Total(bins).cpu <= |bins| * cap.cpu && Total(bins).mem <= |bins| * cap.mem
    ensures Total(bins).gpu <= |bins| * cap.gpu
    decreases |bins|
  {
    if bins != [] {
      var m := |bins| - 1;
      TotalAtMost(bins[..m], cap);
      MulAdd(m, 1, cap.cpu);
      MulAdd(m, 1, cap.mem);
      MulAdd(m, 1, cap.gpu);
    }
  }

  /** How many of the three resources a node type has. */
  function Kinds(cap: Resources): nat {
    (if cap.cpu > 0 then 1 else 0) + (if cap.mem > 0 then 1 else 0) + (if cap.gpu > 0 then 1 else 0)
  }

  lemma PartOfBins(u: int, c: int, b: nat)
    requires u <= b * c
    ensures Part(u, c) <= (if c > 0 then b else 0) as real
  {
    if c > 0 { PartSize(u, c, b); }
  }

  lemma KindTimes(cap: Resources, b: nat)
    ensures Kinds(cap) * b ==
            (if cap.cpu > 0 then b else 0) + (if cap.mem > 0 then b else 0) + (if cap.gpu > 0 then b else 0)
  {
    MulAdd(if cap.cpu > 0 then 1 else 0, if cap.mem > 0 then 1 else 0, b);
    MulAdd((if cap.cpu > 0 then 1 else 0) + if cap.mem > 0 then 1 else 0, if cap.gpu > 0 then 1 else 0, b);
  }

  lemma ShareOfBins(d: Resources, cap: Resources, b: nat)
    requires d.cpu <= b * cap.cpu && d.mem <= b * cap.mem && d.gpu <= b * cap.gpu
    ensures Share(d, cap) <= (Kinds(cap) * b) as real
  {
    PartOfBins(d.cpu, cap.cpu, b);
    PartOfBins(d.mem, cap.mem, b);
    PartOfBins(d.gpu, cap.gpu, b);
    KindTimes(cap, b);
  }

  /** Against any packing: if the same demand fits b nodes of the type without overflow, the
      run opened fewer than 2 * kinds * b of them (or at most one). */
  lemma Competitive(cfg: Config, run: seq<SimState>, k: nat, t: string, bins: seq<Resources>)
    requires Wellformed(cfg) && IsRun(cfg, run) && k < |run| && t in cfg.alloc
    requires Usable(Demand(cfg, run[k], t), cfg.alloc[t])
    requires (forall i :: 0 <= i < |bins| ==> bins[i].AtMost(cfg.alloc[t])) && Total(bins) == Demand(cfg, run[k], t)
    ensures |OfType(run[k].nodes, t)| <= 1 || |OfType(run[k].nodes, t)| < 2 * Kinds(cfg.alloc[t]) * |bins|
  {
    NodeBound(cfg, run, k, t);
    TotalAtMost(bins, cfg.alloc[t]);
    ShareOfBins(Demand(cfg, run[k], t), cfg.alloc[t], |bins|);
    if |OfType(run[k].nodes, t)| >= 2 {
      HalfBelow(|OfType(run[k].nodes, t)|, Share(Demand(cfg, run[k], t), cfg.alloc[t]), Kinds(cfg.alloc[t]), |bins|);
    }
  }

  lemma HalfBelow(count: nat, share: real, kinds: nat, b: nat)
    requires share > (count / 2) as real && share <= (kinds * b) as real
    ensures count < 2 * kinds * b
  {
    assert count / 2 < kinds * b;
    assert 2 * kinds * b == 2 * (kinds * b);
  }
}
