/** What every run of the simulation keeps: usage is conserved, nodes of one type
    crowd each other out, and a node is overfull only when its first runner was too big. */
module ClusterPacking {
  import opened Options
  import opened Sequences
  import opened Arithmetic
  import opened RunnerDemand
  import opened ClusterSim

  // ----- conservation

  /** All instance types, or one of them. */
  predicate Selects(of: Option<string>, instanceType: string) {
    of == None || of == Some(instanceType)
  }

  function UsedIn(n: NodeState, of: Option<string>, k: Kind): int {
    if Selects(of, n.instanceType) then n.used.Get(k) else 0
  }

  function SumUsed(nodes: seq<NodeState>, of: Option<string>, k: Kind): int {
    if nodes == [] then 0
    else SumUsed(nodes[..|nodes| - 1], of, k) + UsedIn(nodes[|nodes| - 1], of, k)
  }

  function DemandOf(cfg: Config, name: string, of: Option<string>, k: Kind): int {
    if name in cfg.runners && Selects(of, cfg.runners[name].instanceType)
    then PerRunnerTotal(cfg.runners[name]).Get(k) else 0
  }

  function SumDemand(cfg: Config, order: seq<string>, deployed: map<string, nat>, of: Option<string>, k: Kind): int {
    if order == [] then 0
    else
      var n := order[|order| - 1];
      SumDemand(cfg, order[..|order| - 1], deployed, of, k) + Count(deployed, n) * DemandOf(cfg, n, of, k)
  }

  function SumRunners(nodes: seq<NodeState>): nat {
    if nodes == [] then 0 else SumRunners(nodes[..|nodes| - 1]) + nodes[|nodes| - 1].runnerCount
  }

  function SumDeployed(order: seq<string>, deployed: map<string, nat>): nat {
    if order == [] then 0 else SumDeployed(order[..|order| - 1], deployed) + Count(deployed, order[|order| - 1])
  }

  ghost predicate Conserved(cfg: Config, s: SimState) {
    && (forall of, k :: SumUsed(s.nodes, of, k) == SumDemand(cfg, cfg.order, s.deployed, of, k))
    && SumRunners(s.nodes) == s.total
    && SumDeployed(cfg.order, s.deployed) == s.total
  }

  lemma {:induction false} SumUsedUpdate(nodes: seq<NodeState>, b: nat, n: NodeState, of: Option<string>, k: Kind)
    requires b < |nodes|
    ensures SumUsed(nodes[b := n], of, k) == SumUsed(nodes, of, k) - UsedIn(nodes[b], of, k) + UsedIn(n, of, k)
    ensures SumRunners(nodes[b := n]) == SumRunners(nodes) - nodes[b].runnerCount + n.runnerCount
    decreases |nodes|
  {
    var m := |nodes| - 1;
    if b == m {
      assert nodes[b := n][..m] == nodes[..m];
    } else {
      assert nodes[b := n][..m] == nodes[..m][b := n];
      SumUsedUpdate(nodes[..m], b, n, of, k);
    }
  }

  lemma SumUsedAppend(nodes: seq<NodeState>, n: NodeState, of: Option<string>, k: Kind)
    ensures SumUsed(nodes + [n], of, k) == SumUsed(nodes, of, k) + UsedIn(n, of, k)
    ensures SumRunners(nodes + [n]) == SumRunners(nodes) + n.runnerCount
  {
    assert (nodes + [n])[..|nodes|] == nodes;
  }

  /** Running totals p of what the nodes use end at the sum. */
  lemma {:induction false} UsedAdds(nodes: seq<NodeState>, of: Option<string>, k: Kind, p: seq<int>)
    requires |p| == |nodes| + 1 && p[0] == 0
    requires forall i, j :: 0 <= i < |nodes| && j == i + 1 ==>
               p[j] == p[i] + if of == None || of == Some(nodes[i].instanceType) then nodes[i].used.Get(k) else 0
    ensures SumUsed(nodes, of, k) == p[|nodes|]
    decreases |nodes|
  {
    if nodes != [] {
      var m := |nodes| - 1;
      UsedAdds(nodes[..m], of, k, p[..m + 1]);
    }
  }

  /** Running totals q of what the deployed runners take end at the sum. */
  lemma {:induction false} DemandAdds(cfg: Config, order: seq<string>, deployed: map<string, nat>, of: Option<string>,
                                      k: Kind, q: seq<int>)
    requires forall n :: n in order ==> n in cfg.runners && n in deployed
    requires |q| == |order| + 1 && q[0] == 0
    requires forall i, j :: 0 <= i < |order| && j == i + 1 ==>
               var r := cfg.runners[order[i]];
               q[j] == q[i] + if of == None || of == Some(r.instanceType) then deployed[order[i]] * Request(r, k) else 0
    ensures SumDemand(cfg, order, deployed, of, k) == q[|order|]
    decreases |order|
  {
    if order != [] {
      var m := |order| - 1;
      var name := order[m];
      assert name in order;
      DemandAdds(cfg, order[..m], deployed, of, k, q[..m + 1]);
      RequestIs(cfg.runners[name], k);
      assert SumDemand(cfg, order, deployed, of, k) ==
             SumDemand(cfg, order[..m], deployed, of, k) + Count(deployed, name) * DemandOf(cfg, name, of, k);
    }
  }

  /** In every reachable state, what the nodes of a type (or all of them) use of a resource, added up node by
      node, is what the deployed runners take of it, added up name by name. */
  lemma UsageIsDemand(cfg: Config, run: seq<SimState>, n: nat, of: Option<string>, k: Kind, p: seq<int>, q: seq<int>)
    requires Wellformed(cfg) && IsRun(cfg, run) && n < |run|
    requires |p| == |run[n].nodes| + 1 && p[0] == 0
    requires forall i, j :: 0 <= i < |run[n].nodes| && j == i + 1 ==>
               var node := run[n].nodes[i];
               p[j] == p[i] + if of == None || of == Some(node.instanceType) then node.used.Get(k) else 0
    requires |q| == |cfg.order| + 1 && q[0] == 0
    requires forall i, j :: 0 <= i < |cfg.order| && j == i + 1 ==>
               var name := cfg.order[i]; var r := cfg.runners[name];
               q[j] == q[i] + if of == None || of == Some(r.instanceType)
                              then Count(run[n].deployed, name) * Request(r, k) else 0
    ensures p[|run[n].nodes|] == q[|cfg.order|]
  {
    RunInv(cfg, run, n);
    UsedAdds(run[n].nodes, of, k, p);
    DemandAdds(cfg, cfg.order, run[n].deployed, of, k, q);
  }

  /** Deploying one more runner of a name that is not listed changes no sum. */
  lemma {:induction false} SumsFrame(cfg: Config, order: seq<string>, deployed: map<string, nat>, name: string, c: nat,
                                     of: Option<string>, k: Kind)
    requires name !in order
    ensures SumDemand(cfg, order, deployed[name := c], of, k) == SumDemand(cfg, order, deployed, of, k)
    ensures SumDeployed(order, deployed[name := c]) == SumDeployed(order, deployed)
    decreases |order|
  {
    if order != [] {
      assert order[|order| - 1] in order;
      SumsFrame(cfg, order[..|order| - 1], deployed, name, c, of, k);
    }
  }

  /** Deploying one more of a listed name adds its demand once. */
  lemma {:induction false} SumsDeploy(cfg: Config, order: seq<string>, deployed: map<string, nat>, name: string,
                                      of: Option<string>, k: Kind)
    requires name in order && Distinct(order)
    ensures var more := deployed[name := Count(deployed, name) + 1];
            && SumDemand(cfg, order, more, of, k) == SumDemand(cfg, order, deployed, of, k) + DemandOf(cfg, name, of, k)
            && SumDeployed(order, more) == SumDeployed(order, deployed) + 1
    decreases |order|
  {
    var init, last := order[..|order| - 1], order[|order| - 1];
    var c := Count(deployed, name);
    assert order == init + [last];
    if last == name {
      SumsFrame(cfg, init, deployed, name, c + 1, of, k);
      MulAdd(c, 1, DemandOf(cfg, name, of, k));
    } else {
      SumsDeploy(cfg, init, deployed, name, of, k);
    }
  }

  lemma {:induction false} SumsZero(cfg: Config, order: seq<string>, deployed: map<string, nat>, of: Option<string>,
                                    k: Kind)
    requires forall n :: Count(deployed, n) == 0
    ensures SumDemand(cfg, order, deployed, of, k) == 0 && SumDeployed(order, deployed) == 0
    decreases |order|
  {
    if order != [] { SumsZero(cfg, order[..|order| - 1], deployed, of, k); }
  }

  lemma ConservedInit(cfg: Config)
    ensures Conserved(cfg, Init(cfg))
  {
    forall of, k
      ensures SumDemand(cfg, cfg.order, Init(cfg).deployed, of, k) == 0
      ensures SumDeployed(cfg.order, Init(cfg).deployed) == 0
    {
      SumsZero(cfg, cfg.order, Init(cfg).deployed, of, k);
    }
    SumsZero(cfg, cfg.order, Init(cfg).deployed, None, Cpu);
  }

  /** The nodes after a runner was placed, on the best fit or on a new node. */
  ghost predicate Placed(cfg: Config, nodes: seq<NodeState>, nodes': seq<NodeState>, r: Runner, place: Option<nat>) {
    var d := PerRunnerTotal(r);
    match place
    case Some(b) => b < |nodes| && nodes[b].instanceType == r.instanceType && nodes' == nodes[b := AddTo(nodes[b], d)]
    case None => r.instanceType in cfg.alloc &&
                 nodes' == nodes + [NodeFor(cfg, r)]
  }

  lemma PlacedUsed(cfg: Config, nodes: seq<NodeState>, nodes': seq<NodeState>, name: string, place: Option<nat>,
                   of: Option<string>, k: Kind)
    requires name in cfg.runners && Placed(cfg, nodes, nodes', cfg.runners[name], place)
    ensures SumUsed(nodes', of, k) == SumUsed(nodes, of, k) + DemandOf(cfg, name, of, k)
    ensures SumRunners(nodes') == SumRunners(nodes) + 1
  {
    var r := cfg.runners[name];
    var d := PerRunnerTotal(r);
    match place
    case Some(b) =>
      SumUsedUpdate(nodes, b, AddTo(nodes[b], d), of, k);
    case None =>
      SumUsedAppend(nodes, NodeFor(cfg, r), of, k);
  }

  lemma ConservedDeploy(cfg: Config, s: SimState, name: string, nodes': seq<NodeState>, place: Option<nat>)
    requires Wellformed(cfg) && Conserved(cfg, s) && name in cfg.order
    requires Placed(cfg, s.nodes, nodes', cfg.runners[name], place)
    ensures Conserved(cfg, Deploy(s, name, nodes'))
  {
    forall of, k
      ensures SumUsed(nodes', of, k) == SumDemand(cfg, cfg.order, Deploy(s, name, nodes').deployed, of, k)
    {
      PlacedUsed(cfg, s.nodes, nodes', name, place, of, k);
      SumsDeploy(cfg, cfg.order, s.deployed, name, of, k);
    }
    PlacedUsed(cfg, s.nodes, nodes', name, place, None, Cpu);
    SumsDeploy(cfg, cfg.order, s.deployed, name, None, Cpu);
  }

  // ----- crowding: two nodes of one type never fit in one

  ghost predicate Crowded(m: NodeState, n: NodeState) {
    exists k :: m.used.Get(k) + n.used.Get(k) > n.total.Get(k)
  }

  ghost predicate AnyFit(cfg: Config, nodes: seq<NodeState>) {
    && (forall i :: 0 <= i < |nodes| ==>
          && nodes[i].instanceType in cfg.alloc && nodes[i].total == cfg.alloc[nodes[i].instanceType]
          && (forall k :: nodes[i].used.Get(k) >= 0)
          && nodes[i].used.cpu > 0)
    && forall i, j :: 0 <= i < j < |nodes| && nodes[i].instanceType == nodes[j].instanceType ==>
         Crowded(nodes[i], nodes[j])
  }

  lemma DemandNonNegative(r: Runner, k: Kind)
    ensures PerRunnerTotal(r).Get(k) >= 0
  {
  }

  lemma CrowdedMore(m: NodeState, n: NodeState, m': NodeState, n': NodeState)
    requires Crowded(m, n) && n'.total == n.total
    requires forall k :: m'.used.Get(k) >= m.used.Get(k) && n'.used.Get(k) >= n.used.Get(k)
    ensures Crowded(m', n')
  {
    var k :| m.used.Get(k) + n.used.Get(k) > n.total.Get(k);
    assert m'.used.Get(k) + n'.used.Get(k) > n'.total.Get(k);
  }

  lemma AnyFitGrow(cfg: Config, nodes: seq<NodeState>, b: nat, r: Runner)
    requires AnyFit(cfg, nodes) && b < |nodes|
    ensures AnyFit(cfg, nodes[b := AddTo(nodes[b], PerRunnerTotal(r))])
  {
    var d := PerRunnerTotal(r);
    var nodes' := nodes[b := AddTo(nodes[b], d)];
    forall i, k | 0 <= i < |nodes|
      ensures nodes'[i].used.Get(k) >= nodes[i].used.Get(k) && nodes'[i].total == nodes[i].total
    {
      DemandNonNegative(r, k);
    }
    forall i, j | 0 <= i < j < |nodes'| && nodes'[i].instanceType == nodes'[j].instanceType
      ensures Crowded(nodes'[i], nodes'[j])
    {
      CrowdedMore(nodes[i], nodes[j], nodes'[i], nodes'[j]);
    }
  }

  /** A new node is opened only when no node of its type takes the runner. */
  lemma AnyFitOpen(cfg: Config, nodes: seq<NodeState>, r: Runner)
    requires AnyFit(cfg, nodes) && r.instanceType in cfg.alloc
    requires IsBestFit(nodes, PerRunnerTotal(r), r.instanceType, None)
    ensures AnyFit(cfg, nodes + [NodeFor(cfg, r)])
  {
    var d := PerRunnerTotal(r);
    var n := NodeFor(cfg, r);
    forall i | 0 <= i < |nodes| && nodes[i].instanceType == r.instanceType
      ensures Crowded(nodes[i], n)
    {
      var m := nodes[i];
      assert !Fits(m, d);
      assert m.used.Get(Cpu) + n.used.Get(Cpu) > n.total.Get(Cpu) ||
             m.used.Get(Mem) + n.used.Get(Mem) > n.total.Get(Mem) ||
             m.used.Get(Gpu) + n.used.Get(Gpu) > n.total.Get(Gpu);
    }
    forall k
      ensures d.Get(k) >= 0
    {
      DemandNonNegative(r, k);
    }
  }

  // ----- overflow: only a lone runner too big for a fresh node

  predicate Overfull(n: NodeState) {
    !n.used.AtMost(n.total)
  }

  ghost predicate SomeOverfull(nodes: seq<NodeState>) {
    exists i :: 0 <= i < |nodes| && Overfull(nodes[i])
  }

  ghost predicate Overflows(s: SimState) {
    SomeOverfull(s.nodes)
  }

  /** The runner does not fit an empty node of its type. */
  predicate TooBig(cfg: Config, name: string) {
    name in cfg.runners && cfg.runners[name].instanceType in cfg.alloc &&
    !PerRunnerTotal(cfg.runners[name]).AtMost(cfg.alloc[cfg.runners[name].instanceType])
  }

  /** The node holds one runner of this name and nothing else. */
  ghost predicate Lone(cfg: Config, n: NodeState, name: string) {
    && name in cfg.order && name in cfg.runners && n.runnerCount == 1
    && n.instanceType == cfg.runners[name].instanceType && n.used == PerRunnerTotal(cfg.runners[name])
  }

  ghost predicate Explained(cfg: Config, deployed: map<string, nat>, n: NodeState) {
    exists name :: Lone(cfg, n, name) && TooBig(cfg, name) && Count(deployed, name) > 0
  }

  ghost predicate Shown(cfg: Config, nodes: seq<NodeState>, name: string) {
    exists i :: 0 <= i < |nodes| && Overfull(nodes[i]) && Lone(cfg, nodes[i], name)
  }

  /** Every overfull node holds one runner that is too big. */
  ghost predicate OverflowExplained(cfg: Config, deployed: map<string, nat>, nodes: seq<NodeState>) {
    forall i :: 0 <= i < |nodes| && Overfull(nodes[i]) ==> Explained(cfg, deployed, nodes[i])
  }

  /** Every deployed runner that is too big sits alone on an overfull node. */
  ghost predicate OverflowShown(cfg: Config, deployed: map<string, nat>, nodes: seq<NodeState>) {
    forall name :: name in cfg.order && TooBig(cfg, name) && Count(deployed, name) > 0 ==> Shown(cfg, nodes, name)
  }

  /** A runner that fits somewhere is not too big, and its node does not overflow. */
  lemma FitsNotTooBig(cfg: Config, nodes: seq<NodeState>, b: nat, name: string)
    requires AnyFit(cfg, nodes) && b < |nodes| && name in cfg.runners
    requires Takes(nodes[b], PerRunnerTotal(cfg.runners[name]), cfg.runners[name].instanceType)
    ensures !TooBig(cfg, name) && !Overfull(nodes[b])
    ensures !Overfull(AddTo(nodes[b], PerRunnerTotal(cfg.runners[name])))
  {
    var d := PerRunnerTotal(cfg.runners[name]);
    assert nodes[b].used.Get(Cpu) >= 0 && nodes[b].used.Get(Mem) >= 0 && nodes[b].used.Get(Gpu) >= 0;
  }

  lemma ExplainedLater(cfg: Config, deployed: map<string, nat>, name: string, n: NodeState)
    requires Explained(cfg, deployed, n)
    ensures Explained(cfg, deployed[name := Count(deployed, name) + 1], n)
  {
    var m :| Lone(cfg, n, m) && TooBig(cfg, m) && Count(deployed, m) > 0;
    assert Count(deployed[name := Count(deployed, name) + 1], m) > 0;
  }

  lemma ShownLater(cfg: Config, nodes: seq<NodeState>, nodes': seq<NodeState>, name: string)
    requires Shown(cfg, nodes, name) && |nodes| <= |nodes'|
    requires forall i :: 0 <= i < |nodes| && Overfull(nodes[i]) ==> nodes'[i] == nodes[i]
    ensures Shown(cfg, nodes', name)
  {
    var i :| 0 <= i < |nodes| && Overfull(nodes[i]) && Lone(cfg, nodes[i], name);
    assert nodes'[i] == nodes[i];
  }

  /** Deploying a runner keeps both, when overfull nodes stay and new ones are explained. */
  lemma OverflowDeploy(cfg: Config, deployed: map<string, nat>, nodes: seq<NodeState>, name: string,
                       nodes': seq<NodeState>)
    requires OverflowExplained(cfg, deployed, nodes) && OverflowShown(cfg, deployed, nodes) && |nodes| <= |nodes'|
    requires forall i :: 0 <= i < |nodes| && (Overfull(nodes[i]) || Overfull(nodes'[i])) ==> nodes'[i] == nodes[i]
    requires forall i :: |nodes| <= i < |nodes'| && Overfull(nodes'[i]) ==>
               Explained(cfg, deployed[name := Count(deployed, name) + 1], nodes'[i])
    requires TooBig(cfg, name) ==> Shown(cfg, nodes', name)
    ensures var more := deployed[name := Count(deployed, name) + 1];
            OverflowExplained(cfg, more, nodes') && OverflowShown(cfg, more, nodes')
  {
    var more := deployed[name := Count(deployed, name) + 1];
    forall i | 0 <= i < |nodes'| && Overfull(nodes'[i])
      ensures Explained(cfg, more, nodes'[i])
    {
      if i < |nodes| { ExplainedLater(cfg, deployed, name, nodes[i]); }
    }
    forall n | n in cfg.order && TooBig(cfg, n) && Count(more, n) > 0
      ensures Shown(cfg, nodes', n)
    {
      if n != name { ShownLater(cfg, nodes, nodes', n); }
    }
  }

  lemma OverflowGrow(cfg: Config, deployed: map<string, nat>, nodes: seq<NodeState>, name: string, b: nat)
    requires AnyFit(cfg, nodes) && OverflowExplained(cfg, deployed, nodes) && OverflowShown(cfg, deployed, nodes)
    requires name in cfg.runners && b < |nodes|
    requires Takes(nodes[b], PerRunnerTotal(cfg.runners[name]), cfg.runners[name].instanceType)
    ensures var more := deployed[name := Count(deployed, name) + 1];
            var nodes' := nodes[b := AddTo(nodes[b], PerRunnerTotal(cfg.runners[name]))];
            OverflowExplained(cfg, more, nodes') && OverflowShown(cfg, more, nodes')
  {
    FitsNotTooBig(cfg, nodes, b, name);
    OverflowDeploy(cfg, deployed, nodes, name, nodes[b := AddTo(nodes[b], PerRunnerTotal(cfg.runners[name]))]);
  }

  lemma OverflowOpen(cfg: Config, deployed: map<string, nat>, nodes: seq<NodeState>, name: string)
    requires OverflowExplained(cfg, deployed, nodes) && OverflowShown(cfg, deployed, nodes)
    requires name in cfg.order && name in cfg.runners && cfg.runners[name].instanceType in cfg.alloc
    ensures var r := cfg.runners[name];
            var more := deployed[name := Count(deployed, name) + 1];
            var nodes' := nodes + [NodeFor(cfg, r)];
            OverflowExplained(cfg, more, nodes') && OverflowShown(cfg, more, nodes')
  {
    var r := cfg.runners[name];
    var added := NodeFor(cfg, r);
    var more := deployed[name := Count(deployed, name) + 1];
    var nodes' := nodes + [added];
    assert Lone(cfg, added, name) && (Overfull(added) <==> TooBig(cfg, name)) && Count(more, name) > 0;
    assert nodes'[|nodes|] == added;
    OverflowDeploy(cfg, deployed, nodes, name, nodes');
  }

  // ----- every run keeps all of it

  ghost predicate Inv(cfg: Config, s: SimState) {
    NamesOk(cfg, s) && Packed(cfg, s)
  }

  /** Its part about nodes and counts, kept by each way of deploying. */
  ghost predicate Packed(cfg: Config, s: SimState) {
    && Conserved(cfg, s) && AnyFit(cfg, s.nodes)
    && OverflowExplained(cfg, s.deployed, s.nodes) && OverflowShown(cfg, s.deployed, s.nodes)
  }

  lemma PackedGrow(cfg: Config, s: SimState, name: string, b: nat)
    requires Wellformed(cfg) && Packed(cfg, s) && name in cfg.order && b < |s.nodes|
    requires Takes(s.nodes[b], PerRunnerTotal(cfg.runners[name]), cfg.runners[name].instanceType)
    ensures Packed(cfg, Deploy(s, name, s.nodes[b := AddTo(s.nodes[b], PerRunnerTotal(cfg.runners[name]))]))
  {
    ConservedDeploy(cfg, s, name, s.nodes[b := AddTo(s.nodes[b], PerRunnerTotal(cfg.runners[name]))], Some(b));
    AnyFitGrow(cfg, s.nodes, b, cfg.runners[name]);
    OverflowGrow(cfg, s.deployed, s.nodes, name, b);
  }

  lemma PackedOpen(cfg: Config, s: SimState, name: string)
    requires Wellformed(cfg) && Packed(cfg, s) && name in cfg.order && cfg.runners[name].instanceType in cfg.alloc
    requires IsBestFit(s.nodes, PerRunnerTotal(cfg.runners[name]), cfg.runners[name].instanceType, None)
    ensures var r := cfg.runners[name];
            Packed(cfg, Deploy(s, name, s.nodes + [NodeFor(cfg, r)]))
  {
    var r := cfg.runners[name];
    ConservedDeploy(cfg, s, name, s.nodes + [NodeFor(cfg, r)], None);
    AnyFitOpen(cfg, s.nodes, r);
    OverflowOpen(cfg, s.deployed, s.nodes, name);
  }

  lemma InvTurn(cfg: Config, s: SimState, s': SimState, i: nat, place: Option<nat>)
    requires Wellformed(cfg) && Inv(cfg, s) && !Halted(cfg, s) && IsTurn(cfg, s, s', i, place)
    ensures Inv(cfg, s')
  {
    NamesTurn(cfg, s, i, place);
    var name := s.names[i];
    var t := cfg.runners[name].instanceType;
    if t !in s.failed && place.Some? {
      PackedGrow(cfg, s, name, place.value);
    } else if t !in s.failed && t in cfg.alloc {
      PackedOpen(cfg, s, name);
    }
  }

  lemma InvInit(cfg: Config)
    requires Wellformed(cfg)
    ensures Inv(cfg, Init(cfg))
  {
    NamesInit(cfg);
    ConservedInit(cfg);
  }

  /** Every state of every run satisfies the invariant. */
  lemma {:induction false} RunInv(cfg: Config, run: seq<SimState>, k: nat)
    requires Wellformed(cfg) && IsRun(cfg, run) && k < |run|
    ensures Inv(cfg, run[k])
  {
    if k == 0 {
      InvInit(cfg);
    } else {
      RunInv(cfg, run, k - 1);
      assert Step(cfg, run[k - 1], run[k]);
      var i: nat, place :| IsTurn(cfg, run[k - 1], run[k], i, place);
      InvTurn(cfg, run[k - 1], run[k], i, place);
    }
  }

  /** A runner that does not fit a fresh node has been deployed. */
  ghost predicate TooBigDeployed(cfg: Config, deployed: map<string, nat>) {
    exists name :: name in cfg.order && TooBig(cfg, name) && Count(deployed, name) > 0
  }

  /** The node holds one runner that does not fit a fresh node, and nothing else. */
  ghost predicate LoneTooBig(cfg: Config, n: NodeState) {
    exists name :: Lone(cfg, n, name) && TooBig(cfg, name)
  }

  /** In any reachable state some node is overfull exactly when a runner that does not
      fit a fresh node has been deployed; and an overfull node holds one such runner and nothing else. */
  lemma OverflowExactly(cfg: Config, run: seq<SimState>, k: nat)
    requires Wellformed(cfg) && IsRun(cfg, run) && k < |run|
    ensures Overflows(run[k]) <==> TooBigDeployed(cfg, run[k].deployed)
    ensures forall i :: 0 <= i < |run[k].nodes| && Overfull(run[k].nodes[i]) ==> LoneTooBig(cfg, run[k].nodes[i])
  {
    RunInv(cfg, run, k);
    OverflowBoth(cfg, run[k].deployed, run[k].nodes);
  }

  lemma ExplainedMeans(cfg: Config, deployed: map<string, nat>, n: NodeState)
    requires Explained(cfg, deployed, n)
    ensures LoneTooBig(cfg, n) && TooBigDeployed(cfg, deployed)
  {
    var name :| Lone(cfg, n, name) && TooBig(cfg, name) && Count(deployed, name) > 0;
    assert name in cfg.order && TooBig(cfg, name) && Count(deployed, name) > 0;
  }

  lemma OverflowBoth(cfg: Config, deployed: map<string, nat>, nodes: seq<NodeState>)
    requires OverflowExplained(cfg, deployed, nodes) && OverflowShown(cfg, deployed, nodes)
    ensures SomeOverfull(nodes) <==> TooBigDeployed(cfg, deployed)
    ensures forall i :: 0 <= i < |nodes| && Overfull(nodes[i]) ==> LoneTooBig(cfg, nodes[i])
  {
    forall i | 0 <= i < |nodes| && Overfull(nodes[i])
      ensures LoneTooBig(cfg, nodes[i]) && TooBigDeployed(cfg, deployed)
    {
      ExplainedMeans(cfg, deployed, nodes[i]);
    }
    if TooBigDeployed(cfg, deployed) {
      var name :| name in cfg.order && TooBig(cfg, name) && Count(deployed, name) > 0;
      assert Shown(cfg, nodes, name);
    }
  }

  // ----- which configurations overflow

  /** Only names with a positive target are drawn and deployed. */
  ghost predicate DrawnPositive(cfg: Config, s: SimState) {
    && (forall n :: n in s.names ==> n in Positive(cfg.order, cfg.targets))
    && forall n :: Count(s.deployed, n) > 0 ==> n in Positive(cfg.order, cfg.targets)
  }

  lemma DrawnPositiveTurn(cfg: Config, s: SimState, i: nat, place: Option<nat>)
    requires DrawnPositive(cfg, s) && i < |s.names| && s.names[i] in cfg.runners
    requires place.Some? ==> place.value < |s.nodes|
    ensures DrawnPositive(cfg, Turn(cfg, s, i, place))
  {
    assert s.names[i] in s.names;
    assert forall n :: n in s.names[..i] + s.names[i + 1..] ==> n in s.names;
  }

  lemma {:induction false} RunDrawnPositive(cfg: Config, run: seq<SimState>, k: nat)
    requires Wellformed(cfg) && IsRun(cfg, run) && k < |run|
    ensures DrawnPositive(cfg, run[k])
  {
    if k > 0 {
      RunDrawnPositive(cfg, run, k - 1);
      assert Step(cfg, run[k - 1], run[k]);
      var i: nat, place :| IsTurn(cfg, run[k - 1], run[k], i, place);
      DrawnPositiveTurn(cfg, run[k - 1], i, place);
    }
  }

  /** Some run of the configuration reaches an overfull node. */
  ghost predicate CanOverflow(cfg: Config) {
    exists run, k :: IsRun(cfg, run) && 0 <= k < |run| && Overflows(run[k])
  }

  /** There is room to deploy, and a name to be drawn does not fit a fresh node of its type. */
  predicate OverflowConfigured(cfg: Config) {
    Budget(cfg) > 0 && exists n :: n in Positive(cfg.order, cfg.targets) && TooBig(cfg, n)
  }

  lemma OverflowNeeds(cfg: Config, run: seq<SimState>, k: nat)
    requires Wellformed(cfg) && IsRun(cfg, run) && k < |run| && Overflows(run[k])
    ensures OverflowConfigured(cfg)
  {
    RunInv(cfg, run, k);
    RunDrawnPositive(cfg, run, k);
    ExplainedConfigured(cfg, run[k]);
  }

  lemma ExplainedConfigured(cfg: Config, s: SimState)
    requires OverflowExplained(cfg, s.deployed, s.nodes) && DrawnPositive(cfg, s) && Overflows(s)
    requires NamesOk(cfg, s) && SumDeployed(cfg.order, s.deployed) == s.total
    ensures OverflowConfigured(cfg)
  {
    var i :| 0 <= i < |s.nodes| && Overfull(s.nodes[i]);
    assert Explained(cfg, s.deployed, s.nodes[i]);
    CountedTotal(cfg.order, s.deployed);
  }

  lemma {:induction false} CountedTotal(order: seq<string>, deployed: map<string, nat>)
    ensures SumDeployed(order, deployed) == 0 ==> forall n :: n in order ==> Count(deployed, n) == 0
    decreases |order|
  {
    if order != [] {
      CountedTotal(order[..|order| - 1], deployed);
      assert order == order[..|order| - 1] + [order[|order| - 1]];
    }
  }

  /** Drawing the runner that is too big first is a run, and it overfills the first node. */
  lemma FirstDrawOverflows(cfg: Config, name: string) returns (run: seq<SimState>)
    requires Wellformed(cfg) && Budget(cfg) > 0 && name in Positive(cfg.order, cfg.targets) && TooBig(cfg, name)
    ensures IsRun(cfg, run) && |run| == 2 && Overflows(run[1])
  {
    var s := Init(cfg);
    var i :| 0 <= i < |s.names| && s.names[i] == name;
    var s' := Turn(cfg, s, i, None);
    assert IsTurn(cfg, s, s', i, None);
    assert Step(cfg, s, s');
    run := [s, s'];
    assert Overfull(s'.nodes[0]);
  }

  /** A configuration can overfill a node exactly when it has room to deploy and a positive target for
      a runner that does not fit a fresh node of its type. */
  lemma OverflowIff(cfg: Config)
    requires Wellformed(cfg)
    ensures CanOverflow(cfg) <==> OverflowConfigured(cfg)
  {
    if CanOverflow(cfg) {
      var run, k :| IsRun(cfg, run) && 0 <= k < |run| && Overflows(run[k]);
      OverflowNeeds(cfg, run, k);
    }
    if OverflowConfigured(cfg) {
      var name :| name in Positive(cfg.order, cfg.targets) && TooBig(cfg, name);
      var run := FirstDrawOverflows(cfg, name);
      assert 0 <= 1 < |run| && Overflows(run[1]);
    }
  }

  // ----- the stop on MAPE

  lemma {:induction false} ErrorsBound(order: seq<string>, deployed: map<string, nat>, targets: map<string, int>)
    ensures Abs(SumDeployed(order, deployed) - SumTargets(order, targets)) <= SumErrors(order, deployed, targets)
    decreases |order|
  {
    if order != [] { ErrorsBound(order[..|order| - 1], deployed, targets); }
  }

  /** Stopping on MAPE puts the number of deployed runners within threshold times the target of the target. */
  lemma MapeStop(cfg: Config, run: seq<SimState>, k: nat)
    requires Wellformed(cfg) && IsRun(cfg, run) && k < |run| && StopsOnMape(cfg, run[k])
    ensures SumTargets(cfg.order, cfg.targets) > 0
    ensures AtMostShare(Abs(run[k].total - SumTargets(cfg.order, cfg.targets)), cfg.threshold,
                        SumTargets(cfg.order, cfg.targets))
  {
    RunInv(cfg, run, k);
    assert Conserved(cfg, run[k]);
    var total := SumTargets(cfg.order, cfg.targets);
    assert 0 < run[k].total <= Budget(cfg);
    ErrorsBound(cfg.order, run[k].deployed, cfg.targets);
    QuotientAtMost(SumErrors(cfg.order, run[k].deployed, cfg.targets), total, cfg.threshold);
  }

  /** x <= share * total */
  predicate AtMostShare(x: nat, share: real, total: int) {
    x as real <= share * total as real
  }

  lemma QuotientAtMost(a: nat, b: int, c: real)
    requires b > 0 && a as real / b as real <= c
    ensures forall x: nat :: x <= a ==> AtMostShare(x, c, b)
  {
    var p, q := a as real, b as real;
    assert p == (p / q) * q;
    assert (c - p / q) * q >= 0.0;
    assert (c - p / q) * q == c * q - (p / q) * q;
  }
}
