/** run_simulation itself: nodes updated in place, the draw left open, proved to be a
    run of the transition system. */
module ClusterProgram {
  import opened Options
  import opened Sequences
  import opened RunnerDemand
  import opened ClusterSim

  class SimNode {
    const instanceType: string
    const totalCpuM: int
    const totalMemMi: int
    const totalGpu: int
    var usedCpuM: int
    var usedMemMi: int
    var usedGpu: int
    var runnerCount: nat

    constructor (instanceType: string, total: Resources)
      ensures View() == NodeState(instanceType, total, Resources(0, 0, 0), 0)
    {
      this.instanceType := instanceType;
      totalCpuM, totalMemMi, totalGpu := total.cpu, total.mem, total.gpu;
      usedCpuM, usedMemMi, usedGpu, runnerCount := 0, 0, 0, 0;
    }

    ghost function View(): NodeState
      reads this
    {
      NodeState(instanceType, Resources(totalCpuM, totalMemMi, totalGpu),
                Resources(usedCpuM, usedMemMi, usedGpu), runnerCount)
    }

    predicate FitsHere(cpuM: int, memMi: int, gpu: int)
      reads this
      ensures FitsHere(cpuM, memMi, gpu) == Fits(View(), Resources(cpuM, memMi, gpu))
    {
      totalCpuM - usedCpuM >= cpuM && totalMemMi - usedMemMi >= memMi && totalGpu - usedGpu >= gpu
    }

    /** The score of the best-fit search. */
    method Remaining() returns (remaining: real)
      ensures remaining == Score(View())
    {
      remaining := (totalCpuM - usedCpuM + (totalMemMi - usedMemMi)) as real;
      if totalGpu > 0 {
        var gpuScale := (totalCpuM + totalMemMi) as real / totalGpu as real;
        remaining := remaining + (totalGpu - usedGpu) as real * gpuScale;
      }
    }

    /** Place one more runner here. */
    method Take(d: Resources)
      modifies this
      ensures View() == AddTo(old(View()), d)
    {
      usedCpuM := usedCpuM + d.cpu;
      usedMemMi := usedMemMi + d.mem;
      usedGpu := usedGpu + d.gpu;
      runnerCount := runnerCount + 1;
    }
  }

  ghost function NodeSet(nodes: seq<SimNode>): set<SimNode> {
    set i | 0 <= i < |nodes| :: nodes[i]
  }

  ghost function Views(nodes: seq<SimNode>): (v: seq<NodeState>)
    reads nodes
    ensures |v| == |nodes| && forall i :: 0 <= i < |nodes| ==> v[i] == nodes[i].View()
  {
    seq(|nodes|, i requires 0 <= i < |nodes| reads nodes => nodes[i].View())
  }

  method BestFitPlace(nodes: seq<SimNode>, d: Resources, instanceType: string) returns (bestIdx: Option<nat>)
    ensures IsBestFit(Views(nodes), d, instanceType, bestIdx)
    ensures bestIdx.Some? ==> bestIdx.value < |nodes| && Tightest(Views(nodes), d, instanceType, bestIdx.value)
  {
    bestIdx := None;
    var bestRemaining: Option<real> := None;
    ghost var views := Views(nodes);
    ghost var score := (n: NodeState) => Score(n);
    for i := 0 to |nodes|
      invariant IsBestBy(views[..i], d, instanceType, bestIdx, score)
      invariant bestRemaining == if bestIdx.Some? then Some(score(views[bestIdx.value])) else None
    {
      assert views[..i + 1] == views[..i] + [views[i]];
      BestByNext(views[..i], views[i], d, instanceType, bestIdx, score);
      var node := nodes[i];
      if node.instanceType != instanceType {
        continue;
      }
      if !node.FitsHere(d.cpu, d.mem, d.gpu) {
        continue;
      }
      var remaining := node.Remaining();
      if bestRemaining == None || remaining < bestRemaining.value {
        bestRemaining, bestIdx := Some(remaining), Some(i);
      }
    }
    assert views[..|nodes|] == views;
    if bestIdx.Some? { BestIsTightest(views, d, instanceType, bestIdx.value); }
  }

  /** Place a runner on its best fit or on a new node; not ok when its type cannot be provisioned. */
  method PlaceRunner(nodes: seq<SimNode>, runner: Runner, alloc: map<string, Resources>)
    returns (ok: bool, out: seq<SimNode>, ghost place: Option<nat>)
    requires Distinct(nodes)
    modifies NodeSet(nodes)
    ensures IsBestFit(old(Views(nodes)), PerRunnerTotal(runner), runner.instanceType, place)
    ensures ok == (place.Some? || runner.instanceType in alloc)
    ensures Distinct(out) && fresh(NodeSet(out) - NodeSet(nodes))
    ensures Views(out) ==
            if place.Some? then
              old(Views(nodes))[place.value := AddTo(old(Views(nodes))[place.value], PerRunnerTotal(runner))]
            else if ok then
              old(Views(nodes)) +
              [NodeState(runner.instanceType, alloc[runner.instanceType], PerRunnerTotal(runner), 1)]
            else old(Views(nodes))
  {
    var d := PerRunnerTotal(runner);
    var idx := BestFitPlace(nodes, d, runner.instanceType);
    place, out, ok := idx, nodes, true;
    if idx.Some? {
      nodes[idx.value].Take(d);
    } else if runner.instanceType in alloc {
      var node := new SimNode(runner.instanceType, alloc[runner.instanceType]);
      node.Take(d);
      out := nodes + [node];
    } else {
      ok := false;
    }
  }

  // ----- the simulation

  /** {r["name"]: r for r in runner_defs}: the last definition of a name counts. */
  function RunnerByName(defs: seq<Runner>): map<string, Runner> {
    if defs == [] then map[] else RunnerByName(defs[..|defs| - 1])[defs[|defs| - 1].name := defs[|defs| - 1]]
  }

  /** A name is known when some definition has it, and then by the last one that does. */
  lemma {:induction false} LastDefinition(defs: seq<Runner>, name: string)
    ensures name in RunnerByName(defs) <==> exists i :: 0 <= i < |defs| && defs[i].name == name
    ensures name in RunnerByName(defs) ==>
              exists i :: 0 <= i < |defs| && defs[i].name == name && defs[i] == RunnerByName(defs)[name] &&
                          forall j :: i < j < |defs| ==> defs[j].name != name
    decreases |defs|
  {
    if defs != [] {
      var m := |defs| - 1;
      LastDefinition(defs[..m], name);
      if defs[m].name == name {
        assert defs[m] == RunnerByName(defs)[name];
      } else if name in RunnerByName(defs) {
        var i :| 0 <= i < m && defs[..m][i].name == name && defs[..m][i] == RunnerByName(defs[..m])[name] &&
                 forall j :: i < j < m ==> defs[..m][j].name != name;
        assert defs[i] == RunnerByName(defs)[name];
        assert forall j :: i < j < m ==> defs[j].name == defs[..m][j].name;
      }
      if i :| 0 <= i < |defs| && defs[i].name == name {
        if i < m { assert defs[..m][i].name == name; }
      }
    }
  }

  function WithDef(names: seq<string>, runners: map<string, Runner>, has: bool): seq<string> {
    if names == [] then []
    else
      var last := names[|names| - 1];
      WithDef(names[..|names| - 1], runners, has) + if (last in runners) == has then [last] else []
  }

  lemma {:induction false} WithDefDistinct(names: seq<string>, runners: map<string, Runner>, has: bool)
    requires Distinct(names)
    ensures Distinct(WithDef(names, runners, has))
    ensures forall n :: n in WithDef(names, runners, has) <==> n in names && (n in runners) == has
    ensures Subsequence(WithDef(names, runners, has), names)
  {
    if names != [] {
      var init, last := names[..|names| - 1], names[|names| - 1];
      WithDefDistinct(init, runners, has);
      SubsequenceStep(WithDef(init, runners, has), init, last, (last in runners) == has);
      assert names == init + [last];
      assert last !in init;
    }
  }

  /** The configuration a call stands for: targets without a definition are skipped. */
  function ConfigOf(defs: seq<Runner>, names: seq<string>, targets: map<string, int>,
                    alloc: map<string, Resources>, threshold: real): Config {
    var runners := RunnerByName(defs);
    Config(runners, WithDef(names, runners, true), targets, alloc, threshold)
  }

  function IndexOf(names: seq<string>, name: string): (i: nat)
    requires name in names
    ensures i < |names| && names[i] == name && name !in names[..i]
  {
    if names[0] == name then 0 else
      assert names[1..][..IndexOf(names[1..], name)] == names[1..1 + IndexOf(names[1..], name)];
      1 + IndexOf(names[1..], name)
  }

  /** Drop a name whose type cannot be provisioned from the pool. */
  method DropName(names: seq<string>, name: string, ghost draw: nat) returns (out: seq<string>)
    requires Distinct(names) && draw < |names| && names[draw] == name
    ensures out == names[..draw] + names[draw + 1..]
  {
    assert name in names;
    var idxInPool := IndexOf(names, name);
    assert idxInPool == draw;
    out := names[..idxInPool] + names[idxInPool + 1..];
  }

  /** One turn of the loop: draw one of the remaining names, then skip, place or fail it. */
  method DrawAndPlace(cfg: Config, nodes: seq<SimNode>, names: seq<string>, failed: set<string>, ghost s: SimState)
    returns (nodes': seq<SimNode>, names': seq<string>, failed': set<string>, chosen: Option<string>,
             ghost draw: nat, ghost place: Option<nat>)
    requires forall n :: n in names ==> n in cfg.runners
    requires Distinct(names) && names != []
    requires Distinct(nodes) && Views(nodes) == s.nodes && names == s.names && failed == s.failed
    modifies NodeSet(nodes)
    ensures draw < |s.names| && (place.Some? ==> place.value < |s.nodes|)
    ensures IsTurn(cfg, s, Turn(cfg, s, draw, place), draw, place)
    ensures Distinct(nodes') && fresh(NodeSet(nodes') - NodeSet(nodes))
    ensures var s' := Turn(cfg, s, draw, place);
            && Views(nodes') == s'.nodes && names' == s'.names && failed' == s'.failed
            && s'.total == s.total + (if chosen.Some? then 1 else 0)
            && s'.deployed == if chosen.Some? then s.deployed[chosen.value := Count(s.deployed, chosen.value) + 1]
                              else s.deployed
  {
    nodes', names', failed', chosen := nodes, names, failed, None;
    var i: nat :| i < |names|;
    draw := i;
    var name := names[i];
    assert name in names;
    var runner := cfg.runners[name];
    if runner.instanceType in failed {
      place := SomeBestFit(s.nodes, PerRunnerTotal(runner), runner.instanceType);
      names' := DropName(names, name, draw);
    } else {
      var ok;
      ok, nodes', place := PlaceRunner(nodes, runner, cfg.alloc);
      if ok {
        chosen := Some(name);
      } else {
        failed' := failed + {runner.instanceType};
      }
    }
  }

  lemma {:induction false} SomeBestFit(nodes: seq<NodeState>, d: Resources, t: string) returns (place: Option<nat>)
    ensures IsBestFit(nodes, d, t, place)
    decreases |nodes|
  {
    var score := (n: NodeState) => Score(n);
    if nodes == [] {
      return None;
    }
    var m := |nodes| - 1;
    var p := SomeBestFit(nodes[..m], d, t);
    BestByNext(nodes[..m], nodes[m], d, t, p, score);
    assert nodes[..m] + [nodes[m]] == nodes;
    place := if Takes(nodes[m], d, t) && (p == None || score(nodes[m]) < score(nodes[p.value])) then Some(m) else p;
  }

  datatype SimResult = SimResult(nodes: seq<SimNode>, deployed: map<string, nat>, targets: map<string, int>,
                                 skipped: seq<string>)

  function Restrict(targets: map<string, int>, names: seq<string>): (r: map<string, int>)
    ensures r.Keys == (set n | n in names && n in targets) && forall n :: n in r ==> r[n] == targets[n]
  {
    map n | n in names && n in targets :: targets[n]
  }

  /** The variables of the program hold the state s. */
  ghost predicate Tracks(s: SimState, nodes: seq<SimNode>, names: seq<string>, deployed: map<string, nat>, total: int,
                         failed: set<string>)
    reads nodes
  {
    && Distinct(nodes) && Views(nodes) == s.nodes
    && names == s.names && deployed == s.deployed && total == s.total && failed == s.failed
  }

  ghost function LastOf(run: seq<SimState>): SimState
    requires run != []
  {
    run[|run| - 1]
  }

  /** The rest of the loop body, after the tests that stop it. */
  method SimTurn(cfg: Config, nodes: seq<SimNode>, names: seq<string>, deployed: map<string, nat>, total: int,
                 failed: set<string>, ghost run: seq<SimState>)
    returns (nodes': seq<SimNode>, names': seq<string>, deployed': map<string, nat>, total': int, failed': set<string>,
             ghost run': seq<SimState>)
    requires Wellformed(cfg) && IsRun(cfg, run) && NamesOk(cfg, LastOf(run)) && !Halted(cfg, LastOf(run))
    requires Tracks(LastOf(run), nodes, names, deployed, total, failed)
    modifies NodeSet(nodes)
    ensures IsRun(cfg, run') && NamesOk(cfg, LastOf(run'))
    ensures Tracks(LastOf(run'), nodes', names', deployed', total', failed')
    ensures 0 <= Measure(cfg, LastOf(run')) < Measure(cfg, LastOf(run))
    ensures forall i :: 0 <= i < |nodes'| ==> nodes'[i] in nodes || fresh(nodes'[i])
  {
    deployed', total' := deployed, total;
    NamesHaveRunners(cfg, LastOf(run));
    ghost var draw, place;
    var chosen;
    nodes', names', failed', chosen, draw, place := DrawAndPlace(cfg, nodes, names, failed, LastOf(run));
    if chosen.Some? {
      deployed' := deployed[chosen.value := Count(deployed, chosen.value) + 1];
      total' := total + 1;
    }
    run' := ExtendRun(cfg, run, draw, place);
    assert forall i :: 0 <= i < |nodes'| ==> nodes'[i] in NodeSet(nodes');
  }

  /** The loop of run_simulation, on a pool that is not empty. */
  method Simulate(cfg: Config) returns (nodes: seq<SimNode>, deployed: map<string, nat>, ghost run: seq<SimState>)
    requires Wellformed(cfg) && Positive(cfg.order, cfg.targets) != []
    ensures IsRun(cfg, run) && Halted(cfg, LastOf(run))
    ensures Views(nodes) == LastOf(run).nodes && deployed == LastOf(run).deployed
    ensures forall i :: 0 <= i < |nodes| ==> fresh(nodes[i])
  {
    var names := Positive(cfg.order, cfg.targets);
    var maxDeploy := MaxDeploy(SumTargets(cfg.order, cfg.targets));
    var total := 0;
    var failed: set<string> := {};
    nodes, deployed := [], map n | n in cfg.order :: 0;
    ghost var s := Init(cfg);
    run := [s];
    NamesInit(cfg);
    while true
      invariant IsRun(cfg, run) && s == LastOf(run) && NamesOk(cfg, s)
      invariant Tracks(s, nodes, names, deployed, total, failed)
      invariant forall i :: 0 <= i < |nodes| ==> fresh(nodes[i])
      decreases Measure(cfg, s)
    {
      if total > 0 {
        var mape := WeightedMape(cfg.order, deployed, cfg.targets);
        if mape <= cfg.threshold {
          break;
        }
      }
      if total >= maxDeploy {
        break;
      }
      if names == [] {
        break;
      }
      nodes, names, deployed, total, failed, run := SimTurn(cfg, nodes, names, deployed, total, failed, run);
      s := LastOf(run);
    }
    assert Halted(cfg, s);
  }

  lemma NamesHaveRunners(cfg: Config, s: SimState)
    requires Wellformed(cfg) && NamesOk(cfg, s)
    ensures forall n :: n in s.names ==> n in cfg.runners
  {
  }

  lemma ExtendRun(cfg: Config, run: seq<SimState>, draw: nat, place: Option<nat>) returns (run': seq<SimState>)
    requires Wellformed(cfg) && IsRun(cfg, run) && NamesOk(cfg, LastOf(run)) && !Halted(cfg, LastOf(run))
    requires draw < |LastOf(run).names| && LastOf(run).names[draw] in cfg.runners
    requires place.Some? ==> place.value < |LastOf(run).nodes|
    requires IsTurn(cfg, LastOf(run), Turn(cfg, LastOf(run), draw, place), draw, place)
    ensures run' != [] && LastOf(run') == Turn(cfg, LastOf(run), draw, place)
    ensures IsRun(cfg, run') && NamesOk(cfg, LastOf(run'))
    ensures 0 <= Measure(cfg, LastOf(run')) < Measure(cfg, LastOf(run))
  {
    var s := LastOf(run);
    var s' := Turn(cfg, s, draw, place);
    run' := run + [s'];
    assert Step(cfg, s, s');
    forall j, k | 0 <= j < k < |run'| && k == j + 1
      ensures Step(cfg, run'[j], run'[k])
    {
      if k < |run| { assert run'[j] == run[j] && run'[k] == run[k]; }
    }
    NamesStep(cfg, s, s');
    MeasureFalls(cfg, s, s');
  }

  method RunSimulation(defs: seq<Runner>, names: seq<string>, targets: map<string, int>,
                       alloc: map<string, Resources>, threshold: real)
    returns (r: SimResult, ghost run: seq<SimState>)
    requires Distinct(names) && targets.Keys == set n | n in names
    ensures r.skipped == WithDef(names, RunnerByName(defs), false)
    ensures var cfg := ConfigOf(defs, names, targets, alloc, threshold);
            && Wellformed(cfg)
            && r.targets == (if cfg.order == [] then targets else Restrict(targets, cfg.order))
            && if Positive(cfg.order, targets) == [] then r.nodes == [] && r.deployed == map[]
               else && IsRun(cfg, run) && Halted(cfg, LastOf(run))
                    && Views(r.nodes) == LastOf(run).nodes && r.deployed == LastOf(run).deployed
  {
    var runners := RunnerByName(defs);
    var order, skipped := [], [];
    for i := 0 to |names|
      invariant order == WithDef(names[..i], runners, true) && skipped == WithDef(names[..i], runners, false)
    {
      assert names[..i + 1][..i] == names[..i];
      if names[i] in runners {
        order := order + [names[i]];
      } else {
        skipped := skipped + [names[i]];
      }
    }
    assert names[..|names|] == names;
    WithDefDistinct(names, runners, true);
    var cfg := Config(runners, order, targets, alloc, threshold);
    run := [];
    if cfg.order == [] {
      return SimResult([], map[], targets, skipped), run;
    }
    if Positive(cfg.order, targets) == [] {
      return SimResult([], map[], Restrict(targets, cfg.order), skipped), run;
    }
    var nodes, deployed;
    nodes, deployed, run := Simulate(cfg);
    r := SimResult(nodes, deployed, Restrict(targets, cfg.order), skipped);
  }
}
