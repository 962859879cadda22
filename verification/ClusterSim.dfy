/** The packing simulation as a transition system: one runner drawn per turn, placed
    on the tightest node that takes it, or on a new node. Theorems hold for every
    sequence of draws. */
module ClusterSim {
  import opened Options
  import opened Sequences
  import opened RunnerDemand

  datatype NodeState = NodeState(instanceType: string, total: Resources, used: Resources, runnerCount: nat)

  predicate Fits(n: NodeState, d: Resources) {
    n.total.cpu - n.used.cpu >= d.cpu && n.total.mem - n.used.mem >= d.mem && n.total.gpu - n.used.gpu >= d.gpu
  }

  predicate Takes(n: NodeState, d: Resources, instanceType: string) {
    n.instanceType == instanceType && Fits(n, d)
  }

  /** Remaining resources, with GPUs scaled to the size of CPU plus memory; lower is tighter. */
  function Score(n: NodeState): real {
    var left := (n.total.cpu - n.used.cpu + (n.total.mem - n.used.mem)) as real;
    if n.total.gpu > 0 then
      left + (n.total.gpu - n.used.gpu) as real * ((n.total.cpu + n.total.mem) as real / n.total.gpu as real)
    else left
  }

  /** The first of the tightest nodes that take the runner; None when no node does. */
  ghost predicate IsBestFit(nodes: seq<NodeState>, d: Resources, t: string, place: Option<nat>) {
    IsBestBy(nodes, d, t, place, n => Score(n))
  }

  ghost predicate IsBestBy(nodes: seq<NodeState>, d: Resources, t: string, place: Option<nat>,
                           score: NodeState -> real)
  {
    match place
    case None => forall i :: 0 <= i < |nodes| ==> !Takes(nodes[i], d, t)
    case Some(b) =>
      && b < |nodes| && Takes(nodes[b], d, t)
      && (forall i :: 0 <= i < |nodes| && Takes(nodes[i], d, t) ==> score(nodes[b]) <= score(nodes[i]))
      && (forall i :: 0 <= i < b && Takes(nodes[i], d, t) ==> score(nodes[b]) < score(nodes[i]))
  }

  // ----- what the score measures

  /** What is left on a node, in integers: CPU plus memory, and for a node with GPUs the share of its GPUs
      that is left as much of its whole CPU plus memory; all times the number of its GPUs. */
  function Left(n: NodeState): int {
    var plain := (n.total.cpu - n.used.cpu) + (n.total.mem - n.used.mem);
    if n.total.gpu > 0
    then n.total.gpu * plain + (n.total.gpu - n.used.gpu) * (n.total.cpu + n.total.mem)
    else plain
  }

  function Scale(n: NodeState): int {
    if n.total.gpu > 0 then n.total.gpu else 1
  }

  lemma ScaledQuotient(x: real, y: real, z: real, g: real)
    requires g > 0.0
    ensures (x + y * (z / g)) * g == x * g + y * z
  {
    var q := z / g;
    assert q * g == z;
    assert (y * q) * g == y * (q * g);
  }

  lemma ScoreMeasures(n: NodeState)
    ensures Score(n) * Scale(n) as real == Left(n) as real
  {
    if n.total.gpu > 0 {
      var plain, gpus := (n.total.cpu - n.used.cpu) + (n.total.mem - n.used.mem), n.total.gpu - n.used.gpu;
      var whole, g := n.total.cpu + n.total.mem, n.total.gpu;
      ScaledQuotient(plain as real, gpus as real, whole as real, g as real);
      assert (g * plain) as real == plain as real * g as real;
      assert (gpus * whole) as real == gpus as real * whole as real;
    }
  }

  lemma ScaleOrder(x: real, y: real, a: real, b: real)
    requires a > 0.0 && b > 0.0
    ensures x <= y ==> (x * a) * b <= (y * b) * a
    ensures x < y ==> (x * a) * b < (y * b) * a
  {
    var c := a * b;
    assert c > 0.0;
    assert (x * a) * b == x * c && (y * b) * a == y * c;
    if x <= y { assert (y - x) * c >= 0.0; }
    if x < y { assert (y - x) * c > 0.0; }
  }

  /** The best fit has the least left of all nodes that take the runner, less than any before it. */
  ghost predicate Tightest(nodes: seq<NodeState>, d: Resources, t: string, b: nat)
    requires b < |nodes|
  {
    forall i :: 0 <= i < |nodes| && Takes(nodes[i], d, t) ==>
      var x, y := Left(nodes[b]) * Scale(nodes[i]), Left(nodes[i]) * Scale(nodes[b]);
      x <= y && (i < b ==> x < y)
  }

  lemma ScaledOrder(x: real, y: real, l: int, m: int, a: int, b: int)
    requires a > 0 && b > 0 && x * a as real == l as real && y * b as real == m as real
    ensures x <= y ==> l * b <= m * a
    ensures x < y ==> l * b < m * a
  {
    ScaleOrder(x, y, a as real, b as real);
    assert (l * b) as real == l as real * b as real;
    assert (m * a) as real == m as real * a as real;
  }

  lemma TighterThan(m: NodeState, n: NodeState)
    ensures Score(m) <= Score(n) ==> Left(m) * Scale(n) <= Left(n) * Scale(m)
    ensures Score(m) < Score(n) ==> Left(m) * Scale(n) < Left(n) * Scale(m)
  {
    ScoreMeasures(m);
    ScoreMeasures(n);
    ScaledOrder(Score(m), Score(n), Left(m), Left(n), Scale(m), Scale(n));
  }

  lemma BestIsTightest(nodes: seq<NodeState>, d: Resources, t: string, b: nat)
    requires IsBestFit(nodes, d, t, Some(b))
    ensures b < |nodes| && Takes(nodes[b], d, t) && Tightest(nodes, d, t, b)
  {
    forall i | 0 <= i < |nodes| && Takes(nodes[i], d, t)
      ensures var x, y := Left(nodes[b]) * Scale(nodes[i]), Left(nodes[i]) * Scale(nodes[b]);
              x <= y && (i < b ==> x < y)
    {
      TighterThan(nodes[b], nodes[i]);
    }
  }

  /** Between nodes of one size, as all nodes of a type are: no other that takes the runner has less CPU plus
      memory and, weighed by the size of the node, GPUs left. */
  lemma BestOfOneSize(nodes: seq<NodeState>, d: Resources, t: string, b: nat, i: nat)
    requires IsBestFit(nodes, d, t, Some(b)) && i < |nodes| && Takes(nodes[i], d, t)
    requires b < |nodes| ==> nodes[i].total == nodes[b].total
    ensures b < |nodes|
    ensures var c, g := nodes[b].total.cpu + nodes[b].total.mem, nodes[b].total.gpu;
            var x := c - nodes[b].used.cpu - nodes[b].used.mem;
            var y := c - nodes[i].used.cpu - nodes[i].used.mem;
            if g > 0 then
              var x', y' := g * x + (g - nodes[b].used.gpu) * c, g * y + (g - nodes[i].used.gpu) * c;
              x' <= y' && (i < b ==> x' < y')
            else x <= y && (i < b ==> x < y)
  {
    BestIsTightest(nodes, d, t, b);
    CancelScale(Left(nodes[b]), Left(nodes[i]), Scale(nodes[b]));
  }

  lemma CancelScale(x: int, y: int, k: int)
    requires k > 0
    ensures x * k <= y * k ==> x <= y
    ensures x * k < y * k ==> x < y
  {
    MinusTimes(x, y, k);
    if x > y { PositiveTimes(x - y, k); }
    assert x == y ==> x * k == y * k;
  }

  lemma MinusTimes(x: int, y: int, k: int)
    ensures (x - y) * k == x * k - y * k
  {
  }

  lemma PositiveTimes(x: int, k: int)
    requires x > 0 && k > 0
    ensures x * k > 0
  {
  }

  /** Looking at one more node. */
  lemma BestByNext(nodes: seq<NodeState>, n: NodeState, d: Resources, t: string, place: Option<nat>,
                   score: NodeState -> real)
    requires IsBestBy(nodes, d, t, place, score)
    ensures var better := Takes(n, d, t) && (place == None || score(n) < score(nodes[place.value]));
            IsBestBy(nodes + [n], d, t, if better then Some(|nodes|) else place, score)
  {
  }

  // ----- the transition system

  /** What a run is given: the runner definitions, the names that have a target, their
      targets, and the allocatable resources of each instance type that can be provisioned. */
  datatype Config = Config(runners: map<string, Runner>, order: seq<string>, targets: map<string, int>,
                           alloc: map<string, Resources>, threshold: real)

  ghost predicate Wellformed(cfg: Config) {
    && Distinct(cfg.order)
    && forall n :: n in cfg.order ==> n in cfg.runners && n in cfg.targets
  }

  datatype SimState = SimState(nodes: seq<NodeState>, deployed: map<string, nat>, total: nat,
                               names: seq<string>, failed: set<string>)

  function Count(deployed: map<string, nat>, name: string): nat {
    if name in deployed then deployed[name] else 0
  }

  function Target(targets: map<string, int>, name: string): int {
    if name in targets then targets[name] else 0
  }

  function SumTargets(order: seq<string>, targets: map<string, int>): int {
    if order == [] then 0
    else SumTargets(order[..|order| - 1], targets) + Target(targets, order[|order| - 1])
  }

  function Abs(x: int): nat {
    if x < 0 then -x else x
  }

  function SumErrors(order: seq<string>, deployed: map<string, nat>, targets: map<string, int>): nat {
    if order == [] then 0
    else
      var n := order[|order| - 1];
      SumErrors(order[..|order| - 1], deployed, targets) + Abs(Count(deployed, n) - Target(targets, n))
  }

  /** sum(|deployed_i - target_i|) / sum(target_i) */
  function WeightedMape(order: seq<string>, deployed: map<string, nat>, targets: map<string, int>): real {
    var totalTarget := SumTargets(order, targets);
    if totalTarget == 0 then 0.0 else SumErrors(order, deployed, targets) as real / totalTarget as real
  }

  /** int(total * 1.05), truncated toward zero */
  function MaxDeploy(totalTarget: int): int {
    if totalTarget >= 0 then totalTarget * 105 / 100 else -(-totalTarget * 105 / 100)
  }

  /** It is the greatest whole number within 1.05 times the total; for a negative total the least one above. */
  lemma MaxDeployIs(totalTarget: int)
    ensures totalTarget >= 0 ==> 100 * MaxDeploy(totalTarget) <= 105 * totalTarget < 100 * MaxDeploy(totalTarget) + 100
    ensures totalTarget < 0 ==> 100 * MaxDeploy(totalTarget) - 100 < 105 * totalTarget <= 100 * MaxDeploy(totalTarget)
  {
  }

  /** Running totals p of the targets and q of the distances to them end at the two sums of the MAPE. */
  lemma {:induction false} MapeSums(order: seq<string>, deployed: map<string, nat>, targets: map<string, int>,
                                    p: seq<int>, q: seq<int>)
    requires forall n :: n in order ==> n in deployed && n in targets
    requires |p| == |q| == |order| + 1 && p[0] == q[0] == 0
    requires forall i, j :: 0 <= i < |order| && j == i + 1 ==> p[j] == p[i] + targets[order[i]]
    requires forall i, j :: 0 <= i < |order| && j == i + 1 ==>
               var x := deployed[order[i]] - targets[order[i]]; q[j] == q[i] + if x >= 0 then x else -x
    ensures SumTargets(order, targets) == p[|order|] && SumErrors(order, deployed, targets) == q[|order|]
    decreases |order|
  {
    if order != [] {
      var m := |order| - 1;
      assert order[m] in order;
      MapeSums(order[..m], deployed, targets, p[..m + 1], q[..m + 1]);
    }
  }

  /** The MAPE is the quotient of the two, and zero when there is nothing to deploy. */
  lemma MapeIs(order: seq<string>, deployed: map<string, nat>, targets: map<string, int>, p: seq<int>, q: seq<int>)
    requires forall n :: n in order ==> n in deployed && n in targets
    requires |p| == |q| == |order| + 1 && p[0] == q[0] == 0
    requires forall i, j :: 0 <= i < |order| && j == i + 1 ==> p[j] == p[i] + targets[order[i]]
    requires forall i, j :: 0 <= i < |order| && j == i + 1 ==>
               var x := deployed[order[i]] - targets[order[i]]; q[j] == q[i] + if x >= 0 then x else -x
    ensures p[|order|] == 0 ==> WeightedMape(order, deployed, targets) == 0.0
    ensures p[|order|] != 0 ==> WeightedMape(order, deployed, targets) == q[|order|] as real / p[|order|] as real
  {
    MapeSums(order, deployed, targets, p, q);
  }

  lemma Quotient(x: real, y: real)
    ensures y != 0.0 ==> (x / y) * y == x
  {
  }

  function Budget(cfg: Config): int {
    MaxDeploy(SumTargets(cfg.order, cfg.targets))
  }

  predicate StopsOnMape(cfg: Config, s: SimState) {
    s.total > 0 && WeightedMape(cfg.order, s.deployed, cfg.targets) <= cfg.threshold
  }

  lemma DivAtMost(x: real, z: real, b: real)
    requires z > 0.0
    ensures x / z <= b <==> x <= b * z
  {
    var q := x / z;
    assert x == q * z;
    if q <= b { assert (b - q) * z >= 0.0; } else { assert (q - b) * z > 0.0; }
  }

  /** A run stops on its MAPE exactly when something is deployed and the distances to the targets are together
      no more than the threshold times the targets. */
  lemma StopsIff(cfg: Config, s: SimState, p: seq<int>, q: seq<int>)
    requires forall n :: n in cfg.order ==> n in s.deployed && n in cfg.targets
    requires |p| == |q| == |cfg.order| + 1 && p[0] == q[0] == 0 && p[|cfg.order|] > 0
    requires forall i, j :: 0 <= i < |cfg.order| && j == i + 1 ==> p[j] == p[i] + cfg.targets[cfg.order[i]]
    requires forall i, j :: 0 <= i < |cfg.order| && j == i + 1 ==>
               var x := s.deployed[cfg.order[i]] - cfg.targets[cfg.order[i]]; q[j] == q[i] + if x >= 0 then x else -x
    ensures StopsOnMape(cfg, s) <==>
            s.total > 0 && q[|cfg.order|] as real <= cfg.threshold * p[|cfg.order|] as real
  {
    MapeIs(cfg.order, s.deployed, cfg.targets, p, q);
    DivAtMost(q[|cfg.order|] as real, p[|cfg.order|] as real, cfg.threshold);
  }

  predicate Halted(cfg: Config, s: SimState) {
    StopsOnMape(cfg, s) || s.total >= Budget(cfg) || s.names == []
  }

  function Positive(order: seq<string>, targets: map<string, int>): seq<string> {
    if order == [] then []
    else
      var n := order[|order| - 1];
      Positive(order[..|order| - 1], targets) + if Target(targets, n) > 0 then [n] else []
  }

  function Init(cfg: Config): SimState {
    SimState([], map n | n in cfg.order :: 0, 0, Positive(cfg.order, cfg.targets), {})
  }

  function AddTo(n: NodeState, d: Resources): NodeState {
    n.(used := n.used.Plus(d), runnerCount := n.runnerCount + 1)
  }

  function Deploy(s: SimState, name: string, nodes: seq<NodeState>): SimState {
    s.(nodes := nodes, deployed := s.deployed[name := Count(s.deployed, name) + 1], total := s.total + 1)
  }

  /** A new node with one runner on it. */
  function NodeFor(cfg: Config, r: Runner): NodeState
    requires r.instanceType in cfg.alloc
  {
    NodeState(r.instanceType, cfg.alloc[r.instanceType], PerRunnerTotal(r), 1)
  }

  /** One turn that drew the i-th remaining name, where place is the best fit for it. */
  function Turn(cfg: Config, s: SimState, i: nat, place: Option<nat>): SimState
    requires i < |s.names| && s.names[i] in cfg.runners
    requires place.Some? ==> place.value < |s.nodes|
  {
    var name := s.names[i];
    var r := cfg.runners[name];
    var d := PerRunnerTotal(r);
    if r.instanceType in s.failed then
      s.(names := s.names[..i] + s.names[i + 1..])
    else if place.Some? then
      Deploy(s, name, s.nodes[place.value := AddTo(s.nodes[place.value], d)])
    else if r.instanceType !in cfg.alloc then
      s.(failed := s.failed + {r.instanceType})
    else
      Deploy(s, name, s.nodes + [NodeFor(cfg, r)])
  }

  ghost predicate IsTurn(cfg: Config, s: SimState, s': SimState, i: nat, place: Option<nat>) {
    && i < |s.names| && s.names[i] in cfg.runners
    && IsBestFit(s.nodes, PerRunnerTotal(cfg.runners[s.names[i]]), cfg.runners[s.names[i]].instanceType, place)
    && s' == Turn(cfg, s, i, place)
  }

  ghost predicate Step(cfg: Config, s: SimState, s': SimState) {
    !Halted(cfg, s) && exists i, place :: IsTurn(cfg, s, s', i, place)
  }

  ghost predicate IsRun(cfg: Config, run: seq<SimState>) {
    && run != [] && run[0] == Init(cfg)
    && forall j, k :: 0 <= j < k < |run| && k == j + 1 ==> Step(cfg, run[j], run[k])
  }

  // ----- names, budget and termination

  ghost predicate NamesOk(cfg: Config, s: SimState) {
    && Distinct(s.names)
    && (forall n :: n in s.names ==> n in cfg.order)
    && s.deployed.Keys == (set n | n in cfg.order)
    && s.failed !! cfg.alloc.Keys
    && s.failed <= Types(cfg)
    && s.total <= (if Budget(cfg) < 0 then 0 else Budget(cfg))
  }

  ghost function Types(cfg: Config): set<string> {
    set n | n in cfg.order && n in cfg.runners :: cfg.runners[n].instanceType
  }

  lemma {:induction false} PositiveNames(order: seq<string>, targets: map<string, int>)
    requires Distinct(order)
    ensures Distinct(Positive(order, targets))
    ensures forall n :: n in Positive(order, targets) <==> n in order && Target(targets, n) > 0
    ensures Subsequence(Positive(order, targets), order)
  {
    if order != [] {
      var init, last := order[..|order| - 1], order[|order| - 1];
      PositiveNames(init, targets);
      SubsequenceStep(Positive(init, targets), init, last, Target(targets, last) > 0);
      assert order == init + [last];
      assert last !in init;
    }
  }

  lemma NamesInit(cfg: Config)
    requires Wellformed(cfg)
    ensures NamesOk(cfg, Init(cfg))
  {
    PositiveNames(cfg.order, cfg.targets);
  }

  lemma RemoveName(names: seq<string>, i: nat)
    requires Distinct(names) && i < |names|
    ensures Distinct(names[..i] + names[i + 1..])
    ensures forall n :: n in names[..i] + names[i + 1..] ==> n in names
  {
  }

  lemma NamesTurn(cfg: Config, s: SimState, i: nat, place: Option<nat>)
    requires Wellformed(cfg) && NamesOk(cfg, s) && !Halted(cfg, s)
    requires i < |s.names| && (place.Some? ==> place.value < |s.nodes|)
    ensures s.names[i] in cfg.order && s.names[i] in cfg.runners
    ensures NamesOk(cfg, Turn(cfg, s, i, place))
  {
    assert s.names[i] in s.names;
    assert s.names[i] in cfg.order;
    RemoveName(s.names, i);
    assert cfg.runners[s.names[i]].instanceType in Types(cfg);
  }

  lemma NamesStep(cfg: Config, s: SimState, s': SimState)
    requires Wellformed(cfg) && NamesOk(cfg, s) && Step(cfg, s, s')
    ensures NamesOk(cfg, s')
  {
    var i: nat, place :| IsTurn(cfg, s, s', i, place);
    NamesTurn(cfg, s, i, place);
  }

  /** What is left to do: unplaced budget, drawable names and types not yet failed. */
  ghost function Measure(cfg: Config, s: SimState): int {
    Budget(cfg) - s.total + |s.names| + |Types(cfg) - s.failed|
  }

  lemma MeasureFallsTurn(cfg: Config, s: SimState, i: nat, place: Option<nat>)
    requires Wellformed(cfg) && NamesOk(cfg, s) && i < |s.names| && s.names[i] in cfg.order
    requires place.Some? ==> place.value < |s.nodes|
    ensures Measure(cfg, Turn(cfg, s, i, place)) < Measure(cfg, s)
  {
    var t := cfg.runners[s.names[i]].instanceType;
    assert t in Types(cfg);
    if t !in s.failed && place == None && t !in cfg.alloc {
      assert Types(cfg) - s.failed == (Types(cfg) - (s.failed + {t})) + {t};
    }
  }

  /** Every turn uses some of it up, whatever is drawn. */
  lemma MeasureFalls(cfg: Config, s: SimState, s': SimState)
    requires Wellformed(cfg) && NamesOk(cfg, s) && Step(cfg, s, s')
    ensures 0 <= Measure(cfg, s') < Measure(cfg, s)
  {
    var i: nat, place :| IsTurn(cfg, s, s', i, place);
    NamesTurn(cfg, s, i, place);
    MeasureFallsTurn(cfg, s, i, place);
  }

  lemma {:induction false} RunNames(cfg: Config, run: seq<SimState>, k: nat)
    requires Wellformed(cfg) && IsRun(cfg, run) && k < |run|
    ensures NamesOk(cfg, run[k])
  {
    if k == 0 {
      NamesInit(cfg);
    } else {
      RunNames(cfg, run, k - 1);
      assert Step(cfg, run[k - 1], run[k]);
      NamesStep(cfg, run[k - 1], run[k]);
    }
  }

  /** So a run makes at most as many turns as there was to do at the start. */
  lemma {:induction false} RunLength(cfg: Config, run: seq<SimState>, k: nat)
    requires Wellformed(cfg) && IsRun(cfg, run) && k < |run|
    ensures k + Measure(cfg, run[k]) <= Measure(cfg, Init(cfg))
    ensures k > 0 ==> 0 <= Measure(cfg, run[k])
  {
    if k > 0 {
      RunLength(cfg, run, k - 1);
      RunNames(cfg, run, k - 1);
      assert Step(cfg, run[k - 1], run[k]);
      MeasureFalls(cfg, run[k - 1], run[k]);
    }
  }

  // ----- why a run stops

  /** A name leaves the pool only when its type was found not to be provisionable. */
  ghost predicate StillDrawable(cfg: Config, s: SimState) {
    forall n :: n in Positive(cfg.order, cfg.targets) && n in cfg.runners ==>
      n in s.names || cfg.runners[n].instanceType in s.failed
  }

  lemma StillDrawableTurn(cfg: Config, s: SimState, i: nat, place: Option<nat>)
    requires StillDrawable(cfg, s) && i < |s.names| && s.names[i] in cfg.runners
    requires place.Some? ==> place.value < |s.nodes|
    ensures StillDrawable(cfg, Turn(cfg, s, i, place))
  {
    var rest := s.names[..i] + s.names[i + 1..];
    forall n | n in s.names && n != s.names[i]
      ensures n in rest
    {
      var j :| 0 <= j < |s.names| && s.names[j] == n;
      assert n == if j < i then rest[j] else rest[j - 1];
    }
  }

  lemma {:induction false} RunStillDrawable(cfg: Config, run: seq<SimState>, k: nat)
    requires Wellformed(cfg) && IsRun(cfg, run) && k < |run|
    ensures StillDrawable(cfg, run[k])
  {
    if k > 0 {
      RunStillDrawable(cfg, run, k - 1);
      assert Step(cfg, run[k - 1], run[k]);
      var i: nat, place :| IsTurn(cfg, run[k - 1], run[k], i, place);
      StillDrawableTurn(cfg, run[k - 1], i, place);
    }
  }

  /** A run that has stopped is within the threshold, or has deployed exactly max_deploy, or has nothing left
      to draw because no runner with a positive target can be provisioned. */
  lemma WhyHalted(cfg: Config, run: seq<SimState>, k: nat)
    requires Wellformed(cfg) && IsRun(cfg, run) && k < |run| && Halted(cfg, run[k])
    ensures StopsOnMape(cfg, run[k]) || run[k].total >= Budget(cfg) ||
            forall n :: n in Positive(cfg.order, cfg.targets) && n in cfg.runners ==>
              cfg.runners[n].instanceType !in cfg.alloc
    ensures run[k].total <= (if Budget(cfg) < 0 then 0 else Budget(cfg))
  {
    RunNames(cfg, run, k);
    RunStillDrawable(cfg, run, k);
    PositiveNames(cfg.order, cfg.targets);
  }
}
