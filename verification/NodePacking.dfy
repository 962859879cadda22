/** Packing analysis of one node: enumerating the multisets of runner pods that fit,
    keeping the maximal ones, and the floor-division shortcut for single runner types. */
module NodePacking {
  import opened RunnerDemand
  import opened Combinations
  import opened Sequences
  import opened Arithmetic

  const MAX_PODS := 20

  /** The demand of a tuple of runner indices. */
  function Used(runners: seq<Runner>, c: Pick): Resources
    requires forall i :: 0 <= i < |c| ==> c[i] < |runners|
  {
    if c == [] then Resources(0, 0, 0)
    else Used(runners, c[..|c| - 1]).Plus(PerRunnerTotal(runners[c[|c| - 1]]))
  }

  /** One packing: the runners, their demand, what they leave, and the used shares in percent. */
  datatype Combo = Combo(runners: seq<string>, count: nat, used: Resources, waste: Resources,
                         cpuUtil: real, memUtil: real, gpuUtil: real)

  function Util(used: int, avail: int): real {
    if avail > 0 then used as real / avail as real * 100.0 else 0.0
  }

  function Minus(a: Resources, b: Resources): Resources {
    Resources(a.cpu - b.cpu, a.mem - b.mem, a.gpu - b.gpu)
  }

  function ComboOf(runners: seq<Runner>, alloc: Resources, c: Pick): Combo
    requires forall i :: 0 <= i < |c| ==> c[i] < |runners|
  {
    var used := Used(runners, c);
    Combo(seq(|c|, i requires 0 <= i < |c| => runners[c[i]].name), |c|, used, Minus(alloc, used),
          Util(used.cpu, alloc.cpu), Util(used.mem, alloc.mem), Util(used.gpu, alloc.gpu))
  }

  /** The most pods considered per combination. */
  function MaxCount(alloc: Resources): (m: nat)
    ensures 1 <= m <= MAX_PODS
  {
    var byCpu := if alloc.cpu / 1000 > 1 then alloc.cpu / 1000 else 1;
    if byCpu < MAX_PODS then byCpu else MAX_PODS
  }

  predicate FitsPick(runners: seq<Runner>, alloc: Resources, c: Pick) {
    (forall i :: 0 <= i < |c| ==> c[i] < |runners|) && Used(runners, c).AtMost(alloc)
  }

  function Filter(runners: seq<Runner>, alloc: Resources, picks: seq<Pick>): seq<Pick> {
    if picks == [] then []
    else Filter(runners, alloc, picks[..|picks| - 1]) +
         if FitsPick(runners, alloc, picks[|picks| - 1]) then [picks[|picks| - 1]] else []
  }

  /** The fitting tuples of exactly count indices. */
  function FittingPicks(runners: seq<Runner>, alloc: Resources, count: nat): seq<Pick> {
    Filter(runners, alloc, WithReplacement(0, |runners|, count))
  }

  /** The fitting tuples of 1 to count indices, shortest first. */
  function ValidPicks(runners: seq<Runner>, alloc: Resources, count: nat): seq<Pick> {
    if count == 0 then [] else ValidPicks(runners, alloc, count - 1) + FittingPicks(runners, alloc, count)
  }

  ghost predicate Describes(runners: seq<Runner>, alloc: Resources, combos: seq<Combo>, picks: seq<Pick>) {
    && |combos| == |picks|
    && forall i :: 0 <= i < |picks| ==> DescribesOne(runners, alloc, combos[i], picks[i])
  }

  ghost predicate DescribesOne(runners: seq<Runner>, alloc: Resources, combo: Combo, pick: Pick) {
    FitsPick(runners, alloc, pick) && combo == ComboOf(runners, alloc, pick)
  }

  lemma DescribesConcat(runners: seq<Runner>, alloc: Resources, combos: seq<Combo>, picks: seq<Pick>,
                        combos': seq<Combo>, picks': seq<Pick>)
    requires Describes(runners, alloc, combos, picks) && Describes(runners, alloc, combos', picks')
    ensures Describes(runners, alloc, combos + combos', picks + picks')
  {
  }

  lemma InFilter(runners: seq<Runner>, alloc: Resources, picks: seq<Pick>, c: Pick)
    ensures c in Filter(runners, alloc, picks) <==> c in picks && FitsPick(runners, alloc, c)
    decreases |picks|
  {
    if picks != [] {
      InFilter(runners, alloc, picks[..|picks| - 1], c);
      assert picks == picks[..|picks| - 1] + [picks[|picks| - 1]];
    }
  }

  lemma {:induction false} FilterDistinct(runners: seq<Runner>, alloc: Resources, picks: seq<Pick>)
    requires Distinct(picks)
    ensures Distinct(Filter(runners, alloc, picks))
    decreases |picks|
  {
    if picks != [] {
      var init, last := picks[..|picks| - 1], picks[|picks| - 1];
      FilterDistinct(runners, alloc, init);
      InFilter(runners, alloc, init, last);
      assert last !in init;
    }
  }

  lemma InFittingPicks(runners: seq<Runner>, alloc: Resources, count: nat, c: Pick)
    ensures c in FittingPicks(runners, alloc, count) <==>
            |c| == count && Ascending(c, 0, |runners|) && FitsPick(runners, alloc, c)
  {
    InFilter(runners, alloc, WithReplacement(0, |runners|, count), c);
    ListsAscending(0, |runners|, count, c);
  }

  lemma ListedLonger(runners: seq<Runner>, alloc: Resources, count: nat, c: Pick)
    ensures c in ValidPicks(runners, alloc, count + 1) <==>
            c in ValidPicks(runners, alloc, count) || c in FittingPicks(runners, alloc, count + 1)
  {
  }

  lemma FittingLength(runners: seq<Runner>, alloc: Resources, count: nat, c: Pick)
    requires c in FittingPicks(runners, alloc, count)
    ensures |c| == count
  {
    InFittingPicks(runners, alloc, count, c);
  }

  /** A listed tuple is one of those of its own length. */
  lemma {:induction false} ListedByLength(runners: seq<Runner>, alloc: Resources, count: nat, c: Pick)
    ensures c in ValidPicks(runners, alloc, count) <==> 1 <= |c| <= count && c in FittingPicks(runners, alloc, |c|)
  {
    if count > 0 {
      ListedByLength(runners, alloc, count - 1, c);
      ListedLonger(runners, alloc, count - 1, c);
      if c in FittingPicks(runners, alloc, count) { FittingLength(runners, alloc, count, c); }
    }
  }

  /** The listed tuples: exactly the ascending ones of 1 to count indices that fit. */
  lemma InValidPicks(runners: seq<Runner>, alloc: Resources, count: nat, c: Pick)
    ensures c in ValidPicks(runners, alloc, count) <==>
            1 <= |c| <= count && Ascending(c, 0, |runners|) && FitsPick(runners, alloc, c)
  {
    ListedByLength(runners, alloc, count, c);
    InFittingPicks(runners, alloc, |c|, c);
  }

  lemma FittingPicksDistinct(runners: seq<Runner>, alloc: Resources, count: nat)
    ensures Distinct(FittingPicks(runners, alloc, count))
  {
    ListsOnce(0, |runners|, count);
    FilterDistinct(runners, alloc, WithReplacement(0, |runners|, count));
  }

  ghost predicate NoLonger(picks: seq<Pick>, k: int) {
    forall i :: 0 <= i < |picks| ==> |picks[i]| <= k
  }

  ghost predicate AllOfLength(picks: seq<Pick>, k: nat) {
    forall i :: 0 <= i < |picks| ==> |picks[i]| == k
  }

  lemma ValidLengths(runners: seq<Runner>, alloc: Resources, count: nat)
    ensures NoLonger(ValidPicks(runners, alloc, count), count)
  {
    var picks := ValidPicks(runners, alloc, count);
    forall i | 0 <= i < |picks|
      ensures |picks[i]| <= count
    {
      InValidPicks(runners, alloc, count, picks[i]);
    }
  }

  lemma FittingLengths(runners: seq<Runner>, alloc: Resources, count: nat)
    ensures AllOfLength(FittingPicks(runners, alloc, count), count)
  {
    var picks := FittingPicks(runners, alloc, count);
    forall i | 0 <= i < |picks|
      ensures |picks[i]| == count
    {
      FittingLength(runners, alloc, count, picks[i]);
    }
  }

  lemma LongerDistinct(all: seq<Pick>, short: seq<Pick>, long: seq<Pick>, k: nat)
    requires Distinct(short) && Distinct(long) && all == short + long
    requires NoLonger(short, k) && AllOfLength(long, k + 1)
    ensures Distinct(all)
  {
    forall i, j | 0 <= i < |short| && 0 <= j < |long|
      ensures short[i] != long[j]
    {
      assert |short[i]| != |long[j]|;
    }
    DistinctConcat(short, long);
  }

  lemma ListedStep(runners: seq<Runner>, alloc: Resources, count: nat)
    ensures ValidPicks(runners, alloc, count + 1) ==
            ValidPicks(runners, alloc, count) + FittingPicks(runners, alloc, count + 1)
  {
  }

  lemma {:induction false} ValidPicksDistinct(runners: seq<Runner>, alloc: Resources, count: nat)
    ensures Distinct(ValidPicks(runners, alloc, count))
  {
    if count > 0 {
      var less := count - 1;
      ValidPicksDistinct(runners, alloc, less);
      FittingPicksDistinct(runners, alloc, count);
      ValidLengths(runners, alloc, less);
      FittingLengths(runners, alloc, count);
      ListedStep(runners, alloc, less);
      LongerDistinct(ValidPicks(runners, alloc, count), ValidPicks(runners, alloc, less),
                     FittingPicks(runners, alloc, count), less);
    }
  }

  /** Running totals p of what the runners of a tuple take end at its demand. */
  lemma {:induction false} UsedAdds(runners: seq<Runner>, c: Pick, k: Kind, p: seq<int>)
    requires forall i :: 0 <= i < |c| ==> c[i] < |runners|
    requires |p| == |c| + 1 && p[0] == 0
    requires forall i, j :: 0 <= i < |c| && j == i + 1 ==> p[j] == p[i] + Request(runners[c[i]], k)
    ensures Used(runners, c).Get(k) == p[|c|]
    decreases |c|
  {
    if c != [] {
      var m := |c| - 1;
      UsedAdds(runners, c[..m], k, p[..m + 1]);
      RequestIs(runners[c[m]], k);
    }
  }

  /** The cap on pods: one for each whole CPU, at least one and at most twenty. */
  lemma MaxCountIs(alloc: Resources)
    ensures var m := MaxCount(alloc);
            || (m == 20 && alloc.cpu >= 20000)
            || (1 <= m < 20 && 1000 * m <= alloc.cpu < 1000 * m + 1000)
            || (m == 1 && alloc.cpu < 1000)
  {
  }

  /** The fields of a combination add up: used and waste to what is allocatable, the percentages to the
      shares, and one name for each pod. */
  ghost predicate AddsUp(combo: Combo, alloc: Resources) {
    && combo.waste.Plus(combo.used) == alloc && |combo.runners| == combo.count
    && IsPercent(combo.cpuUtil, combo.used.cpu, alloc.cpu)
    && IsPercent(combo.memUtil, combo.used.mem, alloc.mem)
    && IsPercent(combo.gpuUtil, combo.used.gpu, alloc.gpu)
  }

  ghost predicate IsPercent(util: real, used: int, avail: int) {
    if avail > 0 then util * avail as real == 100.0 * used as real else util == 0.0
  }

  lemma UtilIsPercent(used: int, avail: int)
    ensures IsPercent(Util(used, avail), used, avail)
  {
    if avail > 0 {
      var q := used as real / avail as real;
      assert q * avail as real == used as real;
      assert (q * 100.0) * avail as real == 100.0 * (q * avail as real);
    }
  }

  lemma ComboAddsUp(runners: seq<Runner>, alloc: Resources, c: Pick)
    requires forall i :: 0 <= i < |c| ==> c[i] < |runners|
    ensures var combo := ComboOf(runners, alloc, c);
            && AddsUp(combo, alloc) && |combo.runners| == |c|
            && forall i :: 0 <= i < |c| ==> combo.runners[i] == runners[c[i]].name
  {
    UtilIsPercent(Used(runners, c).cpu, alloc.cpu);
    UtilIsPercent(Used(runners, c).mem, alloc.mem);
    UtilIsPercent(Used(runners, c).gpu, alloc.gpu);
  }

  lemma DescribedAddUp(runners: seq<Runner>, alloc: Resources, combos: seq<Combo>, picks: seq<Pick>)
    requires Describes(runners, alloc, combos, picks)
    ensures forall i :: 0 <= i < |combos| ==> AddsUp(combos[i], alloc)
  {
    forall i | 0 <= i < |combos|
      ensures AddsUp(combos[i], alloc)
    {
      assert DescribesOne(runners, alloc, combos[i], picks[i]);
      ComboAddsUp(runners, alloc, picks[i]);
    }
  }

  /** Shorter tuples come first, and those of one length in lexicographic order. */
  ghost predicate ByLength(picks: seq<Pick>) {
    forall i, j :: 0 <= i < j < |picks| ==> Earlier(picks[i], picks[j])
  }

  ghost predicate Earlier(c: Pick, d: Pick) {
    |c| < |d| || (|c| == |d| && PickBefore(c, d))
  }

  lemma LongerByLength(all: seq<Pick>, short: seq<Pick>, long: seq<Pick>, k: nat)
    requires ByLength(short) && InOrder(long) && all == short + long
    requires NoLonger(short, k) && AllOfLength(long, k + 1)
    ensures ByLength(all)
  {
  }

  lemma FittingInOrder(runners: seq<Runner>, alloc: Resources, count: nat)
    ensures InOrder(FittingPicks(runners, alloc, count))
  {
    ListsInOrder(0, |runners|, count);
    FilterInOrder(runners, alloc, WithReplacement(0, |runners|, count));
  }

  /** That is the order of the listed combinations. */
  lemma {:induction false} ListedInOrder(runners: seq<Runner>, alloc: Resources, count: nat)
    ensures ByLength(ValidPicks(runners, alloc, count))
  {
    if count > 0 {
      var less := count - 1;
      ListedInOrder(runners, alloc, less);
      FittingInOrder(runners, alloc, count);
      ValidLengths(runners, alloc, less);
      FittingLengths(runners, alloc, count);
      ListedStep(runners, alloc, less);
      LongerByLength(ValidPicks(runners, alloc, count), ValidPicks(runners, alloc, less),
                     FittingPicks(runners, alloc, count), less);
    }
  }

  lemma {:induction false} FilterInOrder(runners: seq<Runner>, alloc: Resources, picks: seq<Pick>)
    requires InOrder(picks)
    ensures InOrder(Filter(runners, alloc, picks))
    decreases |picks|
  {
    if picks != [] {
      var init, last := picks[..|picks| - 1], picks[|picks| - 1];
      FilterInOrder(runners, alloc, init);
      forall i | 0 <= i < |Filter(runners, alloc, init)|
        ensures PickBefore(Filter(runners, alloc, init)[i], last)
      {
        var c := Filter(runners, alloc, init)[i];
        InFilter(runners, alloc, init, c);
        var j :| 0 <= j < |init| && init[j] == c;
        assert picks[j] == c;
      }
      InOrderPush(Filter(runners, alloc, init), last);
    }
  }

  lemma InOrderPush(picks: seq<Pick>, c: Pick)
    requires InOrder(picks) && forall i :: 0 <= i < |picks| ==> PickBefore(picks[i], c)
    ensures InOrder(picks + [c]) && InOrder(picks + [])
  {
    assert picks + [] == picks;
  }

  lemma UtilWithin(used: int, avail: int)
    requires 0 <= used <= avail
    ensures 0.0 <= Util(used, avail) <= 100.0
  {
    if avail > 0 {
      var q := used as real / avail as real;
      assert q * avail as real == used as real;
      assert q > 1.0 ==> (q - 1.0) * avail as real > 0.0;
      assert q < 0.0 ==> -q * avail as real > 0.0;
    }
  }

  lemma {:induction false} UsedNonNegative(runners: seq<Runner>, c: Pick)
    requires forall i :: 0 <= i < |c| ==> c[i] < |runners|
    ensures Used(runners, c).cpu >= 0 && Used(runners, c).mem >= 0 && Used(runners, c).gpu >= 0
    decreases |c|
  {
    if c != [] { UsedNonNegative(runners, c[..|c| - 1]); }
  }

  /** A fitting combination uses between nothing and all of each resource. */
  lemma UtilBounds(runners: seq<Runner>, alloc: Resources, c: Pick)
    requires FitsPick(runners, alloc, c)
    ensures var combo := ComboOf(runners, alloc, c);
            0.0 <= combo.cpuUtil <= 100.0 && 0.0 <= combo.memUtil <= 100.0 && 0.0 <= combo.gpuUtil <= 100.0
  {
    UsedNonNegative(runners, c);
    UtilWithin(Used(runners, c).cpu, alloc.cpu);
    UtilWithin(Used(runners, c).mem, alloc.mem);
    UtilWithin(Used(runners, c).gpu, alloc.gpu);
  }

  // ----- find_valid_combos

  method UsedBy(runners: seq<Runner>, combo: Pick) returns (total: Resources)
    requires forall i :: 0 <= i < |combo| ==> combo[i] < |runners|
    ensures total == Used(runners, combo)
  {
    var totalCpu, totalMem, totalGpu := 0, 0, 0;
    for i := 0 to |combo|
      invariant Resources(totalCpu, totalMem, totalGpu) == Used(runners, combo[..i])
    {
      assert combo[..i + 1][..i] == combo[..i];
      var d := PerRunnerTotal(runners[combo[i]]);
      totalCpu, totalMem, totalGpu := totalCpu + d.cpu, totalMem + d.mem, totalGpu + d.gpu;
    }
    assert combo[..|combo|] == combo;
    total := Resources(totalCpu, totalMem, totalGpu);
  }

  method FindOfCount(runners: seq<Runner>, alloc: Resources, count: nat) returns (combos: seq<Combo>)
    ensures Describes(runners, alloc, combos, FittingPicks(runners, alloc, count))
  {
    combos := [];
    var picks := WithReplacement(0, |runners|, count);
    for i := 0 to |picks|
      invariant Describes(runners, alloc, combos, Filter(runners, alloc, picks[..i]))
    {
      assert picks[..i + 1][..i] == picks[..i];
      assert picks[i] in picks;
      ListsAscending(0, |runners|, count, picks[i]);
      var total := UsedBy(runners, picks[i]);
      if total.cpu > alloc.cpu {
        continue;
      }
      if total.mem > alloc.mem {
        continue;
      }
      if total.gpu > alloc.gpu {
        continue;
      }
      combos := combos + [ComboOf(runners, alloc, picks[i])];
    }
    assert picks[..|picks|] == picks;
  }

  method FindValidCombos(runners: seq<Runner>, alloc: Resources) returns (combos: seq<Combo>)
    ensures Describes(runners, alloc, combos, ValidPicks(runners, alloc, MaxCount(alloc)))
    ensures forall i :: 0 <= i < |combos| ==> AddsUp(combos[i], alloc)
  {
    combos := [];
    for count := 1 to MaxCount(alloc) + 1
      invariant Describes(runners, alloc, combos, ValidPicks(runners, alloc, count - 1))
    {
      var more := FindOfCount(runners, alloc, count);
      DescribesConcat(runners, alloc, combos, ValidPicks(runners, alloc, count - 1),
                      more, FittingPicks(runners, alloc, count));
      combos := combos + more;
    }
    DescribedAddUp(runners, alloc, combos, ValidPicks(runners, alloc, MaxCount(alloc)));
  }

  // ----- find_maximal_combos

  /** No runner can be added on top of what is used. */
  predicate NoMore(runners: seq<Runner>, alloc: Resources, used: Resources) {
    forall i :: 0 <= i < |runners| ==> !used.Plus(PerRunnerTotal(runners[i])).AtMost(alloc)
  }

  function KeepMaximal(combos: seq<Combo>, runners: seq<Runner>, alloc: Resources): seq<Combo> {
    if combos == [] then []
    else KeepMaximal(combos[..|combos| - 1], runners, alloc) +
         if NoMore(runners, alloc, combos[|combos| - 1].used) then [combos[|combos| - 1]] else []
  }

  method FindMaximalCombos(combos: seq<Combo>, alloc: Resources, runners: seq<Runner>) returns (maximal: seq<Combo>)
    ensures maximal == KeepMaximal(combos, runners, alloc)
  {
    maximal := [];
    for i := 0 to |combos|
      invariant maximal == KeepMaximal(combos[..i], runners, alloc)
    {
      assert combos[..i + 1][..i] == combos[..i];
      var canAddMore := false;
      for j := 0 to |runners|
        invariant !canAddMore ==>
                    forall k :: 0 <= k < j ==> !combos[i].used.Plus(PerRunnerTotal(runners[k])).AtMost(alloc)
        invariant canAddMore ==> !NoMore(runners, alloc, combos[i].used)
      {
        if combos[i].used.Plus(PerRunnerTotal(runners[j])).AtMost(alloc) {
          canAddMore := true;
          break;
        }
      }
      if !canAddMore {
        maximal := maximal + [combos[i]];
      }
    }
    assert combos[..|combos|] == combos;
  }

  /** The kept tuples behind the kept combinations. */
  function KeptPicks(runners: seq<Runner>, alloc: Resources, picks: seq<Pick>): seq<Pick>
    requires forall i :: 0 <= i < |picks| ==> FitsPick(runners, alloc, picks[i])
  {
    if picks == [] then []
    else
      var last := picks[|picks| - 1];
      assert FitsPick(runners, alloc, picks[|picks| - 1]);
      KeptPicks(runners, alloc, picks[..|picks| - 1]) +
      if NoMore(runners, alloc, Used(runners, last)) then [last] else []
  }

  lemma {:induction false} KeptDescribes(runners: seq<Runner>, alloc: Resources, combos: seq<Combo>, picks: seq<Pick>)
    requires Describes(runners, alloc, combos, picks)
    ensures Describes(runners, alloc, KeepMaximal(combos, runners, alloc), KeptPicks(runners, alloc, picks))
    decreases |picks|
  {
    if picks != [] {
      KeptDescribes(runners, alloc, combos[..|combos| - 1], picks[..|picks| - 1]);
    }
  }

  lemma {:induction false} InKeptPicks(runners: seq<Runner>, alloc: Resources, picks: seq<Pick>, c: Pick)
    requires forall i :: 0 <= i < |picks| ==> FitsPick(runners, alloc, picks[i])
    ensures c in KeptPicks(runners, alloc, picks) <==>
            c in picks && FitsPick(runners, alloc, c) && NoMore(runners, alloc, Used(runners, c))
    decreases |picks|
  {
    if picks != [] {
      InKeptPicks(runners, alloc, picks[..|picks| - 1], c);
      assert picks == picks[..|picks| - 1] + [picks[|picks| - 1]];
    }
  }

  // ----- multisets of runners

  /** The demand of a multiset of runners, runner by runner. */
  function DemandOf(runners: seq<Runner>, m: multiset<nat>, n: nat): Resources
    requires n <= |runners|
  {
    if n == 0 then Resources(0, 0, 0)
    else
      var d := PerRunnerTotal(runners[n - 1]);
      DemandOf(runners, m, n - 1).Plus(Resources(m[n - 1] * d.cpu, m[n - 1] * d.mem, m[n - 1] * d.gpu))
  }

  predicate OverRunners(runners: seq<Runner>, m: multiset<nat>) {
    forall x :: x in m ==> x < |runners|
  }

  /** The multiset of runners fits the node. */
  predicate FitsAll(runners: seq<Runner>, alloc: Resources, m: multiset<nat>) {
    OverRunners(runners, m) && DemandOf(runners, m, |runners|).AtMost(alloc)
  }

  lemma {:induction false} DemandAdd(runners: seq<Runner>, m: multiset<nat>, x: nat, n: nat)
    requires n <= |runners|
    ensures DemandOf(runners, m + multiset{x}, n) ==
            if x < n then DemandOf(runners, m, n).Plus(PerRunnerTotal(runners[x])) else DemandOf(runners, m, n)
  {
    if n > 0 {
      DemandAdd(runners, m, x, n - 1);
      var d := PerRunnerTotal(runners[n - 1]);
      MulAdd(m[n - 1], 1, d.cpu);
      MulAdd(m[n - 1], 1, d.mem);
      MulAdd(m[n - 1], 1, d.gpu);
      assert (m + multiset{x})[n - 1] == m[n - 1] + if x == n - 1 then 1 else 0;
    }
  }

  lemma {:induction false} DemandEmpty(runners: seq<Runner>, n: nat)
    requires n <= |runners|
    ensures DemandOf(runners, multiset{}, n) == Resources(0, 0, 0)
  {
    if n > 0 { DemandEmpty(runners, n - 1); }
  }

  /** The demand of a tuple is that of its multiset. */
  lemma {:induction false} UsedIsDemand(runners: seq<Runner>, c: Pick)
    requires forall i :: 0 <= i < |c| ==> c[i] < |runners|
    ensures Used(runners, c) == DemandOf(runners, multiset(c), |runners|)
    decreases |c|
  {
    if c == [] {
      DemandEmpty(runners, |runners|);
    } else {
      var init, last := c[..|c| - 1], c[|c| - 1];
      UsedIsDemand(runners, init);
      assert c == init + [last];
      assert multiset(c) == multiset(init) + multiset{last};
      DemandAdd(runners, multiset(init), last, |runners|);
    }
  }

  lemma FitsPickIsFitsAll(runners: seq<Runner>, alloc: Resources, c: Pick)
    ensures FitsPick(runners, alloc, c) <==> FitsAll(runners, alloc, multiset(c))
  {
    forall i | 0 <= i < |c|
      ensures c[i] in multiset(c)
    {
    }
    if forall i :: 0 <= i < |c| ==> c[i] < |runners| {
      UsedIsDemand(runners, c);
      assert forall x :: x in multiset(c) ==> x in c;
    }
  }

  /** Taking runners away keeps a multiset fitting. */
  lemma {:induction false} SubFits(runners: seq<Runner>, alloc: Resources, m: multiset<nat>, bigger: multiset<nat>)
    requires m <= bigger && FitsAll(runners, alloc, bigger)
    ensures FitsAll(runners, alloc, m)
    decreases |bigger|
  {
    if m != bigger {
      var x: nat :| x in bigger && bigger[x] > m[x];
      var less := bigger - multiset{x};
      assert less + multiset{x} == bigger;
      DemandAdd(runners, less, x, |runners|);
      SubFits(runners, alloc, m, less);
    }
  }

  /** A runner that can be added is a larger multiset that fits. */
  lemma RoomIsLarger(runners: seq<Runner>, alloc: Resources, m: multiset<nat>, i: nat)
    requires OverRunners(runners, m) && i < |runners|
    requires DemandOf(runners, m, |runners|).Plus(PerRunnerTotal(runners[i])).AtMost(alloc)
    ensures m < m + multiset{i} && FitsAll(runners, alloc, m + multiset{i})
  {
    DemandAdd(runners, m, i, |runners|);
  }

  /** And a larger one that fits has a runner that can be added. */
  lemma LargerHasRoom(runners: seq<Runner>, alloc: Resources, m: multiset<nat>, bigger: multiset<nat>) returns (x: nat)
    requires m < bigger && FitsAll(runners, alloc, bigger)
    ensures x < |runners| && DemandOf(runners, m, |runners|).Plus(PerRunnerTotal(runners[x])).AtMost(alloc)
  {
    x :| x in bigger && bigger[x] > m[x];
    assert x < |runners|;
    assert m + multiset{x} <= bigger;
    SubFits(runners, alloc, m + multiset{x}, bigger);
    DemandAdd(runners, m, x, |runners|);
  }

  /** Nothing can be added exactly when no strictly larger multiset fits. */
  lemma NoMoreIsMaximal(runners: seq<Runner>, alloc: Resources, m: multiset<nat>)
    requires OverRunners(runners, m)
    ensures NoMore(runners, alloc, DemandOf(runners, m, |runners|)) <==>
            forall bigger :: m < bigger ==> !FitsAll(runners, alloc, bigger)
  {
    if bigger :| m < bigger && FitsAll(runners, alloc, bigger) {
      var x := LargerHasRoom(runners, alloc, m, bigger);
    }
    forall i: nat | i < |runners| && DemandOf(runners, m, |runners|).Plus(PerRunnerTotal(runners[i])).AtMost(alloc)
      ensures m < m + multiset{i} && FitsAll(runners, alloc, m + multiset{i})
    {
      RoomIsLarger(runners, alloc, m, i);
    }
  }
}
