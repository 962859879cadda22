/** What the enumeration finds in terms of multisets, and when the floor-division
    shortcut of compute_node_slack agrees with it. */
module NodeSlack {
  import opened Options
  import opened RunnerDemand
  import opened Combinations
  import opened Arithmetic
  import opened NodePacking

  // ----- the enumeration, as multisets

  function Listed(runners: seq<Runner>, alloc: Resources): seq<Pick> {
    ValidPicks(runners, alloc, MaxCount(alloc))
  }

  lemma ListedFit(runners: seq<Runner>, alloc: Resources)
    ensures forall i :: 0 <= i < |Listed(runners, alloc)| ==> FitsPick(runners, alloc, Listed(runners, alloc)[i])
  {
    forall i | 0 <= i < |Listed(runners, alloc)|
      ensures FitsPick(runners, alloc, Listed(runners, alloc)[i])
    {
      assert Listed(runners, alloc)[i] in Listed(runners, alloc);
      InValidPicks(runners, alloc, MaxCount(alloc), Listed(runners, alloc)[i]);
    }
  }

  function Kept(runners: seq<Runner>, alloc: Resources): seq<Pick> {
    ListedFit(runners, alloc);
    KeptPicks(runners, alloc, Listed(runners, alloc))
  }

  function Content(c: Pick): multiset<nat> {
    multiset(c)
  }

  ghost predicate Shows(picks: seq<Pick>, m: multiset<nat>) {
    exists c: Pick :: c in picks && Content(c) == m
  }

  /** A multiset of runners is listed exactly when it is not empty, fits, and stays within the
      pod cap; and it is listed once. */
  lemma ListedExactly(runners: seq<Runner>, alloc: Resources, m: multiset<nat>)
    ensures Shows(Listed(runners, alloc), m) <==> 1 <= |m| <= MaxCount(alloc) && FitsAll(runners, alloc, m)
    ensures forall i, j :: 0 <= i < j < |Listed(runners, alloc)| ==>
              multiset(Listed(runners, alloc)[i]) != multiset(Listed(runners, alloc)[j])
  {
    var picks := Listed(runners, alloc);
    if c: Pick :| c in picks && Content(c) == m {
      InValidPicks(runners, alloc, MaxCount(alloc), c);
      FitsPickIsFitsAll(runners, alloc, c);
      assert |multiset(c)| == |c|;
    }
    if 1 <= |m| <= MaxCount(alloc) && FitsAll(runners, alloc, m) {
      var c := AscendingExists(m, |runners|);
      FitsPickIsFitsAll(runners, alloc, c);
      InValidPicks(runners, alloc, MaxCount(alloc), c);
    }
    ValidPicksDistinct(runners, alloc, MaxCount(alloc));
    forall i, j | 0 <= i < j < |picks|
      ensures multiset(picks[i]) != multiset(picks[j])
    {
      assert picks[i] in picks && picks[j] in picks;
      InValidPicks(runners, alloc, MaxCount(alloc), picks[i]);
      InValidPicks(runners, alloc, MaxCount(alloc), picks[j]);
      if multiset(picks[i]) == multiset(picks[j]) { AscendingUnique(picks[i], picks[j], 0, |runners|); }
    }
  }

  ghost predicate MaximalFit(runners: seq<Runner>, alloc: Resources, m: multiset<nat>) {
    FitsAll(runners, alloc, m) && forall bigger :: m < bigger ==> !FitsAll(runners, alloc, bigger)
  }

  /** Of the listed multisets those are kept that are maximal under inclusion among all that fit. */
  lemma KeptExactly(runners: seq<Runner>, alloc: Resources, m: multiset<nat>)
    ensures Shows(Kept(runners, alloc), m) <==> 1 <= |m| <= MaxCount(alloc) && MaximalFit(runners, alloc, m)
  {
    ListedFit(runners, alloc);
    ListedExactly(runners, alloc, m);
    if c: Pick :| c in Kept(runners, alloc) && Content(c) == m {
      InKeptPicks(runners, alloc, Listed(runners, alloc), c);
      UsedIsDemand(runners, c);
      assert Shows(Listed(runners, alloc), m);
      NoMoreIsMaximal(runners, alloc, m);
    }
    if 1 <= |m| <= MaxCount(alloc) && MaximalFit(runners, alloc, m) {
      var c: Pick :| c in Listed(runners, alloc) && Content(c) == m;
      InKeptPicks(runners, alloc, Listed(runners, alloc), c);
      InValidPicks(runners, alloc, MaxCount(alloc), c);
      UsedIsDemand(runners, c);
      NoMoreIsMaximal(runners, alloc, m);
    }
  }

  /** No fitting multiset is larger than the pod cap. */
  ghost predicate WithinCap(runners: seq<Runner>, alloc: Resources) {
    forall m :: FitsAll(runners, alloc, m) ==> |m| <= MaxCount(alloc)
  }

  ghost predicate Extends(runners: seq<Runner>, alloc: Resources, m: multiset<nat>) {
    exists kept: multiset<nat> :: m <= kept && Shows(Kept(runners, alloc), kept)
  }

  lemma {:induction false} ExtendsWithinCap(runners: seq<Runner>, alloc: Resources, m: multiset<nat>)
    requires WithinCap(runners, alloc) && FitsAll(runners, alloc, m) && m != multiset{}
    ensures Extends(runners, alloc, m)
    decreases MaxCount(alloc) - |m|
  {
    assert |m| <= MaxCount(alloc);
    if bigger :| m < bigger && FitsAll(runners, alloc, bigger) {
      assert |bigger - m| + |m| == |bigger| && bigger - m != multiset{};
      assert |bigger| <= MaxCount(alloc);
      ExtendsWithinCap(runners, alloc, bigger);
    } else {
      KeptExactly(runners, alloc, m);
      assert m <= m;
    }
  }

  /** Every fitting multiset extends to a kept one exactly when none is larger than the cap. */
  lemma ExtendsIff(runners: seq<Runner>, alloc: Resources)
    ensures (forall m :: m != multiset{} && FitsAll(runners, alloc, m) ==> Extends(runners, alloc, m)) <==>
            WithinCap(runners, alloc)
  {
    if WithinCap(runners, alloc) {
      forall m | m != multiset{} && FitsAll(runners, alloc, m)
        ensures Extends(runners, alloc, m)
      {
        ExtendsWithinCap(runners, alloc, m);
      }
    }
    forall m | m != multiset{} && FitsAll(runners, alloc, m) && Extends(runners, alloc, m)
      ensures |m| <= MaxCount(alloc)
    {
      var kept: multiset<nat> :| m <= kept && Shows(Kept(runners, alloc), kept);
      KeptExactly(runners, alloc, kept);
      assert |kept - m| + |m| == |kept|;
    }
  }

  lemma {:induction false} CpuOfPods(runners: seq<Runner>, c: Pick)
    requires (forall i :: 0 <= i < |c| ==> c[i] < |runners|) && forall i :: 0 <= i < |runners| ==> runners[i].vcpu >= 1
    ensures Used(runners, c).cpu >= 1000 * |c|
    decreases |c|
  {
    if c != [] { CpuOfPods(runners, c[..|c| - 1]); }
  }

  /** With at least one vCPU per runner, only the cap of twenty pods can cut the enumeration short. */
  lemma OnlyTwenty(runners: seq<Runner>, alloc: Resources, m: multiset<nat>)
    requires forall i :: 0 <= i < |runners| ==> runners[i].vcpu >= 1
    requires FitsAll(runners, alloc, m) && |m| <= MAX_PODS
    ensures |m| <= MaxCount(alloc)
  {
    var c := AscendingExists(m, |runners|);
    FitsPickIsFitsAll(runners, alloc, c);
    CpuOfPods(runners, c);
  }

  // ----- compute_node_slack

  datatype Slack = Slack(minCpuM: int, maxCpuM: int, minMemMi: int, maxMemMi: int)

  function Least(s: seq<int>): (r: int)
    requires s != []
    ensures r in s && forall i :: 0 <= i < |s| ==> r <= s[i]
  {
    if |s| == 1 then s[0] else
      var r := Least(s[..|s| - 1]);
      if s[|s| - 1] < r then s[|s| - 1] else r
  }

  function Greatest(s: seq<int>): (r: int)
    requires s != []
    ensures r in s && forall i :: 0 <= i < |s| ==> s[i] <= r
  {
    if |s| == 1 then s[0] else
      var r := Greatest(s[..|s| - 1]);
      if s[|s| - 1] > r then s[|s| - 1] else r
  }

  function Cpus(wastes: seq<Resources>): seq<int> {
    seq(|wastes|, i requires 0 <= i < |wastes| => wastes[i].cpu)
  }

  function Mems(wastes: seq<Resources>): seq<int> {
    seq(|wastes|, i requires 0 <= i < |wastes| => wastes[i].mem)
  }

  /** Least and greatest waste over the packings, if there are any. */
  function SlackOf(wastes: seq<Resources>): Option<Slack> {
    if wastes == [] then None
    else Some(Slack(Least(Cpus(wastes)), Greatest(Cpus(wastes)), Least(Mems(wastes)), Greatest(Mems(wastes))))
  }

  const UNBOUNDED := 999

  function PodsBy(avail: int, demand: nat): int {
    if demand > 0 then avail / demand else UNBOUNDED
  }

  /** How many pods of one type fit, by floor division. */
  function Pods(alloc: Resources, r: Runner): int {
    var d := PerRunnerTotal(r);
    Min(Min(PodsBy(alloc.cpu, d.cpu), PodsBy(alloc.mem, d.mem)), PodsBy(alloc.gpu, d.gpu))
  }

  function Times(d: Resources, k: int): Resources {
    Resources(k * d.cpu, k * d.mem, k * d.gpu)
  }

  function HomogeneousWastes(alloc: Resources, runners: seq<Runner>): seq<Resources> {
    if runners == [] then []
    else
      var last := runners[|runners| - 1];
      HomogeneousWastes(alloc, runners[..|runners| - 1]) +
      if Pods(alloc, last) == 0 then [] else [Minus(alloc, Times(PerRunnerTotal(last), Pods(alloc, last)))]
  }

  function Wastes(combos: seq<Combo>): seq<Resources> {
    seq(|combos|, i requires 0 <= i < |combos| => combos[i].waste)
  }

  function PickWastes(runners: seq<Runner>, alloc: Resources, picks: seq<Pick>): seq<Resources>
    requires forall i :: 0 <= i < |picks| ==> FitsPick(runners, alloc, picks[i])
  {
    seq(|picks|, i requires 0 <= i < |picks| =>
      assert FitsPick(runners, alloc, picks[i]); Minus(alloc, Used(runners, picks[i])))
  }

  lemma KeptFit(runners: seq<Runner>, alloc: Resources)
    ensures forall i :: 0 <= i < |Kept(runners, alloc)| ==> FitsPick(runners, alloc, Kept(runners, alloc)[i])
  {
    ListedFit(runners, alloc);
    forall i | 0 <= i < |Kept(runners, alloc)|
      ensures FitsPick(runners, alloc, Kept(runners, alloc)[i])
    {
      assert Kept(runners, alloc)[i] in Kept(runners, alloc);
      InKeptPicks(runners, alloc, Listed(runners, alloc), Kept(runners, alloc)[i]);
    }
  }

  /** The slack over the kept packings. */
  function EnumeratedSlack(alloc: Resources, runners: seq<Runner>): Option<Slack> {
    KeptFit(runners, alloc);
    SlackOf(PickWastes(runners, alloc, Kept(runners, alloc)))
  }

  function HomogeneousSlack(alloc: Resources, runners: seq<Runner>): Option<Slack> {
    SlackOf(HomogeneousWastes(alloc, runners))
  }

  method ComputeNodeSlack(alloc: Resources, runners: seq<Runner>, homogeneousOnly: bool) returns (r: Option<Slack>)
    ensures r == if homogeneousOnly || |runners| > 8 then HomogeneousSlack(alloc, runners)
                 else EnumeratedSlack(alloc, runners)
  {
    if homogeneousOnly || |runners| > 8 {
      var slacks := [];
      for i := 0 to |runners|
        invariant slacks == HomogeneousWastes(alloc, runners[..i])
      {
        assert runners[..i + 1][..i] == runners[..i];
        var d := PerRunnerTotal(runners[i]);
        var maxByCpu := if d.cpu > 0 then alloc.cpu / d.cpu else UNBOUNDED;
        var maxByMem := if d.mem > 0 then alloc.mem / d.mem else UNBOUNDED;
        var maxByGpu := if d.gpu > 0 then alloc.gpu / d.gpu else UNBOUNDED;
        var maxPods := Min(Min(maxByCpu, maxByMem), maxByGpu);
        if maxPods == 0 {
          continue;
        }
        slacks := slacks + [Minus(alloc, Times(d, maxPods))];
      }
      assert runners[..|runners|] == runners;
      return SlackOf(slacks);
    }
    var allCombos := FindValidCombos(runners, alloc);
    var maximal := FindMaximalCombos(allCombos, alloc, runners);
    ListedFit(runners, alloc);
    KeptFit(runners, alloc);
    KeptDescribes(runners, alloc, allCombos, Listed(runners, alloc));
    assert Wastes(maximal) == PickWastes(runners, alloc, Kept(runners, alloc));
    r := SlackOf(Wastes(maximal));
  }

  // ----- the shortcut against the enumeration, for one runner type

  lemma FloorIs(k: nat, a: int, c: nat)
    requires c > 0
    ensures k * c <= a <==> k <= a / c
  {
    var q, rem := a / c, a % c;
    assert a == q * c + rem;
    if k <= q { MulAtMost(k, q, c); } else { MulAtMost(q + 1, k, c); MulAdd(q, 1, c); }
  }

  lemma MulAtMost(a: int, b: int, c: nat)
    requires a <= b
    ensures a * c <= b * c
  {
  }

  lemma {:induction false} UsedAlone(r: Runner, c: Pick)
    requires forall i :: 0 <= i < |c| ==> c[i] < 1
    ensures Used([r], c) == Times(PerRunnerTotal(r), |c|)
    decreases |c|
  {
    if c != [] {
      var d, k := PerRunnerTotal(r), |c| - 1;
      UsedAlone(r, c[..k]);
      MulAdd(k, 1, d.cpu);
      MulAdd(k, 1, d.mem);
      MulAdd(k, 1, d.gpu);
    }
  }

  /** Up to the bound that stands for "no limit", k pods fit exactly when floor division says so. */
  lemma PodsFit(alloc: Resources, r: Runner, k: nat)
    requires 1 <= k <= UNBOUNDED
    ensures Times(PerRunnerTotal(r), k).AtMost(alloc) <==> k <= Pods(alloc, r) && alloc.gpu >= 0
  {
    var d := PerRunnerTotal(r);
    FloorIs(k, alloc.cpu, d.cpu);
    FloorIs(k, alloc.mem, d.mem);
    if d.gpu > 0 {
      FloorIs(k, alloc.gpu, d.gpu);
      MulAtMost(1, k, d.gpu);
    }
  }

  lemma NoMoreAlone(alloc: Resources, r: Runner, k: nat)
    ensures NoMore([r], alloc, Times(PerRunnerTotal(r), k)) <==> !Times(PerRunnerTotal(r), k + 1).AtMost(alloc)
  {
    var d := PerRunnerTotal(r);
    MulAdd(k, 1, d.cpu);
    MulAdd(k, 1, d.mem);
    MulAdd(k, 1, d.gpu);
    assert Times(d, k).Plus(d) == Times(d, k + 1);
    assert [r][0] == r;
  }

  /** The one kept packing of a single runner type. */
  lemma KeptAlone(alloc: Resources, r: Runner, c: Pick)
    ensures c in Kept([r], alloc) <==>
            1 <= |c| <= MaxCount(alloc) && Ascending(c, 0, 1) && |c| == Pods(alloc, r) && alloc.gpu >= 0
  {
    ListedFit([r], alloc);
    InKeptPicks([r], alloc, Listed([r], alloc), c);
    InValidPicks([r], alloc, MaxCount(alloc), c);
    if 1 <= |c| <= MaxCount(alloc) && Ascending(c, 0, 1) { FullAlone(alloc, r, c); }
  }

  /** A tuple of one runner type fits and leaves no room exactly when floor division gives its length. */
  lemma FullAlone(alloc: Resources, r: Runner, c: Pick)
    requires 1 <= |c| <= MAX_PODS && forall i :: 0 <= i < |c| ==> c[i] < 1
    ensures FitsPick([r], alloc, c) && NoMore([r], alloc, Used([r], c)) <==> |c| == Pods(alloc, r) && alloc.gpu >= 0
  {
    UsedAlone(r, c);
    NoMoreAlone(alloc, r, |c|);
    PodsFit(alloc, r, |c|);
    PodsFit(alloc, r, |c| + 1);
  }

  lemma SameWastes(wastes: seq<Resources>, w: Resources)
    requires wastes != [] && forall i :: 0 <= i < |wastes| ==> wastes[i] == w
    ensures SlackOf(wastes) == Some(Slack(w.cpu, w.cpu, w.mem, w.mem))
  {
    assert Least(Cpus(wastes)) in Cpus(wastes) && Greatest(Cpus(wastes)) in Cpus(wastes);
    assert Least(Mems(wastes)) in Mems(wastes) && Greatest(Mems(wastes)) in Mems(wastes);
  }

  lemma HomogeneousAlone(alloc: Resources, r: Runner)
    ensures HomogeneousSlack(alloc, [r]) ==
            if Pods(alloc, r) == 0 then None
            else
              var w := Minus(alloc, Times(PerRunnerTotal(r), Pods(alloc, r)));
              Some(Slack(w.cpu, w.cpu, w.mem, w.mem))
  {
    var one := [r];
    var w := Minus(alloc, Times(PerRunnerTotal(r), Pods(alloc, r)));
    assert one[..|one| - 1] == [];
    assert HomogeneousWastes(alloc, one[..|one| - 1]) == [];
    assert HomogeneousWastes(alloc, one) == [] + if Pods(alloc, r) == 0 then [] else [w];
    if Pods(alloc, r) != 0 { SameWastes(HomogeneousWastes(alloc, one), w); }
  }

  lemma EnumeratedAlone(alloc: Resources, r: Runner)
    ensures EnumeratedSlack(alloc, [r]) ==
            if 1 <= Pods(alloc, r) <= MaxCount(alloc) && alloc.gpu >= 0
            then
              var w := Minus(alloc, Times(PerRunnerTotal(r), Pods(alloc, r)));
              Some(Slack(w.cpu, w.cpu, w.mem, w.mem))
            else None
  {
    var kept := Kept([r], alloc);
    KeptFit([r], alloc);
    if 1 <= Pods(alloc, r) <= MaxCount(alloc) && alloc.gpu >= 0 {
      var wastes := PickWastes([r], alloc, kept);
      forall i | 0 <= i < |kept|
        ensures wastes[i] == Minus(alloc, Times(PerRunnerTotal(r), Pods(alloc, r)))
      {
        assert kept[i] in kept;
        KeptAlone(alloc, r, kept[i]);
        UsedAlone(r, kept[i]);
      }
      var c := seq(Pods(alloc, r), i => 0 as nat);
      KeptAlone(alloc, r, c);
      assert c in kept;
      SameWastes(wastes, Minus(alloc, Times(PerRunnerTotal(r), Pods(alloc, r))));
    } else if kept != [] {
      assert kept[0] in kept;
      KeptAlone(alloc, r, kept[0]);
    }
  }

  /** No pod fits by floor division, or some do, no more than the cap, and GPUs are not negative. */
  predicate AgreesAlone(alloc: Resources, r: Runner) {
    Pods(alloc, r) == 0 || (1 <= Pods(alloc, r) <= MaxCount(alloc) && alloc.gpu >= 0)
  }

  /** With one runner type the shortcut returns what the enumeration returns exactly under that condition. */
  lemma ShortcutIff(alloc: Resources, r: Runner)
    ensures HomogeneousSlack(alloc, [r]) == EnumeratedSlack(alloc, [r]) <==> AgreesAlone(alloc, r)
  {
    HomogeneousAlone(alloc, r);
    EnumeratedAlone(alloc, r);
  }

  /** With at least one vCPU and nothing negative to allocate, that is: at most twenty pods fit. */
  lemma ShortcutUpToTwenty(alloc: Resources, r: Runner)
    requires r.vcpu >= 1 && alloc.cpu >= 0 && alloc.mem >= 0 && alloc.gpu >= 0
    ensures HomogeneousSlack(alloc, [r]) == EnumeratedSlack(alloc, [r]) <==> Pods(alloc, r) <= MAX_PODS
    ensures Pods(alloc, r) > MAX_PODS ==> EnumeratedSlack(alloc, [r]) == None
  {
    ShortcutIff(alloc, r);
    EnumeratedAlone(alloc, r);
    var d := PerRunnerTotal(r);
    FloorIs(0, alloc.cpu, d.cpu);
    FloorIs(0, alloc.mem, d.mem);
    if d.gpu > 0 { FloorIs(0, alloc.gpu, d.gpu); }
    assert Pods(alloc, r) >= 0;
    if 1 <= Pods(alloc, r) <= MAX_PODS {
      PodsFit(alloc, r, Pods(alloc, r));
      MulAtMost(1000, d.cpu, Pods(alloc, r));
    }
  }

  // ----- the shortcut for several types

  /** w is left by a packing that the enumeration keeps for one of the types taken alone. */
  ghost predicate LeftAlone(alloc: Resources, runners: seq<Runner>, w: Resources) {
    exists i :: 0 <= i < |runners| && LeftBy(alloc, runners[i], w)
  }

  ghost predicate LeftBy(alloc: Resources, r: Runner, w: Resources) {
    exists c: Pick :: c in Kept([r], alloc) && w == Minus(alloc, Times(PerRunnerTotal(r), |c|))
  }

  lemma LeftByIs(alloc: Resources, r: Runner, w: Resources)
    requires AgreesAlone(alloc, r)
    ensures LeftBy(alloc, r, w) <==>
            Pods(alloc, r) != 0 && w == Minus(alloc, Times(PerRunnerTotal(r), Pods(alloc, r)))
  {
    if c: Pick :| c in Kept([r], alloc) && w == Minus(alloc, Times(PerRunnerTotal(r), |c|)) {
      KeptAlone(alloc, r, c);
    }
    if Pods(alloc, r) != 0 {
      var c := seq(Pods(alloc, r), i => 0 as nat);
      KeptAlone(alloc, r, c);
    }
  }

  lemma HomogeneousPush(alloc: Resources, init: seq<Runner>, last: Runner, w: Resources)
    ensures w in HomogeneousWastes(alloc, init + [last]) <==>
            w in HomogeneousWastes(alloc, init) ||
            (Pods(alloc, last) != 0 && w == Minus(alloc, Times(PerRunnerTotal(last), Pods(alloc, last))))
  {
    assert (init + [last])[..|init|] == init;
    var added := if Pods(alloc, last) == 0 then [] else [Minus(alloc, Times(PerRunnerTotal(last), Pods(alloc, last)))];
    assert HomogeneousWastes(alloc, init + [last]) == HomogeneousWastes(alloc, init) + added;
  }

  lemma {:induction false} HomogeneousLeft(alloc: Resources, runners: seq<Runner>, w: Resources)
    requires forall i :: 0 <= i < |runners| ==> AgreesAlone(alloc, runners[i])
    ensures w in HomogeneousWastes(alloc, runners) <==> LeftAlone(alloc, runners, w)
    decreases |runners|
  {
    if runners != [] {
      var init, last := runners[..|runners| - 1], runners[|runners| - 1];
      assert runners == init + [last];
      HomogeneousLeft(alloc, init, w);
      LeftByIs(alloc, last, w);
      LeftAlonePush(alloc, init, last, w);
      HomogeneousPush(alloc, init, last, w);
    }
  }

  lemma LeftAlonePush(alloc: Resources, init: seq<Runner>, last: Runner, w: Resources)
    ensures LeftAlone(alloc, init + [last], w) <==> LeftAlone(alloc, init, w) || LeftBy(alloc, last, w)
  {
    var all := init + [last];
    assert all[|init|] == last;
    if i :| 0 <= i < |init| && LeftBy(alloc, init[i], w) {
      assert all[i] == init[i];
    }
  }

  /** The four numbers are the least and greatest over a set of wastes, each reached by one of them. */
  ghost predicate Spans(s: Slack, wastes: set<Resources>) {
    && (forall w :: w in wastes ==> s.minCpuM <= w.cpu <= s.maxCpuM && s.minMemMi <= w.mem <= s.maxMemMi)
    && (exists w :: w in wastes && w.cpu == s.minCpuM) && (exists w :: w in wastes && w.cpu == s.maxCpuM)
    && (exists w :: w in wastes && w.mem == s.minMemMi) && (exists w :: w in wastes && w.mem == s.maxMemMi)
  }

  lemma SlackBounds(wastes: seq<Resources>, w: Resources)
    requires w in wastes
    ensures Least(Cpus(wastes)) <= w.cpu <= Greatest(Cpus(wastes))
    ensures Least(Mems(wastes)) <= w.mem <= Greatest(Mems(wastes))
  {
    var n :| 0 <= n < |wastes| && wastes[n] == w;
    assert Cpus(wastes)[n] == w.cpu && Mems(wastes)[n] == w.mem;
  }

  lemma CpuReached(wastes: seq<Resources>, x: int) returns (w: Resources)
    requires x in Cpus(wastes)
    ensures w in wastes && w.cpu == x
  {
    var i :| 0 <= i < |wastes| && Cpus(wastes)[i] == x;
    w := wastes[i];
  }

  lemma MemReached(wastes: seq<Resources>, x: int) returns (w: Resources)
    requires x in Mems(wastes)
    ensures w in wastes && w.mem == x
  {
    var i :| 0 <= i < |wastes| && Mems(wastes)[i] == x;
    w := wastes[i];
  }

  lemma SlackSpans(wastes: seq<Resources>)
    requires wastes != []
    ensures Spans(SlackOf(wastes).value, set w | w in wastes)
  {
    var w0 := CpuReached(wastes, Least(Cpus(wastes)));
    var w1 := CpuReached(wastes, Greatest(Cpus(wastes)));
    var w2 := MemReached(wastes, Least(Mems(wastes)));
    var w3 := MemReached(wastes, Greatest(Mems(wastes)));
    forall w | w in wastes
      ensures Least(Cpus(wastes)) <= w.cpu <= Greatest(Cpus(wastes))
      ensures Least(Mems(wastes)) <= w.mem <= Greatest(Mems(wastes))
    {
      SlackBounds(wastes, w);
    }
  }

  /** For any list of types the shortcut's slack spans exactly what the kept packings of each type taken
      alone leave, when it agrees with the enumeration on each of them; it is None when they leave none. */
  lemma ShortcutSpans(alloc: Resources, runners: seq<Runner>) returns (wastes: set<Resources>)
    requires forall i :: 0 <= i < |runners| ==> AgreesAlone(alloc, runners[i])
    ensures forall w :: w in wastes <==> LeftAlone(alloc, runners, w)
    ensures HomogeneousSlack(alloc, runners) == None <==> wastes == {}
    ensures wastes != {} ==> Spans(HomogeneousSlack(alloc, runners).value, wastes)
  {
    var list := HomogeneousWastes(alloc, runners);
    wastes := set w | w in list;
    forall w
      ensures w in wastes <==> LeftAlone(alloc, runners, w)
    {
      HomogeneousLeft(alloc, runners, w);
    }
    if list != [] {
      SlackSpans(list);
      assert list[0] in wastes;
    }
  }

  // ----- what the four numbers say

  /** Each number leaves exactly what some of the uses leaves, and no use leaves less or more. */
  ghost predicate SlackFor(s: Slack, alloc: Resources, uses: set<Resources>) {
    && (forall u :: u in uses ==> s.minCpuM + u.cpu <= alloc.cpu <= s.maxCpuM + u.cpu)
    && (forall u :: u in uses ==> s.minMemMi + u.mem <= alloc.mem <= s.maxMemMi + u.mem)
    && (exists u :: u in uses && s.minCpuM + u.cpu == alloc.cpu)
    && (exists u :: u in uses && s.maxCpuM + u.cpu == alloc.cpu)
    && (exists u :: u in uses && s.minMemMi + u.mem == alloc.mem)
    && (exists u :: u in uses && s.maxMemMi + u.mem == alloc.mem)
  }

  function Rests(alloc: Resources, uses: seq<Resources>): (wastes: seq<Resources>)
    ensures |wastes| == |uses| && forall i :: 0 <= i < |uses| ==> wastes[i] == Minus(alloc, uses[i])
  {
    seq(|uses|, i requires 0 <= i < |uses| => Minus(alloc, uses[i]))
  }

  lemma UseOf(alloc: Resources, uses: seq<Resources>, w: Resources) returns (u: Resources)
    requires w in Rests(alloc, uses)
    ensures u in uses && w.cpu + u.cpu == alloc.cpu && w.mem + u.mem == alloc.mem
  {
    var i :| 0 <= i < |uses| && Rests(alloc, uses)[i] == w;
    u := uses[i];
  }

  lemma UsesBounded(alloc: Resources, uses: seq<Resources>, u: Resources)
    requires u in uses
    ensures var cpus, mems := Cpus(Rests(alloc, uses)), Mems(Rests(alloc, uses));
            && Least(cpus) + u.cpu <= alloc.cpu <= Greatest(cpus) + u.cpu
            && Least(mems) + u.mem <= alloc.mem <= Greatest(mems) + u.mem
  {
    var i :| 0 <= i < |uses| && uses[i] == u;
    SlackBounds(Rests(alloc, uses), Rests(alloc, uses)[i]);
  }

  lemma CpuUse(alloc: Resources, uses: seq<Resources>, x: int) returns (u: Resources)
    requires x in Cpus(Rests(alloc, uses))
    ensures u in uses && x + u.cpu == alloc.cpu
  {
    var w := CpuReached(Rests(alloc, uses), x);
    u := UseOf(alloc, uses, w);
  }

  lemma MemUse(alloc: Resources, uses: seq<Resources>, x: int) returns (u: Resources)
    requires x in Mems(Rests(alloc, uses))
    ensures u in uses && x + u.mem == alloc.mem
  {
    var w := MemReached(Rests(alloc, uses), x);
    u := UseOf(alloc, uses, w);
  }

  lemma SlackIsFor(alloc: Resources, uses: seq<Resources>)
    requires uses != []
    ensures SlackFor(SlackOf(Rests(alloc, uses)).value, alloc, set u | u in uses)
  {
    var cpus, mems := Cpus(Rests(alloc, uses)), Mems(Rests(alloc, uses));
    forall u | u in uses
      ensures Least(cpus) + u.cpu <= alloc.cpu <= Greatest(cpus) + u.cpu
      ensures Least(mems) + u.mem <= alloc.mem <= Greatest(mems) + u.mem
    {
      UsesBounded(alloc, uses, u);
    }
    var u0 := CpuUse(alloc, uses, Least(cpus));
    var u1 := CpuUse(alloc, uses, Greatest(cpus));
    var u2 := MemUse(alloc, uses, Least(mems));
    var u3 := MemUse(alloc, uses, Greatest(mems));
  }

  /** A multiset that the enumeration keeps: within the cap, fitting, and maximal. */
  ghost predicate KeptSet(runners: seq<Runner>, alloc: Resources, m: multiset<nat>) {
    1 <= |m| <= MaxCount(alloc) && MaximalFit(runners, alloc, m)
  }

  ghost predicate UsedByKept(runners: seq<Runner>, alloc: Resources, u: Resources) {
    exists m: multiset<nat> :: KeptSet(runners, alloc, m) && u == DemandOf(runners, m, |runners|)
  }

  function KeptUses(runners: seq<Runner>, alloc: Resources): seq<Resources> {
    KeptFit(runners, alloc);
    var kept := Kept(runners, alloc);
    seq(|kept|, i requires 0 <= i < |kept| => assert FitsPick(runners, alloc, kept[i]); Used(runners, kept[i]))
  }

  lemma KeptUsesAre(runners: seq<Runner>, alloc: Resources, u: Resources)
    ensures u in KeptUses(runners, alloc) <==> UsedByKept(runners, alloc, u)
  {
    var kept := Kept(runners, alloc);
    KeptFit(runners, alloc);
    if u in KeptUses(runners, alloc) {
      var i :| 0 <= i < |kept| && KeptUses(runners, alloc)[i] == u;
      UsedIsDemand(runners, kept[i]);
      assert Shows(kept, Content(kept[i]));
      KeptExactly(runners, alloc, Content(kept[i]));
    }
    if m: multiset<nat> :| KeptSet(runners, alloc, m) && u == DemandOf(runners, m, |runners|) {
      KeptExactly(runners, alloc, m);
      var c: Pick :| c in kept && Content(c) == m;
      var i :| 0 <= i < |kept| && kept[i] == c;
      UsedIsDemand(runners, kept[i]);
      assert KeptUses(runners, alloc)[i] == u;
    }
  }

  /** The enumeration's slack is that of the multisets within the cap that fit and are maximal; None when
      there are none. */
  lemma EnumeratedMeans(alloc: Resources, runners: seq<Runner>) returns (uses: set<Resources>)
    ensures forall u :: u in uses <==> UsedByKept(runners, alloc, u)
    ensures EnumeratedSlack(alloc, runners) == None <==> uses == {}
    ensures uses != {} ==> SlackFor(EnumeratedSlack(alloc, runners).value, alloc, uses)
  {
    var list := KeptUses(runners, alloc);
    KeptFit(runners, alloc);
    uses := set u | u in list;
    forall u
      ensures u in uses <==> UsedByKept(runners, alloc, u)
    {
      KeptUsesAre(runners, alloc, u);
    }
    assert PickWastes(runners, alloc, Kept(runners, alloc)) == Rests(alloc, list);
    if list != [] {
      SlackIsFor(alloc, list);
      assert list[0] in uses;
    }
  }

  /** What as many pods of one type use as floor division says. */
  ghost predicate UsedByPods(runners: seq<Runner>, alloc: Resources, u: Resources) {
    exists i :: 0 <= i < |runners| && PodsUse(alloc, runners[i], u)
  }

  ghost predicate PodsUse(alloc: Resources, r: Runner, u: Resources) {
    var k := Pods(alloc, r);
    k != 0 && u == Resources(k * (1000 * r.vcpu + 320), k * (r.memoryMi + 522), k * r.gpu)
  }

  function PodUses(alloc: Resources, runners: seq<Runner>): seq<Resources> {
    if runners == [] then []
    else
      var last := runners[|runners| - 1];
      PodUses(alloc, runners[..|runners| - 1]) +
      if Pods(alloc, last) == 0 then [] else [Times(PerRunnerTotal(last), Pods(alloc, last))]
  }

  lemma {:induction false} PodUsesRests(alloc: Resources, runners: seq<Runner>)
    ensures HomogeneousWastes(alloc, runners) == Rests(alloc, PodUses(alloc, runners))
    decreases |runners|
  {
    if runners != [] { PodUsesRests(alloc, runners[..|runners| - 1]); }
  }

  lemma PodUsesPush(alloc: Resources, init: seq<Runner>, last: Runner, u: Resources)
    ensures u in PodUses(alloc, init + [last]) <==> u in PodUses(alloc, init) || PodsUse(alloc, last, u)
  {
    assert (init + [last])[..|init|] == init;
    var added := if Pods(alloc, last) == 0 then [] else [Times(PerRunnerTotal(last), Pods(alloc, last))];
    assert PodUses(alloc, init + [last]) == PodUses(alloc, init) + added;
    assert u in added <==> PodsUse(alloc, last, u);
  }

  lemma {:induction false} PodUsesAre(alloc: Resources, runners: seq<Runner>, u: Resources)
    ensures u in PodUses(alloc, runners) <==> UsedByPods(runners, alloc, u)
    decreases |runners|
  {
    if runners != [] {
      var init, last := runners[..|runners| - 1], runners[|runners| - 1];
      assert runners == init + [last];
      PodUsesAre(alloc, init, u);
      PodUsesPush(alloc, init, last, u);
      UsedByPush(alloc, init, last, u);
    }
  }

  lemma UsedByPush(alloc: Resources, init: seq<Runner>, last: Runner, u: Resources)
    ensures UsedByPods(init + [last], alloc, u) <==> UsedByPods(init, alloc, u) || PodsUse(alloc, last, u)
  {
    var all := init + [last];
    assert all[|init|] == last;
    if i :| 0 <= i < |init| && PodsUse(alloc, init[i], u) {
      assert all[i] == init[i];
    }
  }

  /** The shortcut's slack is that of the types taken alone, as many pods of each as floor division says;
      None when it says zero for every one. */
  lemma HomogeneousMeans(alloc: Resources, runners: seq<Runner>) returns (uses: set<Resources>)
    ensures forall u :: u in uses <==> UsedByPods(runners, alloc, u)
    ensures HomogeneousSlack(alloc, runners) == None <==> uses == {}
    ensures uses != {} ==> SlackFor(HomogeneousSlack(alloc, runners).value, alloc, uses)
  {
    var list := PodUses(alloc, runners);
    uses := set u | u in list;
    forall u
      ensures u in uses <==> UsedByPods(runners, alloc, u)
    {
      PodUsesAre(alloc, runners, u);
    }
    PodUsesRests(alloc, runners);
    if list != [] {
      SlackIsFor(alloc, list);
      assert list[0] in uses;
    }
  }

  /** Floor division gives the most pods that fit; 999 stands for no limit on a resource not asked for. */
  lemma PodsIs(alloc: Resources, r: Runner)
    requires alloc.cpu >= 0 && alloc.mem >= 0 && alloc.gpu >= 0
    ensures var k := Pods(alloc, r);
            && 0 <= k && (r.gpu == 0 ==> k <= 999)
            && k * (1000 * r.vcpu + 320) <= alloc.cpu && k * (r.memoryMi + 522) <= alloc.mem && k * r.gpu <= alloc.gpu
            && (k < 999 || r.gpu > 0 ==>
                  || (k + 1) * (1000 * r.vcpu + 320) > alloc.cpu || (k + 1) * (r.memoryMi + 522) > alloc.mem
                  || (k + 1) * r.gpu > alloc.gpu)
  {
    var d := PerRunnerTotal(r);
    FloorIs(0, alloc.cpu, d.cpu);
    FloorIs(0, alloc.mem, d.mem);
    if d.gpu > 0 { FloorIs(0, alloc.gpu, d.gpu); }
    PodsBound(alloc, r, Pods(alloc, r));
    PodsBound(alloc, r, Pods(alloc, r) + 1);
  }

  lemma PodsBound(alloc: Resources, r: Runner, k: nat)
    requires alloc.gpu >= 0
    ensures k <= Pods(alloc, r) <==>
            && k * (1000 * r.vcpu + 320) <= alloc.cpu && k * (r.memoryMi + 522) <= alloc.mem
            && (if r.gpu > 0 then k * r.gpu <= alloc.gpu else k <= 999)
  {
    var d := PerRunnerTotal(r);
    FloorIs(k, alloc.cpu, d.cpu);
    FloorIs(k, alloc.mem, d.mem);
    if d.gpu > 0 { FloorIs(k, alloc.gpu, d.gpu); }
  }
}
