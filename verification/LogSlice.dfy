/** slice_log: the windows around matching lines merged into maximal ranges, and the
    trusted block that no truncation reaches. Patterns are arbitrary predicates on lines. */
module LogSlice {
  import opened Sequences
  import opened Arithmetic
  import opened Texts

  const LOG_TAIL_BYTES := 32 * 1024
  const ERROR_CONTEXT_LINES := 50
  const ERROR_MATCH_LIMIT := 30
  const SLICE_MAX_BYTES := 96 * 1024

  type Pattern = string -> bool

  // ----- lines

  /** The characters at which str.splitlines() ends a line. */
  predicate IsBreak(c: char) {
    '\n' <= c <= '\r' || '\U{001c}' <= c <= '\U{001e}' || c == '\U{0085}' || c == '\U{2028}' || c == '\U{2029}'
  }

  /** The length of the first line. */
  function FirstLine(s: string): (k: nat)
    ensures k <= |s| && (k < |s| ==> IsBreak(s[k]))
    ensures forall i :: 0 <= i < k ==> !IsBreak(s[i])
  {
    if s == [] || IsBreak(s[0]) then 0 else 1 + FirstLine(s[1..])
  }

  /** Where the next line starts after one that ends at k: a carriage return and a line feed end it together. */
  function NextLine(s: string, k: nat): (next: nat)
    requires k < |s|
    ensures k < next <= |s|
  {
    if s[k] == '\r' && k + 1 < |s| && s[k + 1] == '\n' then k + 2 else k + 1
  }

  /** full.splitlines() */
  function Lines(s: string): seq<string>
    decreases |s|
  {
    if s == [] then []
    else
      var k := FirstLine(s);
      if k == |s| then [s] else [s[..k]] + Lines(s[NextLine(s, k)..])
  }

  lemma OccursSlice(s: string, from: nat, to: nat)
    requires from <= to <= |s|
    ensures Occurs(s[from..to], s)
  {
    assert s == s[..from] + s[from..to] + s[to..];
  }

  lemma OccursAfter(p: string, s: string, from: nat)
    requires from <= |s| && Occurs(p, s[from..])
    ensures Occurs(p, s)
  {
    OccursIn(p, s[from..], s[..from], []);
    assert s == s[..from] + s[from..] + [];
  }

  /** The text after the first line. */
  function Rest(s: string): (rest: string)
    requires FirstLine(s) < |s|
    ensures |rest| < |s|
  {
    s[NextLine(s, FirstLine(s))..]
  }

  /** The lines of a text: its first one, then those of the rest. */
  lemma LineIs(s: string, i: nat)
    requires i < |Lines(s)|
    ensures i == 0 ==> Lines(s)[i] == s[0..FirstLine(s)]
    ensures i > 0 ==> FirstLine(s) < |s| && i - 1 < |Lines(Rest(s))| && Lines(s)[i] == Lines(Rest(s))[i - 1]
  {
    assert FirstLine(s) == |s| ==> s[0..|s|] == s;
  }

  predicate Unbroken(line: string) {
    forall j :: 0 <= j < |line| ==> !IsBreak(line[j])
  }

  lemma OccursRest(p: string, s: string)
    requires FirstLine(s) < |s| && Occurs(p, Rest(s))
    ensures Occurs(p, s)
  {
    OccursAfter(p, s, NextLine(s, FirstLine(s)));
  }

  lemma FirstOccurs(s: string)
    ensures Occurs(s[0..FirstLine(s)], s) && Unbroken(s[0..FirstLine(s)])
  {
    OccursSlice(s, 0, FirstLine(s));
  }

  /** Every line is a part of the text without a break. */
  lemma {:induction false} LinesOccur(s: string, i: nat)
    requires i < |Lines(s)|
    ensures Occurs(Lines(s)[i], s) && Unbroken(Lines(s)[i])
    decreases |s|
  {
    LineIs(s, i);
    if i == 0 {
      FirstOccurs(s);
    } else {
      LinesOccur(Rest(s), i - 1);
      OccursRest(Lines(Rest(s))[i - 1], s);
    }
  }

  /** A line break: one of the characters, or a carriage return with its line feed. */
  predicate IsLineBreak(b: string) {
    (|b| == 1 && IsBreak(b[0])) || b == "\r\n"
  }

  function Weave(lines: seq<string>, breaks: seq<string>): string
    requires |lines| == |breaks|
  {
    if lines == [] then "" else lines[0] + breaks[0] + Weave(lines[1..], breaks[1..])
  }

  /** Each line ends with a break, the last one with the text at the latest; a carriage return takes a line
      feed that follows it along. */
  ghost predicate Ended(lines: seq<string>, breaks: seq<string>) {
    && |lines| == |breaks|
    && (forall i :: 0 <= i < |lines| ==>
          IsLineBreak(breaks[i]) || (i == |lines| - 1 && breaks[i] == "" && lines[i] != ""))
    && (forall i, j :: 0 <= i < j < |lines| && j == i + 1 && breaks[i] == "\r" && lines[j] == "" ==> breaks[j] != "\n")
  }

  lemma EndedCons(line: string, b: string, lines: seq<string>, breaks: seq<string>)
    requires Ended(lines, breaks) && IsLineBreak(b)
    requires b == "\r" && lines != [] && lines[0] == "" ==> breaks[0] != "\n"
    ensures Ended([line] + lines, [b] + breaks)
    ensures Weave([line] + lines, [b] + breaks) == line + b + Weave(lines, breaks)
  {
    var l, c := [line] + lines, [b] + breaks;
    assert l[1..] == lines && c[1..] == breaks;
    assert forall i :: 1 <= i < |l| ==> l[i] == lines[i - 1] && c[i] == breaks[i - 1];
  }

  lemma CutTwice(s: string, k: nat, n: nat)
    requires k <= n <= |s|
    ensures s == s[0..k] + s[k..n] + s[n..]
  {
  }

  lemma BreakIs(s: string, k: nat)
    requires k < |s| && IsBreak(s[k])
    ensures IsLineBreak(s[k..NextLine(s, k)])
    ensures s[k..NextLine(s, k)] == "\r" && NextLine(s, k) < |s| ==> s[NextLine(s, k)] != '\n'
  {
    if NextLine(s, k) == k + 2 {
      assert s[k..k + 2] == "\r\n";
    } else {
      assert s[k..k + 1] == [s[k]];
    }
  }

  lemma BreakAt(s: string)
    requires FirstLine(s) < |s|
    ensures var b := s[FirstLine(s)..NextLine(s, FirstLine(s))];
            && IsLineBreak(b) && s == s[0..FirstLine(s)] + b + Rest(s)
            && (b == "\r" && Rest(s) != "" ==> Rest(s)[0] != '\n')
  {
    BreakIs(s, FirstLine(s));
    CutTwice(s, FirstLine(s), NextLine(s, FirstLine(s)));
  }

  /** The lines and their breaks, in turn, are the text again. */
  lemma {:induction false} LinesRebuild(s: string) returns (breaks: seq<string>)
    ensures Ended(Lines(s), breaks) && Weave(Lines(s), breaks) == s
    decreases |s|
  {
    var k := FirstLine(s);
    if s == "" {
      return [];
    }
    if k == |s| {
      breaks := [""];
      assert Lines(s) == [s];
      assert s + "" + "" == s;
      return;
    }
    var b := s[k..NextLine(s, k)];
    BreakAt(s);
    var rest := LinesRebuild(Rest(s));
    breaks := [b] + rest;
    LinesFrom(s);
    if Lines(Rest(s)) != [] && Lines(Rest(s))[0] == "" && rest[0] == "\n" {
      assert Rest(s)[0] == '\n';
    }
    EndedCons(s[0..k], b, Lines(Rest(s)), rest);
  }

  lemma LinesFrom(s: string)
    requires FirstLine(s) < |s|
    ensures Lines(s) == [s[0..FirstLine(s)]] + Lines(Rest(s))
  {
  }

  predicate Matches(pats: seq<Pattern>, line: string) {
    exists p :: 0 <= p < |pats| && pats[p](line)
  }

  ghost predicate Increasing(s: seq<nat>) {
    forall i, j :: 0 <= i < j < |s| ==> s[i] < s[j]
  }

  ghost predicate Ordered(s: seq<nat>) {
    forall i, j :: 0 <= i < j < |s| ==> s[i] <= s[j]
  }

  function InsertSorted(s: seq<nat>, x: nat): (r: seq<nat>)
    ensures multiset(r) == multiset(s) + multiset{x}
  {
    if s == [] || s[|s| - 1] <= x then s + [x]
    else
      assert s == s[..|s| - 1] + [s[|s| - 1]];
      InsertSorted(s[..|s| - 1], x) + [s[|s| - 1]]
  }

  /** list.sort() */
  function Sort(s: seq<nat>): (r: seq<nat>)
    ensures multiset(r) == multiset(s)
  {
    if s == [] then []
    else
      assert s == s[..|s| - 1] + [s[|s| - 1]];
      InsertSorted(Sort(s[..|s| - 1]), s[|s| - 1])
  }

  lemma {:induction false} InsertSortedBound(s: seq<nat>, x: nat, hi: nat)
    requires x <= hi && forall i :: 0 <= i < |s| ==> s[i] <= hi
    ensures forall i :: 0 <= i < |InsertSorted(s, x)| ==> InsertSorted(s, x)[i] <= hi
    decreases |s|
  {
    if s != [] { InsertSortedBound(s[..|s| - 1], x, hi); }
  }

  lemma OrderedPush(s: seq<nat>, x: nat)
    requires Ordered(s) && forall i :: 0 <= i < |s| ==> s[i] <= x
    ensures Ordered(s + [x])
  {
  }

  lemma {:induction false} InsertSortedOrdered(s: seq<nat>, x: nat)
    requires Ordered(s)
    ensures Ordered(InsertSorted(s, x))
    decreases |s|
  {
    if s == [] || s[|s| - 1] <= x {
      OrderedPush(s, x);
    } else {
      var init, last := s[..|s| - 1], s[|s| - 1];
      InsertSortedOrdered(init, x);
      InsertSortedBound(init, x, last);
      OrderedPush(InsertSorted(init, x), last);
    }
  }

  lemma {:induction false} SortOrdered(s: seq<nat>)
    ensures Ordered(Sort(s))
    decreases |s|
  {
    if s != [] {
      SortOrdered(s[..|s| - 1]);
      InsertSortedOrdered(Sort(s[..|s| - 1]), s[|s| - 1]);
    }
  }

  lemma {:induction false} DistinctCount(s: seq<nat>, x: nat)
    requires Distinct(s)
    ensures multiset(s)[x] <= 1
    decreases |s|
  {
    if s != [] {
      var init, last := s[..|s| - 1], s[|s| - 1];
      DistinctCount(init, x);
      assert s == init + [last];
      assert last !in init && last !in multiset(init);
    }
  }

  lemma CountDistinct(s: seq<nat>)
    requires forall x :: multiset(s)[x] <= 1
    ensures Distinct(s)
  {
    forall i, j | 0 <= i < j < |s|
      ensures s[i] != s[j]
    {
      var front := s[..j];
      assert s == front + ([s[j]] + s[j + 1..]);
      assert multiset(s)[s[j]] >= multiset(front)[s[j]] + 1;
      assert front[i] in multiset(front);
    }
  }

  /** Sorting a list without repetitions puts it in strictly increasing order, with the same elements. */
  lemma SortIncreasing(s: seq<nat>)
    requires Distinct(s)
    ensures Increasing(Sort(s)) && forall x :: x in Sort(s) <==> x in s
  {
    SortOrdered(s);
    forall x
      ensures multiset(Sort(s))[x] <= 1 && (x in Sort(s) <==> x in s)
    {
      DistinctCount(s, x);
      assert x in multiset(Sort(s)) <==> x in multiset(s);
    }
    CountDistinct(Sort(s));
  }

  /** sorted(s), for a set of numbers below n */
  function SortedBelow(s: set<nat>, n: nat): (r: seq<nat>)
    ensures Increasing(r)
    ensures forall x: nat :: x in r <==> x in s && x < n
  {
    if n == 0 then [] else
      var rest := SortedBelow(s, n - 1);
      assert forall i :: 0 <= i < |rest| ==> rest[i] in rest;
      assert forall i :: 0 <= i < |rest| ==> rest[i] < n - 1;
      if n - 1 in s then rest + [n - 1] else rest
  }

  /** The lines some pattern matches, in order, each once. */
  method FindLines(lines: seq<string>, pats: seq<Pattern>) returns (hits: seq<nat>)
    ensures Increasing(hits)
    ensures forall i: nat :: i in hits <==> i < |lines| && Matches(pats, lines[i])
  {
    hits := [];
    var seen: set<nat> := {};
    for p := 0 to |pats|
      invariant forall i: nat :: i in seen <==> i < |lines| && Matches(pats[..p], lines[i])
      invariant Distinct(hits) && forall i: nat :: i in hits <==> i in seen
    {
      ghost var before := seen;
      assert forall line :: Matches(pats[..p + 1], line) <==> Matches(pats[..p], line) || pats[p](line) by {
        MatchesNext(pats, p);
      }
      for i := 0 to |lines|
        invariant forall j: nat :: j in seen <==> j in before || (j < i && pats[p](lines[j]))
        invariant Distinct(hits) && forall j: nat :: j in hits <==> j in seen
      {
        if i in seen {
          continue;
        }
        if pats[p](lines[i]) {
          seen := seen + {i};
          hits := hits + [i];
        }
      }
    }
    assert pats[..|pats|] == pats;
    SortIncreasing(hits);
    hits := Sort(hits);
  }

  lemma MatchesNext(pats: seq<Pattern>, p: nat)
    requires p < |pats|
    ensures forall line :: Matches(pats[..p + 1], line) <==> Matches(pats[..p], line) || pats[p](line)
  {
    forall line
      ensures Matches(pats[..p + 1], line) <==> Matches(pats[..p], line) || pats[p](line)
    {
      assert pats[..p + 1][p] == pats[p];
      if Matches(pats[..p], line) {
        var q :| 0 <= q < p && pats[..p][q](line);
        assert pats[..p + 1][q](line);
      }
      if Matches(pats[..p + 1], line) {
        var q :| 0 <= q < p + 1 && pats[..p + 1][q](line);
        if q < p { assert pats[..p][q](line); }
      }
    }
  }

  function LastMatches(hits: seq<nat>): seq<nat> {
    if |hits| > ERROR_MATCH_LIMIT then hits[|hits| - ERROR_MATCH_LIMIT..] else hits
  }

  // ----- windows and ranges

  /** Line j is within 25 lines of a match. */
  predicate InWindow(matches: seq<nat>, n: nat, j: nat) {
    j < n && exists m :: 0 <= m < |matches| && matches[m] - 25 <= j <= matches[m] + 25
  }

  /** set(range(lo, hi)) */
  function Span(lo: nat, hi: nat): (r: set<nat>)
    ensures forall j: nat :: j in r <==> lo <= j < hi
    decreases hi - lo
  {
    if lo >= hi then {} else {lo} + Span(lo + 1, hi)
  }

  method ContextIndices(matches: seq<nat>, n: nat) returns (context: set<nat>)
    requires forall m :: 0 <= m < |matches| ==> matches[m] < n
    ensures forall j: nat :: j in context <==> InWindow(matches, n, j)
  {
    context := {};
    for m := 0 to |matches|
      invariant forall j: nat :: j in context <==> InWindow(matches[..m], n, j)
    {
      var i := matches[m];
      var lo := if i - ERROR_CONTEXT_LINES / 2 > 0 then i - ERROR_CONTEXT_LINES / 2 else 0;
      var hi := if i + ERROR_CONTEXT_LINES / 2 + 1 < n then i + ERROR_CONTEXT_LINES / 2 + 1 else n;
      ghost var before := context;
      context := context + Span(lo, hi);
      WindowNext(matches, m, n);
      assert forall j: nat :: j in context <==> j in before || (j < n && i - 25 <= j <= i + 25);
    }
    assert matches[..|matches|] == matches;
  }

  lemma WindowNext(matches: seq<nat>, m: nat, n: nat)
    requires m < |matches|
    ensures forall j: nat :: InWindow(matches[..m + 1], n, j) <==>
              InWindow(matches[..m], n, j) || (j < n && matches[m] - 25 <= j <= matches[m] + 25)
  {
    forall j: nat
      ensures InWindow(matches[..m + 1], n, j) <==>
              InWindow(matches[..m], n, j) || (j < n && matches[m] - 25 <= j <= matches[m] + 25)
    {
      assert matches[..m + 1][m] == matches[m];
      if InWindow(matches[..m], n, j) {
        var k :| 0 <= k < m && matches[..m][k] - 25 <= j <= matches[..m][k] + 25;
        assert matches[..m + 1][k] == matches[..m][k];
      }
      if InWindow(matches[..m + 1], n, j) {
        var k :| 0 <= k < m + 1 && matches[..m + 1][k] - 25 <= j <= matches[..m + 1][k] + 25;
        if k < m { assert matches[..m][k] == matches[..m + 1][k]; }
      }
    }
  }

  datatype Range = Range(lo: nat, hi: nat)

  /** The ranges go up and leave at least one line between any two. */
  ghost predicate Separated(ranges: seq<Range>) {
    && (forall k :: 0 <= k < |ranges| ==> ranges[k].lo <= ranges[k].hi)
    && forall k, l :: 0 <= k < l < |ranges| ==> ranges[k].hi + 1 < ranges[l].lo
  }

  ghost predicate InRanges(ranges: seq<Range>, j: int) {
    exists k :: 0 <= k < |ranges| && ranges[k].lo <= j <= ranges[k].hi
  }

  lemma InRangesPush(ranges: seq<Range>, r: Range)
    ensures forall j :: InRanges(ranges + [r], j) <==> InRanges(ranges, j) || r.lo <= j <= r.hi
  {
    forall j
      ensures InRanges(ranges + [r], j) <==> InRanges(ranges, j) || r.lo <= j <= r.hi
    {
      assert (ranges + [r])[|ranges|] == r;
      if InRanges(ranges, j) {
        var k :| 0 <= k < |ranges| && ranges[k].lo <= j <= ranges[k].hi;
        assert (ranges + [r])[k] == ranges[k];
      }
    }
  }

  lemma SeparatedPush(ranges: seq<Range>, r: Range)
    requires Separated(ranges) && r.lo <= r.hi && (ranges != [] ==> ranges[|ranges| - 1].hi + 1 < r.lo)
    ensures Separated(ranges + [r])
  {
    forall k | 0 <= k < |ranges|
      ensures ranges[k].hi + 1 < r.lo
    {
      if k < |ranges| - 1 { assert ranges[k].hi + 1 < ranges[|ranges| - 1].lo; }
    }
  }

  lemma SeparatedPop(ranges: seq<Range>, r: Range)
    requires Separated(ranges + [r])
    ensures Separated(ranges) && r.lo <= r.hi && (ranges != [] ==> ranges[|ranges| - 1].hi + 1 < r.lo)
  {
    var all := ranges + [r];
    assert all[|ranges|] == r;
    forall k | 0 <= k < |ranges|
      ensures all[k] == ranges[k]
    {
    }
  }

  /** Runs of consecutive numbers, each as one range. */
  method MergeRanges(indices: seq<nat>) returns (ranges: seq<Range>)
    requires Increasing(indices)
    ensures Separated(ranges) && forall j: nat :: InRanges(ranges, j) <==> j in indices
  {
    ranges := [];
    if indices == [] {
      return;
    }
    var curStart, curEnd := indices[0], indices[0];
    InRangesPush([], Range(curStart, curEnd));
    SeparatedPush([], Range(curStart, curEnd));
    for m := 1 to |indices|
      invariant curEnd == indices[m - 1] && curStart <= curEnd
      invariant Separated(ranges + [Range(curStart, curEnd)])
      invariant forall j: nat :: InRanges(ranges + [Range(curStart, curEnd)], j) <==> j in indices[..m]
    {
      var i := indices[m];
      InRangesPush(ranges, Range(curStart, curEnd));
      SeparatedPop(ranges, Range(curStart, curEnd));
      assert indices[..m + 1] == indices[..m] + [i];
      if i == curEnd + 1 {
        InRangesPush(ranges, Range(curStart, i));
        SeparatedPush(ranges, Range(curStart, i));
        curEnd := i;
      } else {
        ranges := ranges + [Range(curStart, curEnd)];
        InRangesPush(ranges, Range(i, i));
        SeparatedPush(ranges, Range(i, i));
        curStart, curEnd := i, i;
      }
    }
    assert indices[..|indices|] == indices;
    ranges := ranges + [Range(curStart, curEnd)];
  }

  /** Separated ranges are the maximal runs of what they cover. */
  lemma RangesAreMaximal(ranges: seq<Range>, k: nat)
    requires Separated(ranges) && k < |ranges|
    ensures !InRanges(ranges, ranges[k].hi + 1)
    ensures ranges[k].lo > 0 ==> !InRanges(ranges, ranges[k].lo - 1)
  {
    forall l | 0 <= l < |ranges| && l != k
      ensures ranges[l].hi + 1 < ranges[k].lo || ranges[k].hi + 1 < ranges[l].lo
    {
    }
  }

  /** There is only one list of separated ranges for a set of lines. */
  lemma {:induction false} RangesUnique(a: seq<Range>, b: seq<Range>)
    requires Separated(a) && Separated(b) && forall j :: InRanges(a, j) <==> InRanges(b, j)
    ensures a == b
    decreases |a|
  {
    if a == [] {
      if b != [] { Covering(b); }
    } else {
      Covering(a);
      assert b != [];
      SameLast(a, b);
      var a', b', r := a[..|a| - 1], b[..|b| - 1], a[|a| - 1];
      assert a == a' + [r] && b == b' + [r];
      SameBefore(a', b', r);
      RangesUnique(a', b');
    }
  }

  lemma SameBefore(a: seq<Range>, b: seq<Range>, r: Range)
    requires Separated(a + [r]) && Separated(b + [r])
    requires forall j :: InRanges(a + [r], j) <==> InRanges(b + [r], j)
    ensures Separated(a) && Separated(b) && forall j :: InRanges(a, j) <==> InRanges(b, j)
  {
    SeparatedPop(a, r);
    SeparatedPop(b, r);
    InRangesPush(a, r);
    InRangesPush(b, r);
    forall j
      ensures InRanges(a, j) <==> InRanges(b, j)
    {
      NotInBoth(a, r, j);
      NotInBoth(b, r, j);
      assert InRanges(a + [r], j) <==> InRanges(b + [r], j);
    }
  }

  lemma NotInBoth(ranges: seq<Range>, r: Range, j: int)
    requires Separated(ranges + [r])
    ensures !(InRanges(ranges, j) && r.lo <= j <= r.hi)
  {
    var all := ranges + [r];
    assert all[|ranges|] == r;
    assert forall k :: 0 <= k < |ranges| ==> all[k] == ranges[k] && all[k].hi + 1 < all[|ranges|].lo;
  }

  lemma Covering(ranges: seq<Range>)
    requires ranges != [] && Separated(ranges)
    ensures exists j :: InRanges(ranges, j)
  {
    assert InRanges(ranges, ranges[0].lo);
  }

  lemma SameLast(a: seq<Range>, b: seq<Range>)
    requires a != [] && b != [] && Separated(a) && Separated(b)
    requires forall j :: InRanges(a, j) <==> InRanges(b, j)
    ensures a[|a| - 1] == b[|b| - 1]
  {
    var x, y := a[|a| - 1], b[|b| - 1];
    assert InRanges(a, x.hi) && InRanges(b, y.hi) && InRanges(a, x.lo) && InRanges(b, y.lo);
    assert x.hi == y.hi;
    RangesAreMaximal(a, |a| - 1);
    RangesAreMaximal(b, |b| - 1);
    assert x.lo <= y.lo - 1 <= x.hi ==> InRanges(a, y.lo - 1);
    assert y.lo <= x.lo - 1 <= y.hi ==> InRanges(b, x.lo - 1);
  }

  // ----- the text

  const TRUSTED := "=== TRUSTED SIGNALS (must-read, never truncated) ===\n"

  function Window(lines: seq<string>, i: nat): seq<string>
    requires i < |lines|
  {
    lines[if i < 5 then 0 else i - 5..if |lines| < i + 6 then |lines| else i + 6]
  }

  function MustChunk(lines: seq<string>, i: nat): string
    requires i < |lines|
  {
    "--- line " + Decimal(i + 1) + " (+/- 5) ---\n" + Join(Window(lines, i), '\n')
  }

  function MustBlock(lines: seq<string>, hits: seq<nat>): string
    requires forall k :: 0 <= k < |hits| ==> hits[k] < |lines|
  {
    if hits == [] then ""
    else TRUSTED + Join(seq(|hits|, k requires 0 <= k < |hits| => MustChunk(lines, hits[k])), '\n')
  }

  /** Every line within five of line i is shown with it. */
  lemma WindowHolds(lines: seq<string>, i: nat, j: nat)
    requires i < |lines| && j < |lines| && i - 5 <= j <= i + 5
    ensures Occurs(lines[j], MustChunk(lines, i))
  {
    var start := if i < 5 then 0 else i - 5;
    assert Window(lines, i)[j - start] == lines[j];
    JoinHolds(Window(lines, i), '\n', j - start);
    OccursIn(lines[j], Join(Window(lines, i), '\n'), "--- line " + Decimal(i + 1) + " (+/- 5) ---\n", "");
    assert MustChunk(lines, i) ==
           ("--- line " + Decimal(i + 1) + " (+/- 5) ---\n") + Join(Window(lines, i), '\n') + "";
  }

  /** And nothing else: the chunk is a heading and those lines. */
  lemma MustChunkLines(lines: seq<string>, i: nat)
    requires i < |lines| && forall j :: 0 <= j < |lines| ==> '\n' !in lines[j]
    ensures Split(MustChunk(lines, i), '\n') ==
            ["--- line " + Decimal(i + 1) + " (+/- 5) ---"] + lines[Max(0, i - 5)..Min(|lines|, i + 6)]
  {
    DecimalOneLine(i + 1);
    var heading := "--- line " + Decimal(i + 1) + " (+/- 5) ---";
    assert Window(lines, i) == lines[Max(0, i - 5)..Min(|lines|, i + 6)];
    HeadingSplit(heading, Window(lines, i));
    assert MustChunk(lines, i) == heading + ['\n'] + Join(Window(lines, i), '\n');
  }

  /** The trusted block holds every line it was made for, and five lines on either side. */
  lemma MustBlockHolds(lines: seq<string>, hits: seq<nat>, k: nat, j: nat)
    requires (forall h :: 0 <= h < |hits| ==> hits[h] < |lines|) && k < |hits|
    requires j < |lines| && hits[k] - 5 <= j <= hits[k] + 5
    ensures Occurs(lines[j], MustBlock(lines, hits))
  {
    var i := hits[k];
    WindowHolds(lines, i, j);
    var chunks := seq(|hits|, h requires 0 <= h < |hits| => MustChunk(lines, hits[h]));
    JoinHolds(chunks, '\n', k);
    OccursThrough(lines[j], chunks[k], Join(chunks, '\n'));
    OccursIn(lines[j], Join(chunks, '\n'), TRUSTED, "");
    assert MustBlock(lines, hits) == TRUSTED + Join(chunks, '\n') + "";
  }

  lemma OccursThrough(p: string, q: string, s: string)
    requires Occurs(p, q) && Occurs(q, s)
    ensures Occurs(p, s)
  {
    var a, b :| s == a + q + b;
    OccursIn(p, q, a, b);
  }

  function RangeHeading(r: Range): string {
    "=== lines " + Decimal(r.lo + 1) + "-" + Decimal(r.hi + 1) + " ==="
  }

  function RangeText(lines: seq<string>, r: Range): string
    requires r.lo <= r.hi < |lines|
  {
    RangeHeading(r) + "\n" + Join(lines[r.lo..r.hi + 1], '\n')
  }

  /** The end of the log, at most 32 KiB of it. */
  function Tail(full: string): (r: string)
    ensures |r| == (if |full| > 32768 then 32768 else |full|) && full[|full| - |r|..] == r
  {
    if |full| > LOG_TAIL_BYTES then full[|full| - LOG_TAIL_BYTES..] else full
  }

  function TailText(full: string): string {
    "=== TAIL (" + Decimal(|Tail(full)|) + " bytes) ===\n" + Tail(full)
  }

  function ContextHeading(matches: nat): string {
    "\n\n=== ERROR CONTEXT (" + Decimal(matches) + " matches) ===\n"
  }

  function Chunks(lines: seq<string>, ranges: seq<Range>): seq<string>
    requires forall k :: 0 <= k < |ranges| ==> ranges[k].lo <= ranges[k].hi < |lines|
  {
    seq(|ranges|, k requires 0 <= k < |ranges| => RangeText(lines, ranges[k]))
  }

  function Body(full: string, lines: seq<string>, matches: seq<nat>, ranges: seq<Range>): string
    requires forall k :: 0 <= k < |ranges| ==> ranges[k].lo <= ranges[k].hi < |lines|
  {
    if ranges == [] then TailText(full)
    else TailText(full) + ContextHeading(|matches|) + Join(Chunks(lines, ranges), '\n')
  }

  function Truncated(body: string): (r: string)
    ensures |body| <= 98304 ==> r == body
    ensures |body| > 98304 ==> |r| > 98304 && r[..98304] == body[..98304]
  {
    if |body| > SLICE_MAX_BYTES
    then body[..SLICE_MAX_BYTES] + "\n\n[... body truncated to " + Decimal(SLICE_MAX_BYTES) + " bytes ...]"
    else body
  }

  lemma HeadingSplit(heading: string, lines: seq<string>)
    requires '\n' !in heading && lines != [] && forall j :: 0 <= j < |lines| ==> '\n' !in lines[j]
    ensures Split(heading + ['\n'] + Join(lines, '\n'), '\n') == [heading] + lines
  {
    SplitUnbroken(heading, '\n', Join(lines, '\n'));
    SplitJoin(lines, '\n');
  }

  lemma DecimalOneLine(n: nat)
    ensures '\n' !in Decimal(n)
  {
    DecimalDigits(n);
  }

  lemma RangeHeadingOneLine(r: Range)
    ensures '\n' !in RangeHeading(r)
  {
    DecimalOneLine(r.lo + 1);
    DecimalOneLine(r.hi + 1);
  }

  /** The text of a range is a heading, which counts from one, and the lines of the range. */
  lemma RangeTextLines(lines: seq<string>, r: Range)
    requires r.lo <= r.hi < |lines| && forall j :: 0 <= j < |lines| ==> '\n' !in lines[j]
    ensures Split(RangeText(lines, r), '\n') ==
            ["=== lines " + Decimal(r.lo + 1) + "-" + Decimal(r.hi + 1) + " ==="] + lines[r.lo..r.hi + 1]
  {
    RangeHeadingOneLine(r);
    HeadingSplit(RangeHeading(r), lines[r.lo..r.hi + 1]);
  }

  lemma RangeTextHolds(lines: seq<string>, r: Range, j: nat)
    requires r.lo <= r.hi < |lines| && r.lo <= j <= r.hi
    ensures Occurs(lines[j], RangeText(lines, r))
  {
    var heading, body := RangeHeading(r) + "\n", lines[r.lo..r.hi + 1];
    assert body[j - r.lo] == lines[j];
    JoinHolds(body, '\n', j - r.lo);
    OccursIn(lines[j], Join(body, '\n'), heading, "");
    assert RangeText(lines, r) == heading + Join(body, '\n') + "";
  }

  lemma ChunksHold(lines: seq<string>, ranges: seq<Range>, k: nat, j: nat)
    requires forall k :: 0 <= k < |ranges| ==> ranges[k].lo <= ranges[k].hi < |lines|
    requires k < |ranges| && ranges[k].lo <= j <= ranges[k].hi
    ensures Occurs(lines[j], Join(Chunks(lines, ranges), '\n'))
  {
    RangeTextHolds(lines, ranges[k], j);
    JoinHolds(Chunks(lines, ranges), '\n', k);
    OccursThrough(lines[j], Chunks(lines, ranges)[k], Join(Chunks(lines, ranges), '\n'));
  }

  lemma OccursLater(p: string, front: string, s: string)
    requires Occurs(p, s)
    ensures Occurs(p, front + s)
  {
    OccursIn(p, s, front, "");
    assert front + s + "" == front + s;
  }

  /** Before it is cut, the body starts with the end of the log and holds every line of every range. */
  lemma BodyHolds(full: string, lines: seq<string>, matches: seq<nat>, ranges: seq<Range>, k: nat, j: nat)
    requires forall k :: 0 <= k < |ranges| ==> ranges[k].lo <= ranges[k].hi < |lines|
    requires k < |ranges| && ranges[k].lo <= j <= ranges[k].hi
    ensures TailText(full) <= Body(full, lines, matches, ranges)
    ensures Occurs(lines[j], Body(full, lines, matches, ranges))
  {
    ChunksHold(lines, ranges, k, j);
    OccursLater(lines[j], TailText(full) + ContextHeading(|matches|), Join(Chunks(lines, ranges), '\n'));
  }

  lemma RangesWithin(ranges: seq<Range>, indices: seq<nat>, n: nat)
    requires Separated(ranges) && (forall j: nat :: InRanges(ranges, j) <==> j in indices)
    requires forall j :: j in indices ==> j < n
    ensures forall k :: 0 <= k < |ranges| ==> ranges[k].lo <= ranges[k].hi < n
  {
    forall k | 0 <= k < |ranges|
      ensures ranges[k].hi < n
    {
      assert InRanges(ranges, ranges[k].hi);
    }
  }

  /** The matching lines that come later. */
  ghost function MatchesAfter(lines: seq<string>, pats: seq<Pattern>, i: nat): set<nat> {
    set j: nat | i < j < |lines| && Matches(pats, lines[j])
  }

  /** In ascending order, the matching lines that fewer than thirty others come after. */
  ghost predicate AreLastMatches(matches: seq<nat>, lines: seq<string>, pats: seq<Pattern>) {
    && Increasing(matches)
    && forall i: nat :: i in matches <==>
         i < |lines| && Matches(pats, lines[i]) && |MatchesAfter(lines, pats, i)| < 30
  }

  ghost function SetOf(s: seq<nat>): set<nat> {
    set x | x in s
  }

  lemma SetPush(s: seq<nat>, x: nat)
    ensures SetOf(s + [x]) == SetOf(s) + {x}
  {
  }

  lemma {:induction false} IncreasingCount(s: seq<nat>)
    requires Increasing(s)
    ensures |SetOf(s)| == |s|
    decreases |s|
  {
    if s != [] {
      var init, last := s[..|s| - 1], s[|s| - 1];
      IncreasingCount(init);
      SetPush(init, last);
      assert s == init + [last];
      assert last !in SetOf(init);
      assert |SetOf(init) + {last}| == |SetOf(init)| + 1;
    }
  }

  lemma AfterHit(hits: seq<nat>, lines: seq<string>, pats: seq<Pattern>, k: nat)
    requires Increasing(hits) && forall i: nat :: i in hits <==> i < |lines| && Matches(pats, lines[i])
    requires k < |hits|
    ensures |MatchesAfter(lines, pats, hits[k])| == |hits| - 1 - k
  {
    var later := hits[k + 1..];
    forall j: nat
      ensures j in MatchesAfter(lines, pats, hits[k]) <==> j in later
    {
      if j in later {
        var m :| 0 <= m < |later| && later[m] == j;
        assert hits[k + 1 + m] == j;
        assert j in hits;
      }
      if j in MatchesAfter(lines, pats, hits[k]) {
        var m :| 0 <= m < |hits| && hits[m] == j;
        assert later[m - k - 1] == j;
      }
    }
    IncreasingCount(later);
    assert MatchesAfter(lines, pats, hits[k]) == SetOf(later);
  }

  /** Which of the hits are among the last thirty. */
  lemma IsLate(hits: seq<nat>, k: nat)
    requires Increasing(hits) && k < |hits|
    ensures hits[k] in LastMatches(hits) <==> |hits| - 1 - k < 30
  {
    var matches := LastMatches(hits);
    var dropped := |hits| - |matches|;
    assert matches == hits[dropped..];
    if hits[k] in matches {
      var m :| 0 <= m < |matches| && matches[m] == hits[k];
      assert hits[dropped + m] == hits[k];
    }
    if k >= dropped { assert matches[k - dropped] == hits[k]; }
  }

  lemma LateAreHits(hits: seq<nat>)
    requires Increasing(hits)
    ensures Increasing(LastMatches(hits)) && forall i: nat :: i in LastMatches(hits) ==> i in hits
  {
  }

  lemma LastThirty(hits: seq<nat>, lines: seq<string>, pats: seq<Pattern>)
    requires Increasing(hits) && forall i: nat :: i in hits <==> i < |lines| && Matches(pats, lines[i])
    ensures AreLastMatches(LastMatches(hits), lines, pats)
  {
    LateAreHits(hits);
    forall i: nat | i in hits
      ensures i in LastMatches(hits) <==> |MatchesAfter(lines, pats, i)| < 30
    {
      var k :| 0 <= k < |hits| && hits[k] == i;
      AfterHit(hits, lines, pats, k);
      IsLate(hits, k);
    }
  }

  /** The matches used and the ranges around them. */
  method ErrorRanges(lines: seq<string>, pats: seq<Pattern>) returns (matches: seq<nat>, ranges: seq<Range>)
    ensures AreLastMatches(matches, lines, pats)
    ensures Separated(ranges) && forall j: nat :: InRanges(ranges, j) <==> InWindow(matches, |lines|, j)
    ensures forall k :: 0 <= k < |ranges| ==> ranges[k].lo <= ranges[k].hi < |lines|
  {
    var hits := FindLines(lines, pats);
    assert forall k :: 0 <= k < |hits| ==> hits[k] in hits;
    matches := LastMatches(hits);
    LastThirty(hits, lines, pats);
    var context := ContextIndices(matches, |lines|);
    var indices := SortedBelow(context, |lines|);
    ranges := MergeRanges(indices);
    RangesWithin(ranges, indices, |lines|);
  }

  /** slice_log: the text it returns, and the lines, matches and ranges it is made of. */
  method SliceLog(full: string, errorPats: seq<Pattern>, mustPats: seq<Pattern>)
    returns (text: string, lines: seq<string>, must: seq<nat>, matches: seq<nat>, ranges: seq<Range>)
    ensures lines == Lines(full) && AreLastMatches(matches, lines, errorPats)
    ensures Increasing(must) && forall i: nat :: i in must <==> i < |lines| && Matches(mustPats, lines[i])
    ensures Separated(ranges) && forall j: nat :: InRanges(ranges, j) <==> InWindow(matches, |lines|, j)
    ensures (forall k :: 0 <= k < |must| ==> must[k] < |lines|) &&
            (forall k :: 0 <= k < |ranges| ==> ranges[k].lo <= ranges[k].hi < |lines|)
    ensures must == [] ==> text == Truncated(Body(full, lines, matches, ranges))
    ensures must != [] ==> text == MustBlock(lines, must) + "\n\n" + Truncated(Body(full, lines, matches, ranges))
  {
    lines := Lines(full);
    must := FindLines(lines, mustPats);
    assert forall k :: 0 <= k < |must| ==> must[k] in must;
    matches, ranges := ErrorRanges(lines, errorPats);
    var body := Body(full, lines, matches, ranges);
    text := Truncated(body);
    if must != [] {
      text := MustBlock(lines, must) + "\n\n" + text;
    }
  }

  /** However the body is cut, each trusted line is in a block that the text starts with. */
  lemma TrustedFirst(text: string, lines: seq<string>, must: seq<nat>, body: string, i: nat)
    requires (forall k :: 0 <= k < |must| ==> must[k] < |lines|) && i in must
    requires text == MustBlock(lines, must) + "\n\n" + Truncated(body)
    ensures MustBlock(lines, must) <= text && Occurs(lines[i], MustBlock(lines, must))
  {
    var k :| 0 <= k < |must| && must[k] == i;
    MustBlockHolds(lines, must, k, must[k]);
  }
}
