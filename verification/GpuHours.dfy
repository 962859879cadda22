/** GPU-hours per day: each reservation's time split over consecutive days. Times are in seconds. */
module GpuHours {
  import opened Options
  import opened Arithmetic

  const DAY := 24 * 3600

  /** A reservation; without an end it runs on. */
  datatype Reservation = Reservation(createdAt: int, expiresAt: Option<int>, gpuCount: nat)

  /** Seconds the reservation spends in a window, an open end counting to the window's end. */
  function Overlap(r: Reservation, start: int, end: int): (s: nat) {
    Max(0, Min(if r.expiresAt.Some? then r.expiresAt.value else end, end) - Max(r.createdAt, start))
  }

  /** GPU-seconds of some reservations in a window. */
  function GpuSeconds(rs: seq<Reservation>, start: int, end: int): nat {
    if rs == [] then 0
    else GpuSeconds(rs[..|rs| - 1], start, end) + Overlap(rs[|rs| - 1], start, end) * rs[|rs| - 1].gpuCount
  }

  /** The reservation is running in the second that starts at t. */
  predicate Running(r: Reservation, t: int) {
    r.createdAt <= t && (r.expiresAt.Some? ==> t < r.expiresAt.value)
  }

  ghost function Interval(lo: int, hi: int): (seconds: set<int>)
    ensures forall t :: t in seconds <==> lo <= t < hi
    ensures |seconds| == Max(0, hi - lo)
    decreases hi - lo
  {
    if lo >= hi then {} else Interval(lo, hi - 1) + {hi - 1}
  }

  /** The overlap counts the seconds of the window in which the reservation is running. */
  lemma OverlapCounts(r: Reservation, start: int, end: int)
    ensures Overlap(r, start, end) == |set t: int | start <= t < end && Running(r, t)|
  {
    var lo := Max(r.createdAt, start);
    var hi := Min(if r.expiresAt.Some? then r.expiresAt.value else end, end);
    assert (set t: int | start <= t < end && Running(r, t)) == Interval(lo, hi);
  }

  /** Running totals p of each reservation's GPUs times its seconds in the window end at the GPU-seconds. */
  lemma {:induction false} GpuSecondsCount(rs: seq<Reservation>, start: int, end: int, p: seq<int>)
    requires |p| == |rs| + 1 && p[0] == 0
    requires forall i, j :: 0 <= i < |rs| && j == i + 1 ==>
               p[j] == p[i] + |set t: int | start <= t < end && Running(rs[i], t)| * rs[i].gpuCount
    ensures GpuSeconds(rs, start, end) == p[|rs|]
    decreases |rs|
  {
    if rs != [] {
      var m := |rs| - 1;
      GpuSecondsCount(rs[..m], start, end, p[..m + 1]);
      OverlapCounts(rs[m], start, end);
    }
  }

  /** The reservations taken into account for a day: created before it ends and not expired before it starts. */
  predicate Active(r: Reservation, dayStart: int, dayEnd: int) {
    r.createdAt < dayEnd && (r.expiresAt.None? || r.expiresAt.value >= dayStart)
  }

  /** A reservation that is not active in a window has no time in it. */
  lemma InactiveIsZero(r: Reservation, start: int, end: int)
    requires start <= end && !Active(r, start, end)
    ensures Overlap(r, start, end) == 0
  {
  }

  function Hours(seconds: nat): real {
    seconds as real / 3600.0
  }

  lemma HoursAre(seconds: nat)
    ensures Hours(seconds) * 3600.0 == seconds as real
  {
  }

  lemma HoursAdd(a: nat, b: nat, gpus: nat)
    ensures Hours(a) + Hours(b) * gpus as real == Hours(a + b * gpus)
  {
    assert (b * gpus) as real == b as real * gpus as real;
  }

  /** The GPU-hours of the day that starts then. */
  function DayTotal(rs: seq<Reservation>, dayStart: int): real {
    Hours(GpuSeconds(rs, dayStart, dayStart + DAY))
  }

  /** One day's total. */
  method DayHours(rs: seq<Reservation>, dayStart: int) returns (totalHours: real)
    ensures totalHours == DayTotal(rs, dayStart)
  {
    var dayEnd := dayStart + DAY;
    totalHours := 0.0;
    for i := 0 to |rs|
      invariant totalHours == Hours(GpuSeconds(rs[..i], dayStart, dayEnd))
    {
      var res := rs[i];
      assert rs[..i + 1][..i] == rs[..i];
      HoursAdd(GpuSeconds(rs[..i], dayStart, dayEnd), Overlap(res, dayStart, dayEnd), res.gpuCount);
      if !Active(res, dayStart, dayEnd) {
        InactiveIsZero(res, dayStart, dayEnd);
        continue;
      }
      var resStart := Max(res.createdAt, dayStart);
      var resEnd := Min(if res.expiresAt.Some? then res.expiresAt.value else dayEnd, dayEnd);
      if resEnd > resStart {
        var hours := Hours(resEnd - resStart);
        totalHours := totalHours + hours * res.gpuCount as real;
      }
    }
    assert rs[..|rs|] == rs;
  }

  /** The start of the k-th day of a period. */
  function DayStart(start: int, k: nat): int {
    start + k * DAY
  }

  lemma NextDay(start: int, k: nat)
    ensures DayStart(start, 0) == start && DayStart(start, k + 1) == DayStart(start, k) + 86400
    ensures start <= DayStart(start, k)
  {
  }

  method DailyHours(rs: seq<Reservation>, start: int, days: nat) returns (daily: seq<real>)
    ensures |daily| == days
    ensures forall k :: 0 <= k < days ==> daily[k] == DayTotal(rs, DayStart(start, k))
  {
    daily := [];
    for k := 0 to days
      invariant |daily| == k
      invariant forall j :: 0 <= j < k ==> daily[j] == DayTotal(rs, DayStart(start, j))
    {
      var totalHours := DayHours(rs, DayStart(start, k));
      daily := daily + [totalHours];
    }
  }

  function Sum(s: seq<real>): real {
    if s == [] then 0.0 else Sum(s[..|s| - 1]) + s[|s| - 1]
  }

  /** Cutting a window in two cuts a reservation's time in two. */
  lemma OverlapSplits(r: Reservation, a: int, b: int, c: int)
    requires a <= b <= c
    ensures Overlap(r, a, c) == Overlap(r, a, b) + Overlap(r, b, c)
  {
  }

  lemma {:induction false} GpuSecondsSplit(rs: seq<Reservation>, a: int, b: int, c: int)
    requires a <= b <= c
    ensures GpuSeconds(rs, a, c) == GpuSeconds(rs, a, b) + GpuSeconds(rs, b, c)
    decreases |rs|
  {
    if rs != [] {
      var r := rs[|rs| - 1];
      GpuSecondsSplit(rs[..|rs| - 1], a, b, c);
      OverlapSplits(r, a, b, c);
      MulAdd(Overlap(r, a, b), Overlap(r, b, c), r.gpuCount);
    }
  }

  lemma {:induction false} EmptyWindow(rs: seq<Reservation>, a: int)
    ensures GpuSeconds(rs, a, a) == 0
    decreases |rs|
  {
    if rs != [] {
      EmptyWindow(rs[..|rs| - 1], a);
      assert Overlap(rs[|rs| - 1], a, a) == 0;
    }
  }

  /** One more day adds its total. */
  lemma DayAdds(rs: seq<Reservation>, start: int, mid: int)
    requires start <= mid
    ensures Hours(GpuSeconds(rs, start, mid + DAY)) == Hours(GpuSeconds(rs, start, mid)) + DayTotal(rs, mid)
  {
    GpuSecondsSplit(rs, start, mid, mid + DAY);
  }

  /** The daily totals add up to the GPU-hours of the whole period. */
  lemma {:induction false} DaysAddUp(rs: seq<Reservation>, start: int, daily: seq<real>)
    requires forall k :: 0 <= k < |daily| ==> daily[k] == DayTotal(rs, DayStart(start, k))
    ensures Sum(daily) == Hours(GpuSeconds(rs, start, DayStart(start, |daily|)))
    decreases |daily|
  {
    if daily == [] {
      EmptyWindow(rs, start);
    } else {
      var n := |daily| - 1;
      DaysAddUp(rs, start, daily[..n]);
      NextDay(start, n);
      DayAdds(rs, start, DayStart(start, n));
    }
  }
}
