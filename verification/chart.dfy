/** `Chart`: a time series shown over a sliding window.

    Timestamps are readings of a monotonic clock in integer ticks; the
    model fixes the tick at one nanosecond, the resolution of
    `std::chrono::steady_clock` on the usual implementations.  Each clock
    reading the source takes is a parameter.  The measured values are
    stored verbatim and only compared in the autoscaling arithmetic, which
    is floating point and left out, so they are `real`s here. */
module Chart {
  import opened Strings

  const TicksPerSecond: int := 1_000_000_000

  /** `DataPoint`. */
  datatype Point = Point(value: real, stamp: int, unit: String)

  /** The chart's data and scaling settings. */
  datatype Chart = Chart(
    points: seq<Point>,
    windowSeconds: int,
    autoScale: bool,
    manualMin: real,
    manualMax: real)

  /** The constructed chart: no points, a 30-second window, autoscaling,
      and manual bounds 0 to 10. */
  function NewChart(): (r: Chart)
    ensures r.points == [] && r.windowSeconds == 30 && r.autoScale
    ensures r.manualMin == 0.0 && r.manualMax == 10.0
  {
    Chart([], 30, true, 0.0, 10.0)
  }

  /** Timestamps never decrease along the series. */
  predicate Sorted(ps: seq<Point>) {
    forall i, j :: 0 <= i < j < |ps| ==> ps[i].stamp <= ps[j].stamp
  }

  /** The oldest instant a point may have to stay in the window at `now`. */
  function Cutoff(now: int, windowSeconds: int): int {
    now - windowSeconds * TicksPerSecond
  }

  // ---------------------------------------------------------------------
  // Pruning
  // ---------------------------------------------------------------------

  /** How many points at the front are older than `cutoff`. */
  function StaleCount(ps: seq<Point>, cutoff: int): (n: nat)
    ensures n <= |ps|
    ensures forall i :: 0 <= i < n ==> ps[i].stamp < cutoff
    ensures n < |ps| ==> ps[n].stamp >= cutoff
    decreases |ps|
  {
    if |ps| == 0 || ps[0].stamp >= cutoff then 0
    else
      var m := StaleCount(ps[1..], cutoff);
      assert forall i :: 1 <= i < 1 + m ==> ps[i] == ps[1..][i - 1];
      1 + m
  }

  /** `cleanOldDataPoints`: drop points from the front while they are
      older than the cutoff.  What is left is a suffix, in order, and
      starts with a point that is not too old. */
  function Prune(ps: seq<Point>, cutoff: int): (r: seq<Point>)
    ensures |r| <= |ps| && r == ps[|ps| - |r|..]
    ensures forall i :: 0 <= i < |ps| - |r| ==> ps[i].stamp < cutoff
    ensures |r| > 0 ==> r[0].stamp >= cutoff
  {
    ps[StaleCount(ps, cutoff)..]
  }

  /** The source's loop, popping one point at a time. */
  method PruneScan(ps: seq<Point>, cutoff: int) returns (r: seq<Point>)
    ensures r == Prune(ps, cutoff)
  {
    r := ps;
    while |r| > 0 && r[0].stamp < cutoff
      invariant |r| <= |ps| && r == ps[|ps| - |r|..]
      invariant forall i :: 0 <= i < |ps| - |r| ==> ps[i].stamp < cutoff
      decreases |r|
    {
      r := r[1..];
    }
    var n := |ps| - |r|;
    StaleCountUnique(ps, cutoff, n);
  }

  /** The stale count is the only prefix length with stale points before
      it and a fresh point (or the end) at it. */
  lemma StaleCountUnique(ps: seq<Point>, cutoff: int, n: nat)
    requires n <= |ps|
    requires forall i :: 0 <= i < n ==> ps[i].stamp < cutoff
    requires n < |ps| ==> ps[n].stamp >= cutoff
    ensures StaleCount(ps, cutoff) == n
  {
  }

  /** On a series in time order, every point left after pruning is within
      the window. */
  lemma PrunedWithinWindow(ps: seq<Point>, cutoff: int)
    requires Sorted(ps)
    ensures forall i :: 0 <= i < |Prune(ps, cutoff)| ==> Prune(ps, cutoff)[i].stamp >= cutoff
  {
    var r := Prune(ps, cutoff);
    var k := |ps| - |r|;
    forall i | 0 <= i < |r| ensures r[i].stamp >= cutoff {
      assert r[i] == ps[k + i] && r[0] == ps[k];
    }
  }

  /** Pruning twice at the same cutoff is pruning once; an empty series
      stays empty. */
  lemma PruneIdempotent(ps: seq<Point>, cutoff: int)
    ensures Prune(Prune(ps, cutoff), cutoff) == Prune(ps, cutoff)
    ensures Prune([], cutoff) == []
  {
    var r := Prune(ps, cutoff);
    StaleCountUnique(r, cutoff, 0);
  }

  /** Pruning keeps a series in time order. */
  lemma PruneSorted(ps: seq<Point>, cutoff: int)
    requires Sorted(ps)
    ensures Sorted(Prune(ps, cutoff))
  {
    var r := Prune(ps, cutoff);
    var k := |ps| - |r|;
    forall i, j | 0 <= i < j < |r| ensures r[i].stamp <= r[j].stamp {
      assert r[i] == ps[k + i] && r[j] == ps[k + j];
    }
  }

  // ---------------------------------------------------------------------
  // Operations
  // ---------------------------------------------------------------------

  /** `addDataPoint`: one point stamped `stamp` at the back, then pruning
      with the window measured back from `pruneNow`, the clock read again
      by the pruning step.  The refresh throttle is left out. */
  function AddDataPoint(c: Chart, value: real, unit: String, stamp: int, pruneNow: int): (r: Chart)
    ensures r == c.(points := r.points)
    ensures var all := c.points + [Point(value, stamp, unit)];
      r.points == Prune(all, Cutoff(pruneNow, c.windowSeconds))
  {
    c.(points := Prune(c.points + [Point(value, stamp, unit)], Cutoff(pruneNow, c.windowSeconds)))
  }

  /** The point just added is the last one, and it survives whenever it
      is within the window at the pruning instant. */
  lemma AddedPointKept(c: Chart, value: real, unit: String, stamp: int, pruneNow: int)
    requires stamp >= Cutoff(pruneNow, c.windowSeconds)
    ensures var ps := AddDataPoint(c, value, unit, stamp, pruneNow).points;
      |ps| > 0 && ps[|ps| - 1] == Point(value, stamp, unit)
  {
    var all := c.points + [Point(value, stamp, unit)];
    var n := StaleCount(all, Cutoff(pruneNow, c.windowSeconds));
    assert all[|all| - 1].stamp == stamp;
    assert n < |all|;
  }

  /** A window shorter than the time since the newest point empties the
      series: with a negative window even the point just added goes. */
  lemma NegativeWindowEmpties(c: Chart, value: real, unit: String, now: int)
    requires c.windowSeconds < 0 && Sorted(c.points)
    requires forall i :: 0 <= i < |c.points| ==> c.points[i].stamp <= now
    ensures AddDataPoint(c, value, unit, now, now).points == []
  {
    var all := c.points + [Point(value, now, unit)];
    var cutoff := Cutoff(now, c.windowSeconds);
    assert cutoff > now;
    StaleCountUnique(all, cutoff, |all|);
  }

  /** With a clock that never runs backwards, adding keeps the series in
      time order. */
  lemma AddKeepsSorted(c: Chart, value: real, unit: String, stamp: int, pruneNow: int)
    requires Sorted(c.points)
    requires forall i :: 0 <= i < |c.points| ==> c.points[i].stamp <= stamp
    ensures Sorted(AddDataPoint(c, value, unit, stamp, pruneNow).points)
  {
    var all := c.points + [Point(value, stamp, unit)];
    assert Sorted(all);
    PruneSorted(all, Cutoff(pruneNow, c.windowSeconds));
  }

  /** `clear`. */
  function Clear(c: Chart): (r: Chart)
    ensures r.points == [] && r == c.(points := [])
  {
    c.(points := [])
  }

  /** `setYRange`: both manual bounds, and autoscaling off. */
  function SetYRange(c: Chart, minY: real, maxY: real): (r: Chart)
    ensures r == c.(manualMin := minY, manualMax := maxY, autoScale := false)
  {
    c.(manualMin := minY, manualMax := maxY, autoScale := false)
  }

  /** `setTimeWindow`: only the window changes; points already stored
      are pruned against it on the next `addDataPoint`. */
  function SetTimeWindow(c: Chart, seconds: int): (r: Chart)
    ensures r.windowSeconds == seconds && r.points == c.points
    ensures r.autoScale == c.autoScale && r.manualMin == c.manualMin && r.manualMax == c.manualMax
  {
    c.(windowSeconds := seconds)
  }

  /** `setAutoScale`: only the flag changes; the manual bounds are kept. */
  function SetAutoScale(c: Chart, on: bool): (r: Chart)
    ensures r.autoScale == on && r.points == c.points && r.windowSeconds == c.windowSeconds
    ensures r.manualMin == c.manualMin && r.manualMax == c.manualMax
  {
    c.(autoScale := on)
  }

  /** Where a bound of the y axis comes from: a manual bound, or the data
      (whose floating-point margin is left out). */
  datatype AxisBound = ManualBound(v: real) | FromData

  /** `getMinValue` and `getMaxValue`: the manual bounds whenever there is
      no data or autoscaling is off. */
  function YBounds(c: Chart): (r: (AxisBound, AxisBound))
    ensures c.points == [] || !c.autoScale ==> r == (ManualBound(c.manualMin), ManualBound(c.manualMax))
    ensures c.points != [] && c.autoScale ==> r == (FromData, FromData)
  {
    if c.points == [] || !c.autoScale then (ManualBound(c.manualMin), ManualBound(c.manualMax))
    else (FromData, FromData)
  }

  /** After `setYRange` the axis shows exactly the range set, whatever data
      arrives later. */
  lemma SetYRangeSticks(c: Chart, minY: real, maxY: real, value: real, unit: String, stamp: int, now: int)
    ensures YBounds(SetYRange(c, minY, maxY)) == (ManualBound(minY), ManualBound(maxY))
    ensures YBounds(AddDataPoint(SetYRange(c, minY, maxY), value, unit, stamp, now)) == (ManualBound(minY), ManualBound(maxY))
  {
  }

  /** Switching autoscaling back on after `setYRange` lets non-empty data
      drive the axis again, and switching it off restores the range set. */
  lemma AutoScaleToggle(c: Chart, minY: real, maxY: real)
    requires c.points != []
    ensures YBounds(SetAutoScale(SetYRange(c, minY, maxY), true)) == (FromData, FromData)
    ensures YBounds(SetAutoScale(SetAutoScale(SetYRange(c, minY, maxY), true), false)) == (ManualBound(minY), ManualBound(maxY))
  {
  }

  /** After `clear` the axis shows the manual bounds, and the next point
      within the window is the only one stored. */
  lemma ClearThenAdd(c: Chart, value: real, unit: String, stamp: int, pruneNow: int)
    requires stamp >= Cutoff(pruneNow, c.windowSeconds)
    ensures YBounds(Clear(c)) == (ManualBound(c.manualMin), ManualBound(c.manualMax))
    ensures AddDataPoint(Clear(c), value, unit, stamp, pruneNow).points == [Point(value, stamp, unit)]
  {
    AddedPointKept(Clear(c), value, unit, stamp, pruneNow);
  }

  /** A new window takes effect at the next addition: points older than
      it go then, whatever window they were added under. */
  lemma WindowAppliesOnNextAdd(c: Chart, seconds: int, value: real, unit: String, stamp: int, pruneNow: int)
    requires Sorted(c.points + [Point(value, stamp, unit)])
    ensures var ps := AddDataPoint(SetTimeWindow(c, seconds), value, unit, stamp, pruneNow).points;
      forall i :: 0 <= i < |ps| ==> ps[i].stamp >= Cutoff(pruneNow, seconds)
  {
    PrunedWithinWindow(c.points + [Point(value, stamp, unit)], Cutoff(pruneNow, seconds));
  }
}
