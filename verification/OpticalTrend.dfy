/** The drop inside a time window, with isolated upward spikes left out of the reference. */
module OpticalTrend {
  import opened Options
  import opened Numbers

  const SPIKE_GUARD: real := 5.0

  /** A reading that tops both neighbours it has by more than the guard. */
  predicate IsSpike(points: seq<real>, index: nat)
    requires index < |points|
  {
    && (index > 0 || index + 1 < |points|)
    && (index > 0 ==> points[index] - points[index - 1] > SPIKE_GUARD)
    && (index + 1 < |points| ==> points[index] - points[index + 1] > SPIKE_GUARD)
  }

  /** The highest reading that is not a spike. */
  ghost predicate IsPeak(points: seq<real>, peak: real) {
    && (exists i :: 0 <= i < |points| && !IsSpike(points, i) && points[i] == peak)
    && (forall i :: 0 <= i < |points| && !IsSpike(points, i) ==> points[i] <= peak)
  }

  /** Two neighbours are never both spikes. */
  lemma SpikesAreIsolated(points: seq<real>, index: nat)
    requires index + 1 < |points|
    ensures !(IsSpike(points, index) && IsSpike(points, index + 1))
  {
    assert points[index] - points[index + 1] > SPIKE_GUARD ==> points[index + 1] - points[index] <= SPIKE_GUARD;
  }

  /** So a reference always exists, and the guard against having none is never needed. */
  lemma SomeReadingIsNoSpike(points: seq<real>)
    requires points != []
    ensures !IsSpike(points, 0) || (|points| > 1 && !IsSpike(points, 1))
  {
    if |points| > 1 {
      SpikesAreIsolated(points, 0);
    }
  }

  /** `Math.max(a ?? -Infinity, b ?? -Infinity)` over the neighbours that exist. */
  function NeighbourPeak(points: seq<real>, index: nat): Option<real>
    requires index < |points|
  {
    var previous := if index > 0 then Some(points[index - 1]) else None;
    var next := if index + 1 < |points| then Some(points[index + 1]) else None;
    if previous.None? then next
    else if next.None? then previous
    else Some(if previous.value > next.value then previous.value else next.value)
  }

  predicate TopsItsNeighbours(points: seq<real>, index: nat)
    requires index < |points|
  {
    var peak := NeighbourPeak(points, index);
    peak.Some? && points[index] - peak.value > SPIKE_GUARD
  }

  lemma SpikeTestIsExact(points: seq<real>, index: nat)
    requires index < |points|
    ensures TopsItsNeighbours(points, index) <==> IsSpike(points, index)
  {
  }

  /** The scan: reference peak over the readings that are no spikes, minus the latest reading. */
  method DropOf(points: seq<real>) returns (drop: real)
    ensures points == [] ==> drop == 0.0
    ensures points != [] ==> exists peak :: IsPeak(points, peak) && drop == DropFrom(peak, points[|points| - 1])
  {
    if |points| == 0 {
      return 0.0;
    }
    var current := points[|points| - 1];
    var peak: Option<real> := None;
    for index := 0 to |points|
      invariant peak.None? ==> forall i :: 0 <= i < index ==> IsSpike(points, i)
      invariant peak.Some? ==> exists i :: 0 <= i < index && !IsSpike(points, i) && points[i] == peak.value
      invariant peak.Some? ==> forall i :: 0 <= i < index && !IsSpike(points, i) ==> points[i] <= peak.value
    {
      SpikeTestIsExact(points, index);
      if TopsItsNeighbours(points, index) {
        continue;
      }
      if peak.None? || points[index] > peak.value {
        peak := Some(points[index]);
      }
    }
    SomeReadingIsNoSpike(points);
    if peak.None? {
      drop := 0.0;
    } else {
      assert IsPeak(points, peak.value);
      drop := DropFrom(peak.value, current);
    }
  }

  function DropFrom(peak: real, current: real): real {
    Round2(if peak > current then peak - current else 0.0)
  }

  lemma PeakIsUnique(points: seq<real>, p: real, q: real)
    requires IsPeak(points, p) && IsPeak(points, q)
    ensures p == q
  {
    var i :| 0 <= i < |points| && !IsSpike(points, i) && points[i] == p;
    var j :| 0 <= j < |points| && !IsSpike(points, j) && points[j] == q;
  }

  /** The same drop as a function of the readings. */
  ghost function Drop(points: seq<real>): real {
    if points == [] then 0.0 else DropFrom(Peak(points), points[|points| - 1])
  }

  ghost function Peak(points: seq<real>): (peak: real)
    requires points != []
    ensures IsPeak(points, peak)
  {
    PeakExists(points);
    var peak :| IsPeak(points, peak);
    peak
  }

  lemma PeakExists(points: seq<real>)
    requires points != []
    ensures exists peak :: IsPeak(points, peak)
  {
    SomeReadingIsNoSpike(points);
    var best := PeakOfFirst(points, |points|);
  }

  lemma {:induction false} PeakOfFirst(points: seq<real>, n: nat) returns (best: Option<real>)
    requires n <= |points|
    ensures best.None? ==> forall i :: 0 <= i < n ==> IsSpike(points, i)
    ensures best.Some? ==> exists i :: 0 <= i < n && !IsSpike(points, i) && points[i] == best.value
    ensures best.Some? ==> forall i :: 0 <= i < n && !IsSpike(points, i) ==> points[i] <= best.value
    ensures best.Some? && n == |points| ==> IsPeak(points, best.value)
  {
    if n == 0 {
      best := None;
    } else {
      best := PeakOfFirst(points, n - 1);
      if !IsSpike(points, n - 1) && (best.None? || points[n - 1] > best.value) {
        best := Some(points[n - 1]);
      }
    }
  }

  /** A level that is back above every genuine reading of the window is no drop. */
  lemma NoDropFromTheTop(points: seq<real>)
    requires points != []
    requires forall i :: 0 <= i < |points| && !IsSpike(points, i) ==> points[i] <= points[|points| - 1]
    ensures Drop(points) == 0.0
  {
    var peak := Peak(points);
    var i :| 0 <= i < |points| && !IsSpike(points, i) && points[i] == peak;
    assert (0.0 * 100.0 + 0.5).Floor == 0;
  }

  /** Raising the latest reading can un-spike its neighbour and so raise the drop. */
  lemma RaisingTheLatestCanRaiseTheDrop()
    ensures Drop([0.0, 8.0, 2.0]) == 0.0 && Drop([0.0, 8.0, 3.0]) == 5.0
  {
    var low, high := [0.0, 8.0, 2.0], [0.0, 8.0, 3.0];
    assert !IsSpike(low, 0) && IsSpike(low, 1) && !IsSpike(low, 2) && low[2] == 2.0;
    assert IsPeak(low, 2.0);
    PeakIsUnique(low, Peak(low), 2.0);
    assert !IsSpike(high, 0) && !IsSpike(high, 1) && !IsSpike(high, 2) && high[1] == 8.0;
    assert IsPeak(high, 8.0);
    PeakIsUnique(high, Peak(high), 8.0);
    assert (0.0 * 100.0 + 0.5).Floor == 0 && (5.0 * 100.0 + 0.5).Floor == 500;
  }

  // ----- exactly when raising the latest reading raises the drop

  lemma EarlierSpikesStay(head: seq<real>, x: real, y: real, index: nat)
    requires head != [] && index < |head| - 1
    ensures IsSpike(head + [x], index) <==> IsSpike(head + [y], index)
  {
  }

  /** A peak after the raise that is neither the raised reading nor its neighbour was a genuine reading before. */
  lemma EarlierPeak(head: seq<real>, x: real, y: real, index: nat)
    requires head != [] && index < |head| && !IsSpike(head + [y], index)
    requires index == |head| - 1 ==> !IsSpike(head + [x], index)
    ensures head[index] <= Peak(head + [x])
  {
    if index < |head| - 1 {
      EarlierSpikesStay(head, x, y, index);
    }
    assert (head + [x])[index] == head[index];
  }

  lemma DropFromIsMonotone(p: real, q: real, x: real, y: real)
    requires q <= p && x <= y
    ensures DropFrom(q, y) <= DropFrom(p, x)
  {
    RoundingIsMonotone(if q > y then q - y else 0.0, if p > x then p - x else 0.0);
  }

  /** Unless it stops its neighbour from being a spike, raising the latest reading never raises the drop. */
  lemma RaisingLowersTheDrop(head: seq<real>, x: real, y: real)
    requires head != [] && x <= y
    requires !(IsSpike(head + [x], |head| - 1) && !IsSpike(head + [y], |head| - 1))
    ensures Drop(head + [y]) <= Drop(head + [x])
  {
    var before, after := head + [x], head + [y];
    var p := Peak(after);
    var i :| 0 <= i < |after| && !IsSpike(after, i) && after[i] == p;
    if i < |head| {
      EarlierPeak(head, x, y, i);
      DropFromIsMonotone(Peak(before), p, x, y);
    } else {
      TopIsNoDrop(before, y);
    }
  }

  lemma TopIsNoDrop(points: seq<real>, top: real)
    ensures DropFrom(top, top) == 0.0 && Drop(points) >= 0.0
  {
    assert Round2(0.0) == 0.0 by {
      assert (0.0 * 100.0 + 0.5).Floor == 0;
    }
    if points != [] {
      var current := points[|points| - 1];
      RoundingIsMonotone(0.0, if Peak(points) > current then Peak(points) - current else 0.0);
    }
  }

  /** Once un-spiked, the neighbour is the peak or the peak was a genuine reading already. */
  lemma UnspikedPeak(head: seq<real>, x: real, y: real)
    requires head != [] && x <= y && IsSpike(head + [x], |head| - 1) && !IsSpike(head + [y], |head| - 1)
    ensures var h := head[|head| - 1];
            && x < h && h <= Peak(head + [y])
            && (Peak(head + [y]) > h ==> Peak(head + [y]) <= Peak(head + [x]) || Peak(head + [y]) == y)
  {
    var before, after, n := head + [x], head + [y], |head| - 1;
    assert before[n] == head[n] && after[n] == head[n] && before[n + 1] == x;
    var p := Peak(after);
    var i :| 0 <= i < |after| && !IsSpike(after, i) && after[i] == p;
    if i < n {
      EarlierPeak(head, x, y, i);
    }
  }

  /**
   * Raising the latest reading raises the drop exactly when it stops its neighbour from
   * being a spike and the neighbour lies further above the raised reading than the
   * drop was before.
   */
  lemma RaisingRaisesTheDropExactly(head: seq<real>, x: real, y: real)
    requires head != [] && x <= y
    ensures var h := head[|head| - 1];
            Drop(head + [y]) > Drop(head + [x]) <==>
            IsSpike(head + [x], |head| - 1) && !IsSpike(head + [y], |head| - 1) && DropFrom(h, y) > Drop(head + [x])
  {
    var before, after, h := head + [x], head + [y], head[|head| - 1];
    if IsSpike(before, |head| - 1) && !IsSpike(after, |head| - 1) {
      UnspikedPeak(head, x, y);
      DropFromIsMonotone(Peak(after), h, y, y);
      TopIsNoDrop(before, y);
      if Peak(after) != h && Peak(after) != y {
        DropFromIsMonotone(Peak(before), Peak(after), x, y);
      }
    } else {
      RaisingLowersTheDrop(head, x, y);
    }
  }

  // ----- the readings of a window, scanned backwards

  datatype Reading = Reading(time: int, power: Option<real>)

  /** What the backward scan keeps: it stops at the first reading before `start`. */
  function Scanned(points: seq<Reading>, start: int): seq<real> {
    if points == [] then []
    else
      var last := points[|points| - 1];
      if last.time < start then []
      else
        var earlier := Scanned(points[..|points| - 1], start);
        if last.power.Some? then earlier + [last.power.value] else earlier
  }

  /** All readings not before `start` that have a value, in order. */
  function Within(points: seq<Reading>, start: int): seq<real> {
    if points == [] then []
    else
      var last := points[|points| - 1];
      var earlier := Within(points[..|points| - 1], start);
      if last.time >= start && last.power.Some? then earlier + [last.power.value] else earlier
  }

  ghost predicate SortedByTime(points: seq<Reading>) {
    forall i, j :: 0 <= i < j < |points| ==> points[i].time <= points[j].time
  }

  /** On time-sorted points stopping early misses nothing. */
  lemma {:induction false} ScanReadsTheWindow(points: seq<Reading>, start: int)
    requires SortedByTime(points)
    ensures Scanned(points, start) == Within(points, start)
  {
    if points == [] {
    } else {
      var last := |points| - 1;
      ScanReadsTheWindow(points[..last], start);
      if points[last].time < start {
        NothingWithin(points, start);
      }
    }
  }

  lemma {:induction false} NothingWithin(points: seq<Reading>, start: int)
    requires forall p :: p in points ==> p.time < start
    ensures Within(points, start) == []
  {
    if points == [] {
    } else {
      NothingWithin(points[..|points| - 1], start);
    }
  }

  /** The drop at one point of the series; fewer than three readings say nothing. */
  ghost function DropAt(points: seq<Reading>, index: nat, windowMs: int): real
    requires index < |points|
  {
    var values := Scanned(points[..index + 1], points[index].time - windowMs);
    if |values| >= 3 then Drop(values) else 0.0
  }

  /** The scan itself: from the end backwards, putting each reading in front. */
  method Scan(points: seq<Reading>, start: int) returns (values: seq<real>)
    ensures values == Scanned(points, start)
  {
    values := [];
    var position := |points| - 1;
    assert points[..|points|] == points;
    assert Scanned(points, start) + [] == Scanned(points, start);
    while position >= 0
      invariant -1 <= position < |points|
      invariant Scanned(points, start) == Scanned(points[..position + 1], start) + values
      decreases position
    {
      var point := points[position];
      ScanOneMore(points, position, start);
      if point.time < start {
        break;
      }
      if point.power.Some? {
        Regroup(Scanned(points[..position], start), point.power.value, values);
        values := [point.power.value] + values;
      }
      position := position - 1;
    }
  }

  lemma ScanOneMore(points: seq<Reading>, position: nat, start: int)
    requires position < |points|
    ensures var point, earlier := points[position], Scanned(points[..position], start);
            Scanned(points[..position + 1], start) ==
            if point.time < start then [] else if point.power.Some? then earlier + [point.power.value] else earlier
  {
    assert points[..position + 1][..position] == points[..position];
  }

  lemma Regroup(a: seq<real>, x: real, b: seq<real>)
    ensures a + [x] + b == a + ([x] + b)
  {
  }

  method ObservedDrop(points: seq<Reading>, index: nat, windowMs: int) returns (drop: real)
    requires index < |points|
    ensures drop == DropAt(points, index, windowMs)
    ensures SortedByTime(points) ==>
              var values := Within(points[..index + 1], points[index].time - windowMs);
              drop == if |values| >= 3 then Drop(values) else 0.0
  {
    var start := points[index].time - windowMs;
    var values := Scan(points[..index + 1], start);
    if |values| >= 3 {
      drop := DropOf(values);
      ghost var peak :| IsPeak(values, peak) && drop == DropFrom(peak, values[|values| - 1]);
      PeakIsUnique(values, peak, Peak(values));
    } else {
      drop := 0.0;
    }
    if SortedByTime(points) {
      ScanReadsTheWindow(points[..index + 1], start);
    }
  }
}
