/** The series of received power an interface is judged by: its lanes, or the module as a whole. */
module OpticalSeries {
  import opened Options
  import opened Sorting
  import opened Text
  import opened OpticalTrend

  datatype Lane = Lane(lane: int, power: Option<real>)

  /** What an interface reports now. */
  datatype Port = Port(lanes: seq<Lane>, power: Option<real>)

  /** A persisted optical sample. */
  datatype Sample = Sample(interfaceId: string, time: int, power: Option<real>, lanes: seq<Lane>)

  datatype Side = Side(
    lowAlarm: Option<real>, highAlarm: Option<real>, lowWarning: Option<real>, highWarning: Option<real>)

  datatype LaneSide = LaneSide(lane: int, rx: Option<Side>)

  datatype Thresholds = Thresholds(scalar: Option<Side>, lanes: seq<LaneSide>)

  /** The limits a rule falls back on. */
  datatype Manual = Manual(lowAlarm: Option<real>, highAlarm: Option<real>)

  datatype Series = Series(metricKey: string, side: Side, points: seq<Reading>)

  // ----- limits: lane, then module, then rule

  predicate SaysAnything(side: Option<Side>) {
    && side.Some?
    && (side.value.lowAlarm.Some? || side.value.highAlarm.Some? || side.value.lowWarning.Some?
        || side.value.highWarning.Some?)
  }

  function SideOfLane(lanes: seq<LaneSide>, lane: int): Option<Side> {
    if lanes == [] then None
    else if lanes[0].lane == lane then lanes[0].rx
    else SideOfLane(lanes[1..], lane)
  }

  function SideFor(record: Option<Thresholds>, lane: Option<int>, manual: Manual): Side {
    var own := if record.Some? && lane.Some? then SideOfLane(record.value.lanes, lane.value) else None;
    var scalar := if record.Some? then record.value.scalar else None;
    if SaysAnything(own) then own.value
    else if SaysAnything(scalar) then scalar.value
    else Side(manual.lowAlarm, manual.highAlarm, None, None)
  }

  // ----- points

  const SAMPLE_TOLERANCE_MS := 5_000

  predicate NoLater(a: Sample, b: Sample) {
    a.time <= b.time
  }

  /** The current value joins unless the last sample is as good as current. */
  function WithCurrent(points: seq<Reading>, current: real, now: int): seq<Reading> {
    if points == [] || now - points[|points| - 1].time > SAMPLE_TOLERANCE_MS then points + [Reading(now, Some(current))]
    else points
  }

  function PowerOfLane(lanes: seq<Lane>, lane: int): Option<real> {
    if lanes == [] then None
    else if lanes[0].lane == lane then lanes[0].power
    else PowerOfLane(lanes[1..], lane)
  }

  function LanePoints(ordered: seq<Sample>, lane: int): seq<Reading> {
    seq(|ordered|, i requires 0 <= i < |ordered| => Reading(ordered[i].time, PowerOfLane(ordered[i].lanes, lane)))
  }

  function ModulePoints(ordered: seq<Sample>): seq<Reading> {
    seq(|ordered|, i requires 0 <= i < |ordered| => Reading(ordered[i].time, ordered[i].power))
  }

  function WithReading(lanes: seq<Lane>): (r: seq<Lane>)
    ensures forall lane :: lane in r ==> lane.power.Some?
  {
    if lanes == [] then []
    else if lanes[0].power.Some? then [lanes[0]] + WithReading(lanes[1..])
    else WithReading(lanes[1..])
  }

  function LaneKey(lane: int): string {
    "RX_LANE_" + Decimal(lane)
  }

  function LaneSeries(lane: Lane, ordered: seq<Sample>, record: Option<Thresholds>, manual: Manual, now: int): Series
    requires lane.power.Some?
  {
    Series(LaneKey(lane.lane), SideFor(record, Some(lane.lane), manual),
           WithCurrent(LanePoints(ordered, lane.lane), lane.power.value, now))
  }

  /** Two or more lanes with a reading stand for the module; an aggregate over several lanes never does. */
  function SeriesOver(port: Port, ordered: seq<Sample>, record: Option<Thresholds>, manual: Manual, now: int,
                      aggregated: bool): seq<Series> {
    var lanes := WithReading(port.lanes);
    if |lanes| >= 2 then
      seq(|lanes|, i requires 0 <= i < |lanes| => LaneSeries(lanes[i], ordered, record, manual, now))
    else if port.power.None? || (aggregated && |port.lanes| >= 2) then []
    else
      [Series("RX", SideFor(record, None, manual), WithCurrent(ModulePoints(ordered), port.power.value, now))]
  }

  function SeriesFor(port: Port, samples: seq<Sample>, record: Option<Thresholds>, manual: Manual, now: int,
                     aggregated: bool): seq<Series> {
    SeriesOver(port, Sort(samples, NoLater), record, manual, now, aggregated)
  }

  // ----- sorted points, distinct keys, and readings that no rule changes

  ghost predicate InTimeOrder(ordered: seq<Sample>) {
    forall i, j :: 0 <= i < j < |ordered| ==> ordered[i].time <= ordered[j].time
  }

  lemma SortingIsInTimeOrder(samples: seq<Sample>)
    ensures InTimeOrder(Sort(samples, NoLater))
  {
    SortSorts(samples, NoLater);
    var ordered := Sort(samples, NoLater);
    forall i, j | 0 <= i < j < |ordered| ensures ordered[i].time <= ordered[j].time {
      assert NoLater(ordered[i], ordered[j]);
    }
  }

  lemma CurrentKeepsSorted(points: seq<Reading>, current: real, now: int)
    requires SortedByTime(points)
    ensures SortedByTime(WithCurrent(points, current, now))
  {
  }

  lemma LaneIsSorted(lane: Lane, ordered: seq<Sample>, record: Option<Thresholds>, manual: Manual, now: int)
    requires InTimeOrder(ordered) && lane.power.Some?
    ensures SortedByTime(LaneSeries(lane, ordered, record, manual, now).points)
  {
    assert SortedByTime(LanePoints(ordered, lane.lane));
    CurrentKeepsSorted(LanePoints(ordered, lane.lane), lane.power.value, now);
  }

  lemma ModuleIsSorted(power: real, ordered: seq<Sample>, now: int)
    requires InTimeOrder(ordered)
    ensures SortedByTime(WithCurrent(ModulePoints(ordered), power, now))
  {
    assert SortedByTime(ModulePoints(ordered));
    CurrentKeepsSorted(ModulePoints(ordered), power, now);
  }

  lemma PointsOverAreSorted(port: Port, ordered: seq<Sample>, record: Option<Thresholds>, manual: Manual, now: int,
                            aggregated: bool, x: Series)
    requires InTimeOrder(ordered) && x in SeriesOver(port, ordered, record, manual, now, aggregated)
    ensures SortedByTime(x.points)
  {
    var lanes := WithReading(port.lanes);
    if |lanes| >= 2 {
      var i :| 0 <= i < |lanes| && x == LaneSeries(lanes[i], ordered, record, manual, now);
      LaneIsSorted(lanes[i], ordered, record, manual, now);
    } else {
      ModuleIsSorted(port.power.value, ordered, now);
    }
  }

  /** Whatever order the samples come in and whatever the clock says, the points of a series are in time order. */
  lemma PointsAreSorted(port: Port, samples: seq<Sample>, record: Option<Thresholds>, manual: Manual, now: int,
                        aggregated: bool, x: Series)
    requires x in SeriesFor(port, samples, record, manual, now, aggregated)
    ensures SortedByTime(x.points)
  {
    SortingIsInTimeOrder(samples);
    PointsOverAreSorted(port, Sort(samples, NoLater), record, manual, now, aggregated, x);
  }

  /** The drop at a point is that of the readings in the window ending there, if they are three at least. */
  ghost predicate IsDropOverWindow(series: Series, index: nat, windowMs: int)
    requires index < |series.points|
  {
    var values := Within(series.points[..index + 1], series.points[index].time - windowMs);
    DropAt(series.points, index, windowMs) == if |values| >= 3 then Drop(values) else 0.0
  }

  /** So the drop at a point is over exactly the readings of the window that ends there. */
  lemma DropIsOverTheWindow(series: Series, index: nat, windowMs: int)
    requires SortedByTime(series.points) && index < |series.points|
    ensures IsDropOverWindow(series, index, windowMs)
  {
    ScanReadsTheWindow(series.points[..index + 1], series.points[index].time - windowMs);
  }

  ghost predicate DistinctLanes(port: Port) {
    var lanes := WithReading(port.lanes);
    forall i, j :: 0 <= i < j < |lanes| ==> lanes[i].lane != lanes[j].lane
  }

  ghost predicate DistinctKeys(all: seq<Series>) {
    forall i, j :: 0 <= i < j < |all| ==> all[i].metricKey != all[j].metricKey
  }

  lemma LaneKeyIsExact(a: int, b: int)
    ensures LaneKey(a) == LaneKey(b) <==> a == b
  {
    DecimalIsExact(a, b);
    assert LaneKey(a)[8..] == Decimal(a) && LaneKey(b)[8..] == Decimal(b);
  }

  /** No two series of an interface share a key exactly when no two lanes with a reading share a number. */
  lemma SeriesKeysAreDistinct(port: Port, samples: seq<Sample>, record: Option<Thresholds>, manual: Manual, now: int,
                              aggregated: bool)
    ensures DistinctKeys(SeriesFor(port, samples, record, manual, now, aggregated)) <==> DistinctLanes(port)
  {
    KeysOverAreDistinct(port, Sort(samples, NoLater), record, manual, now, aggregated);
  }

  lemma KeysOverAreDistinct(port: Port, ordered: seq<Sample>, record: Option<Thresholds>, manual: Manual, now: int,
                            aggregated: bool)
    ensures DistinctKeys(SeriesOver(port, ordered, record, manual, now, aggregated)) <==> DistinctLanes(port)
  {
    var all, lanes := SeriesOver(port, ordered, record, manual, now, aggregated), WithReading(port.lanes);
    if |lanes| >= 2 {
      forall i, j | 0 <= i < j < |lanes|
        ensures all[i].metricKey != all[j].metricKey <==> lanes[i].lane != lanes[j].lane {
        LaneKeyIsExact(lanes[i].lane, lanes[j].lane);
      }
    }
  }

  /** Rules differ in their fallback limits only: series with one key have the same points under every rule. */
  lemma RulesShareThePoints(port: Port, samples: seq<Sample>, record: Option<Thresholds>, a: Manual, b: Manual,
                            now: int, aggregated: bool,
                            x: Series, y: Series)
    requires DistinctLanes(port) && x.metricKey == y.metricKey
    requires x in SeriesFor(port, samples, record, a, now, aggregated)
    requires y in SeriesFor(port, samples, record, b, now, aggregated)
    ensures x.points == y.points
    ensures a == b ==> x == y
  {
    RulesShareThePointsOver(port, Sort(samples, NoLater), record, a, b, now, aggregated, x, y);
  }

  lemma RulesShareThePointsOver(port: Port, ordered: seq<Sample>, record: Option<Thresholds>, a: Manual, b: Manual,
                                now: int, aggregated: bool,
                                x: Series, y: Series)
    requires DistinctLanes(port) && x.metricKey == y.metricKey
    requires x in SeriesOver(port, ordered, record, a, now, aggregated)
    requires y in SeriesOver(port, ordered, record, b, now, aggregated)
    ensures x.points == y.points
    ensures a == b ==> x == y
  {
    if |WithReading(port.lanes)| >= 2 {
      var i := LaneOf(port, ordered, record, a, now, aggregated, x);
      var j := LaneOf(port, ordered, record, b, now, aggregated, y);
      SameLane(port, i, j, ordered, record, a, b, now);
    } else {
      OnlyTheModule(port, ordered, record, a, now, aggregated, x);
      OnlyTheModule(port, ordered, record, b, now, aggregated, y);
    }
  }

  lemma SameLane(port: Port, i: nat, j: nat, ordered: seq<Sample>, record: Option<Thresholds>, a: Manual, b: Manual,
                 now: int)
    requires DistinctLanes(port) && i < |WithReading(port.lanes)| && j < |WithReading(port.lanes)|
    ensures var x := LaneSeries(WithReading(port.lanes)[i], ordered, record, a, now);
            var y := LaneSeries(WithReading(port.lanes)[j], ordered, record, b, now);
            x.metricKey == y.metricKey ==> i == j && x.points == y.points
  {
    LaneKeyIsExact(WithReading(port.lanes)[i].lane, WithReading(port.lanes)[j].lane);
  }

  lemma OnlyTheModule(port: Port, ordered: seq<Sample>, record: Option<Thresholds>, manual: Manual, now: int,
                      aggregated: bool, x: Series)
    requires |WithReading(port.lanes)| < 2 && x in SeriesOver(port, ordered, record, manual, now, aggregated)
    ensures port.power.Some?
    ensures x == Series("RX", SideFor(record, None, manual), WithCurrent(ModulePoints(ordered), port.power.value, now))
  {
  }

  lemma LaneOf(port: Port, ordered: seq<Sample>, record: Option<Thresholds>, manual: Manual, now: int, aggregated: bool,
               x: Series)
    returns (i: nat)
    requires |WithReading(port.lanes)| >= 2 && x in SeriesOver(port, ordered, record, manual, now, aggregated)
    ensures i < |WithReading(port.lanes)| && x == LaneSeries(WithReading(port.lanes)[i], ordered, record, manual, now)
  {
    i :| 0 <= i < |WithReading(port.lanes)|
    && x == LaneSeries(WithReading(port.lanes)[i], ordered, record, manual, now);
  }

  // ----- which series there are, said of lanes, samples and limits alone

  /** The first lane of this number. */
  ghost predicate IsFirst(lanes: seq<Lane>, number: int, k: nat) {
    k < |lanes| && lanes[k].lane == number && forall j :: 0 <= j < k ==> lanes[j].lane != number
  }

  ghost predicate IsFirstSide(lanes: seq<LaneSide>, number: int, k: nat) {
    k < |lanes| && lanes[k].lane == number && forall j :: 0 <= j < k ==> lanes[j].lane != number
  }

  /** What a sample says of a lane: its first entry of that number, and nothing without one. */
  ghost predicate IsPowerOf(sample: Sample, number: int, power: Option<real>) {
    && (forall k: nat :: IsFirst(sample.lanes, number, k) ==> power == sample.lanes[k].power)
    && ((forall k :: 0 <= k < |sample.lanes| ==> sample.lanes[k].lane != number) ==> power == None)
  }

  ghost predicate IsEmpty(side: Side) {
    side.lowAlarm == None && side.highAlarm == None && side.lowWarning == None && side.highWarning == None
  }

  /** The limits of the lane if it has any, else those of the module, else the pair of alarm limits of the rule. */
  ghost predicate IsLimits(record: Option<Thresholds>, own: Option<Side>, manual: Manual, side: Side) {
    if own.Some? && !IsEmpty(own.value) then side == own.value
    else if record.Some? && record.value.scalar.Some? && !IsEmpty(record.value.scalar.value) then
      side == record.value.scalar.value
    else
      && side.lowAlarm == manual.lowAlarm && side.highAlarm == manual.highAlarm
      && side.lowWarning == None && side.highWarning == None
  }

  ghost predicate IsLaneLimits(record: Option<Thresholds>, number: int, manual: Manual, side: Side) {
    && (record.Some? ==>
          forall k: nat :: IsFirstSide(record.value.lanes, number, k) ==>
            IsLimits(record, record.value.lanes[k].rx, manual, side))
    && ((record.Some? ==> forall k :: 0 <= k < |record.value.lanes| ==> record.value.lanes[k].lane != number) ==>
          IsLimits(record, None, manual, side))
  }

  /** One point per sample, and the current value unless the last sample is at most five seconds old. */
  ghost predicate HasPoints(points: seq<Reading>, ordered: seq<Sample>, current: real, now: int) {
    var isStale := ordered == [] || ordered[|ordered| - 1].time + 5000 < now;
    && |points| == |ordered| + (if isStale then 1 else 0)
    && (isStale ==> points[|ordered|] == Reading(now, Some(current)))
    && (forall k :: 0 <= k < |ordered| ==> points[k].time == ordered[k].time)
  }

  ghost predicate IsLaneSeries(x: Series, lane: Lane, ordered: seq<Sample>, record: Option<Thresholds>, manual: Manual,
                               now: int) {
    && lane.power.Some? && x.metricKey == "RX_LANE_" + Decimal(lane.lane)
    && IsLaneLimits(record, lane.lane, manual, x.side)
    && HasPoints(x.points, ordered, lane.power.value, now)
    && (forall k :: 0 <= k < |ordered| ==> IsPowerOf(ordered[k], lane.lane, x.points[k].power))
  }

  ghost predicate IsModuleSeries(x: Series, power: real, ordered: seq<Sample>, record: Option<Thresholds>,
                                 manual: Manual, now: int) {
    && x.metricKey == "RX" && IsLimits(record, None, manual, x.side) && HasPoints(x.points, ordered, power, now)
    && (forall k :: 0 <= k < |ordered| ==> x.points[k].power == ordered[k].power)
  }

  ghost predicate TwoLanesRead(port: Port) {
    exists a, b :: 0 <= a < b < |port.lanes| && port.lanes[a].power.Some? && port.lanes[b].power.Some?
  }

  /**
   * Where two lanes have a reading the series are those of the lanes with a reading, else that of
   * the module, if it has a reading and that is not the aggregate of two or more lanes.
   */
  ghost predicate AreSeries(all: seq<Series>, port: Port, read: seq<Lane>, ordered: seq<Sample>,
                            record: Option<Thresholds>, manual: Manual, now: int, aggregated: bool) {
    if TwoLanesRead(port) then
      && |all| == |read| && multiset(read) <= multiset(port.lanes)
      && (forall lane :: lane in read <==> lane in port.lanes && lane.power.Some?)
      && (forall i :: 0 <= i < |read| ==> IsLaneSeries(all[i], read[i], ordered, record, manual, now))
    else if port.power.None? || (aggregated && |port.lanes| >= 2) then all == []
    else |all| == 1 && IsModuleSeries(all[0], port.power.value, ordered, record, manual, now)
  }

  lemma {:induction false} FirstPower(lanes: seq<Lane>, number: int)
    ensures forall k: nat :: IsFirst(lanes, number, k) ==> PowerOfLane(lanes, number) == lanes[k].power
    ensures (forall k :: 0 <= k < |lanes| ==> lanes[k].lane != number) ==> PowerOfLane(lanes, number) == None
  {
    if lanes != [] && lanes[0].lane != number {
      FirstPower(lanes[1..], number);
      forall k: nat | IsFirst(lanes, number, k) ensures PowerOfLane(lanes, number) == lanes[k].power {
        assert IsFirst(lanes[1..], number, k - 1);
      }
    }
  }

  lemma {:induction false} FirstSide(lanes: seq<LaneSide>, number: int)
    ensures forall k: nat :: IsFirstSide(lanes, number, k) ==> SideOfLane(lanes, number) == lanes[k].rx
    ensures (forall k :: 0 <= k < |lanes| ==> lanes[k].lane != number) ==> SideOfLane(lanes, number) == None
  {
    if lanes != [] && lanes[0].lane != number {
      FirstSide(lanes[1..], number);
      forall k: nat | IsFirstSide(lanes, number, k) ensures SideOfLane(lanes, number) == lanes[k].rx {
        assert IsFirstSide(lanes[1..], number, k - 1);
      }
    }
  }

  lemma {:induction false} LanesWithReading(lanes: seq<Lane>)
    ensures forall lane :: lane in WithReading(lanes) <==> lane in lanes && lane.power.Some?
    ensures |WithReading(lanes)| >= 1 <==> exists a :: 0 <= a < |lanes| && lanes[a].power.Some?
    ensures |WithReading(lanes)| >= 2 <==>
            exists a, b :: 0 <= a < b < |lanes| && lanes[a].power.Some? && lanes[b].power.Some?
  {
    if lanes != [] {
      LanesWithReading(lanes[1..]);
      assert lanes == [lanes[0]] + lanes[1..];
      forall k | 1 <= k < |lanes| ensures lanes[k] == lanes[1..][k - 1] {
      }
    }
  }

  lemma {:induction false} LanesAreKept(lanes: seq<Lane>)
    ensures multiset(WithReading(lanes)) <= multiset(lanes)
  {
    if lanes != [] {
      LanesAreKept(lanes[1..]);
      assert lanes == [lanes[0]] + lanes[1..];
    }
  }

  lemma LaneIsExact(lane: Lane, ordered: seq<Sample>, record: Option<Thresholds>, manual: Manual, now: int)
    requires lane.power.Some?
    ensures IsLaneSeries(LaneSeries(lane, ordered, record, manual, now), lane, ordered, record, manual, now)
  {
    if record.Some? {
      FirstSide(record.value.lanes, lane.lane);
    }
    forall k | 0 <= k < |ordered| ensures IsPowerOf(ordered[k], lane.lane, PowerOfLane(ordered[k].lanes, lane.lane)) {
      FirstPower(ordered[k].lanes, lane.lane);
    }
  }

  lemma EachLaneIsExact(lanes: seq<Lane>, all: seq<Series>, ordered: seq<Sample>, record: Option<Thresholds>,
                        manual: Manual, now: int)
    requires |all| == |lanes| && forall i :: 0 <= i < |lanes| ==> lanes[i].power.Some?
    requires forall i :: 0 <= i < |lanes| ==> all[i] == LaneSeries(lanes[i], ordered, record, manual, now)
    ensures forall i :: 0 <= i < |lanes| ==> IsLaneSeries(all[i], lanes[i], ordered, record, manual, now)
  {
    forall i | 0 <= i < |lanes| ensures IsLaneSeries(all[i], lanes[i], ordered, record, manual, now) {
      LaneIsExact(lanes[i], ordered, record, manual, now);
    }
  }

  lemma LanesAreRead(port: Port)
    ensures TwoLanesRead(port) <==> |WithReading(port.lanes)| >= 2
    ensures forall lane :: lane in WithReading(port.lanes) <==> lane in port.lanes && lane.power.Some?
    ensures multiset(WithReading(port.lanes)) <= multiset(port.lanes)
  {
    LanesWithReading(port.lanes);
    LanesAreKept(port.lanes);
  }

  lemma SeriesOverAreExact(port: Port, ordered: seq<Sample>, record: Option<Thresholds>, manual: Manual, now: int,
                           aggregated: bool)
    ensures AreSeries(SeriesOver(port, ordered, record, manual, now, aggregated), port, WithReading(port.lanes),
                      ordered,
                      record, manual, now, aggregated)
  {
    LanesAreRead(port);
    if TwoLanesRead(port) {
      EachLaneIsExact(WithReading(port.lanes), SeriesOver(port, ordered, record, manual, now, aggregated), ordered,
                      record,
                      manual, now);
    }
  }

  /** The series of an interface, whatever it reports and whatever order its samples come in. */
  lemma SeriesAreExact(port: Port, samples: seq<Sample>, record: Option<Thresholds>, manual: Manual, now: int,
                       aggregated: bool)
    returns (read: seq<Lane>, ordered: seq<Sample>)
    ensures multiset(ordered) == multiset(samples) && InTimeOrder(ordered)
    ensures AreSeries(SeriesFor(port, samples, record, manual, now, aggregated), port, read, ordered, record, manual,
                      now,
                      aggregated)
  {
    read, ordered := WithReading(port.lanes), Sort(samples, NoLater);
    SortPermutes(samples, NoLater);
    SortingIsInTimeOrder(samples);
    SeriesOverAreExact(port, ordered, record, manual, now, aggregated);
  }
}
