/** Roll-up of metric history into buckets, in exact arithmetic. */
module History {
  import opened Options
  import opened Sorting
  import opened Grouping

  datatype Period = Last15Minutes | LastHour | Last6Hours | LastDay | LastWeek

  /** A sample; `timestamp` is None when its text is not a date. */
  datatype Point = Point(
    timestamp: Option<int>,
    rxBps: real, txBps: real,
    rxBpsMax: Option<real>, txBpsMax: Option<real>,
    sampleCount: Option<int>,
    rxErrors: int, txErrors: int, rxDiscards: int, txDiscards: int)

  datatype Bucket = Bucket(
    count: int,
    rxBps: real, txBps: real,
    rxBpsMax: real, txBpsMax: real,
    rxErrors: int, txErrors: int, rxDiscards: int, txDiscards: int)

  const MINUTE: int := 60_000

  function BucketMilliseconds(period: Period): Option<int> {
    match period
    case Last15Minutes => None
    case LastHour => Some(MINUTE)
    case Last6Hours => Some(5 * MINUTE)
    case LastDay => Some(15 * MINUTE)
    case LastWeek => Some(60 * MINUTE)
  }

  /** The start of the bucket a time falls in. */
  function Start(period: Period, time: int): int {
    match period
    case Last15Minutes => time
    case LastHour => time / 60_000 * 60_000
    case Last6Hours => time / 300_000 * 300_000
    case LastDay => time / 900_000 * 900_000
    case LastWeek => time / 3_600_000 * 3_600_000
  }

  lemma StartUsesTheBucketSize(period: Period, time: int)
    ensures match BucketMilliseconds(period)
            case None => Start(period, time) == time
            case Some(size) => Start(period, time) == time / size * size
  {
  }

  function Max(a: real, b: real): real {
    if a >= b then a else b
  }

  function CountOf(p: Point): int {
    if p.sampleCount.Some? then p.sampleCount.value else 1
  }

  function Peak(max: Option<real>, average: real): real {
    if max.Some? then max.value else average
  }

  const EMPTY := Bucket(0, 0.0, 0.0, 0.0, 0.0, 0, 0, 0, 0)

  /** What one point brings into its bucket. */
  function Weight(p: Point): Bucket {
    var n := CountOf(p);
    Bucket(n, p.rxBps * n as real, p.txBps * n as real,
           Peak(p.rxBpsMax, p.rxBps), Peak(p.txBpsMax, p.txBps),
           p.rxErrors, p.txErrors, p.rxDiscards, p.txDiscards)
  }

  function Merge(a: Bucket, b: Bucket): Bucket {
    Bucket(a.count + b.count, a.rxBps + b.rxBps, a.txBps + b.txBps,
           Max(a.rxBpsMax, b.rxBpsMax), Max(a.txBpsMax, b.txBpsMax),
           a.rxErrors + b.rxErrors, a.txErrors + b.txErrors,
           a.rxDiscards + b.rxDiscards, a.txDiscards + b.txDiscards)
  }

  function Add(b: Bucket, p: Point): Bucket {
    Merge(b, Weight(p))
  }

  function Finish(time: int, b: Bucket): Point
    requires b.count != 0
  {
    Point(Some(time), b.rxBps / b.count as real, b.txBps / b.count as real,
          Some(b.rxBpsMax), Some(b.txBpsMax), Some(b.count),
          b.rxErrors, b.txErrors, b.rxDiscards, b.txDiscards)
  }

  // ----- totals over the points that satisfy a condition

  function Total(points: seq<Point>, p: Point -> bool): Bucket {
    if points == [] then EMPTY
    else
      var earlier, last := Total(points[..|points| - 1], p), points[|points| - 1];
      if p(last) then Add(earlier, last) else earlier
  }

  function InBucket(period: Period, time: int): Point -> bool {
    (p: Point) => p.timestamp.Some? && Start(period, p.timestamp.value) == time
  }

  ghost predicate Dated(points: seq<Point>) {
    forall p :: p in points ==> p.timestamp.Some?
  }

  ghost predicate HasBucket(points: seq<Point>, period: Period, time: int) {
    exists p :: p in points && InBucket(period, time)(p)
  }

  /** No occupied bucket weighs nothing: its averages are defined. */
  ghost predicate Sampled(points: seq<Point>, period: Period) {
    forall t :: HasBucket(points, period, t) ==> Total(points, InBucket(period, t)).count != 0
  }

  ghost predicate Increasing(points: seq<Point>) {
    && Dated(points)
    && forall i, j :: 0 <= i < j < |points| ==> points[i].timestamp.value < points[j].timestamp.value
  }

  ghost predicate Distinct(points: seq<Point>) {
    && Dated(points)
    && forall i, j :: 0 <= i < j < |points| ==> points[i].timestamp.value != points[j].timestamp.value
  }

  /** One point for every occupied bucket and no other, carrying that bucket's totals. */
  ghost predicate IsRollup(points: seq<Point>, period: Period, out: seq<Point>) {
    && Distinct(out)
    && (forall n :: 0 <= n < |out| ==>
          var t := out[n].timestamp.value;
          var total := Total(points, InBucket(period, t));
          HasBucket(points, period, t) && total.count != 0 && out[n] == Finish(t, total))
    && (forall t :: HasBucket(points, period, t) ==> exists n :: 0 <= n < |out| && out[n].timestamp == Some(t))
  }

  /** What sorting by time may return: undated points compare as NaN and promise no order. */
  ghost predicate SortedByTime(points: seq<Point>, ordered: seq<Point>) {
    && multiset(ordered) == multiset(points)
    && (Dated(points) ==>
          forall i, j :: 0 <= i < j < |ordered| && ordered[i].timestamp.Some? && ordered[j].timestamp.Some? ==>
            ordered[i].timestamp.value <= ordered[j].timestamp.value)
  }

  /** A point of the result; where a bucket has no weight its averages are no numbers. */
  datatype Row = Row(
    time: int,
    rxBps: Option<real>, txBps: Option<real>,
    rxBpsMax: real, txBpsMax: real,
    sampleCount: int,
    rxErrors: int, txErrors: int, rxDiscards: int, txDiscards: int)

  function Average(sum: real, count: int): Option<real> {
    if count == 0 then None else Some(sum / count as real)
  }

  function RowOf(time: int, b: Bucket): Row {
    Row(time, Average(b.rxBps, b.count), Average(b.txBps, b.count), b.rxBpsMax, b.txBpsMax, b.count,
        b.rxErrors, b.txErrors, b.rxDiscards, b.txDiscards)
  }

  ghost predicate IsRow(row: Row, points: seq<Point>, period: Period, t: int) {
    HasBucket(points, period, t) && row == RowOf(t, Total(points, InBucket(period, t)))
  }

  /** One row for every occupied bucket and no other, carrying that bucket's totals, weighty or not. */
  ghost predicate IsSummary(points: seq<Point>, period: Period, out: seq<Row>) {
    && (forall i, j :: 0 <= i < j < |out| ==> out[i].time != out[j].time)
    && (forall n :: 0 <= n < |out| ==> IsRow(out[n], points, period, out[n].time))
    && (forall t :: HasBucket(points, period, t) ==> exists n :: 0 <= n < |out| && out[n].time == t)
  }

  ghost predicate InTime(out: seq<Row>) {
    forall i, j :: 0 <= i < j < |out| ==> out[i].time < out[j].time
  }

  predicate Averaged(row: Row) {
    row.rxBps.Some? && row.txBps.Some?
  }

  ghost predicate AllAveraged(out: seq<Row>) {
    forall n :: 0 <= n < |out| ==> Averaged(out[n])
  }

  function PointOf(row: Row): Point
    requires Averaged(row)
  {
    Point(Some(row.time), row.rxBps.value, row.txBps.value, Some(row.rxBpsMax), Some(row.txBpsMax),
          Some(row.sampleCount),
          row.rxErrors, row.txErrors, row.rxDiscards, row.txDiscards)
  }

  function Points(out: seq<Row>): seq<Point>
    requires AllAveraged(out)
  {
    seq(|out|, n requires 0 <= n < |out| => PointOf(out[n]))
  }

  // ----- what a row says, in plain sums over the points of its bucket

  /** The period that begins at `start` and holds the point, the shortest period holding one moment only. */
  predicate FallsInto(period: Period, start: int, p: Point) {
    p.timestamp.Some? &&
    match period
    case Last15Minutes => p.timestamp.value == start
    case LastHour => start % (60 * 1000) == 0 && start <= p.timestamp.value < start + 60 * 1000
    case Last6Hours => start % (5 * 60 * 1000) == 0 && start <= p.timestamp.value < start + 5 * 60 * 1000
    case LastDay => start % (15 * 60 * 1000) == 0 && start <= p.timestamp.value < start + 15 * 60 * 1000
    case LastWeek => start % (60 * 60 * 1000) == 0 && start <= p.timestamp.value < start + 60 * 60 * 1000
  }

  function Inside(period: Period, start: int): Point -> bool {
    (p: Point) => FallsInto(period, start, p)
  }

  function SumOf(points: seq<Point>, inside: Point -> bool, value: Point -> int): int {
    if points == [] then 0
    else SumOf(points[..|points| - 1], inside, value) + if inside(points[|points| - 1]) then value(points[|points| - 1])
        else 0
  }

  function RealSumOf(points: seq<Point>, inside: Point -> bool, value: Point -> real): real {
    if points == [] then 0.0
    else
      RealSumOf(points[..|points| - 1], inside, value)
      + if inside(points[|points| - 1]) then value(points[|points| - 1]) else 0.0
  }

  function Measurements(): Point -> int {
    (p: Point) => match p.sampleCount case Some(n) => n case None => 1
  }

  function RxErrors(): Point -> int {
    (p: Point) => p.rxErrors
  }

  function TxErrors(): Point -> int {
    (p: Point) => p.txErrors
  }

  function RxDiscards(): Point -> int {
    (p: Point) => p.rxDiscards
  }

  function TxDiscards(): Point -> int {
    (p: Point) => p.txDiscards
  }

  function RxTraffic(): Point -> real {
    (p: Point) => p.rxBps * Measurements()(p) as real
  }

  function TxTraffic(): Point -> real {
    (p: Point) => p.txBps * Measurements()(p) as real
  }

  function RxPeak(): Point -> real {
    (p: Point) => match p.rxBpsMax case Some(peak) => peak case None => p.rxBps
  }

  function TxPeak(): Point -> real {
    (p: Point) => match p.txBpsMax case Some(peak) => peak case None => p.txBps
  }

  /** The average times the number of samples is the sum; over no samples there is none. */
  ghost predicate IsAverage(average: Option<real>, sum: real, count: int) {
    (average.Some? <==> count != 0) && (average.Some? ==> average.value * count as real == sum)
  }

  /** The highest of the values and zero. */
  ghost predicate IsPeak(peak: real, points: seq<Point>, inside: Point -> bool, value: Point -> real) {
    && peak >= 0.0 && (forall p :: p in points && inside(p) ==> value(p) <= peak)
    && (peak == 0.0 || exists p :: p in points && inside(p) && value(p) == peak)
  }

  ghost predicate IsPlainRow(row: Row, points: seq<Point>, inside: Point -> bool) {
    && row.sampleCount == SumOf(points, inside, Measurements())
    && IsAverage(row.rxBps, RealSumOf(points, inside, RxTraffic()), row.sampleCount)
    && IsAverage(row.txBps, RealSumOf(points, inside, TxTraffic()), row.sampleCount)
    && IsPeak(row.rxBpsMax, points, inside, RxPeak()) && IsPeak(row.txBpsMax, points, inside, TxPeak())
    && row.rxErrors == SumOf(points, inside, RxErrors())
    && row.txErrors == SumOf(points, inside, TxErrors())
    && row.rxDiscards == SumOf(points, inside, RxDiscards())
    && row.txDiscards == SumOf(points, inside, TxDiscards())
  }

  ghost predicate Occupied(points: seq<Point>, inside: Point -> bool) {
    exists p :: p in points && inside(p)
  }

  /** Every dated point falls into exactly one row's period, no period is empty, and each row sums up its own. */
  ghost predicate IsChart(points: seq<Point>, period: Period, out: seq<Row>) {
    && (forall i, j :: 0 <= i < j < |out| ==> out[i].time != out[j].time)
    && (forall n :: 0 <= n < |out| ==> IsPlainRow(out[n], points, Inside(period, out[n].time)))
    && (forall n :: 0 <= n < |out| ==> Occupied(points, Inside(period, out[n].time)))
    && (forall p :: p in points && p.timestamp.Some? ==>
          exists n :: 0 <= n < |out| && FallsInto(period, out[n].time, p))
  }

  lemma StartIsInside(period: Period, start: int, p: Point)
    ensures InBucket(period, start)(p) <==> FallsInto(period, start, p)
  {
    if p.timestamp.Some? {
      FloorIsInside(p.timestamp.value, start, 60_000);
      FloorIsInside(p.timestamp.value, start, 300_000);
      FloorIsInside(p.timestamp.value, start, 900_000);
      FloorIsInside(p.timestamp.value, start, 3_600_000);
    }
  }

  lemma FloorIsInside(time: int, start: int, size: int)
    requires size > 0
    ensures time / size * size == start <==> start % size == 0 && start <= time < start + size
  {
    var q := time / size;
    assert q * size <= time < q * size + size;
    if q * size == start {
      FloorIs(start, size, q);
      assert start == start / size * size + start % size;
    }
    if start % size == 0 && start <= time < start + size {
      assert start == start / size * size + start % size;
      FloorIs(time, size, start / size);
    }
  }

  ghost predicate HasPlainSums(total: Bucket, points: seq<Point>, inside: Point -> bool) {
    && total.count == SumOf(points, inside, Measurements())
    && total.rxBps == RealSumOf(points, inside, RxTraffic()) && total.txBps == RealSumOf(points, inside, TxTraffic())
    && total.rxErrors == SumOf(points, inside, RxErrors()) && total.txErrors == SumOf(points, inside, TxErrors())
    && total.rxDiscards == SumOf(points, inside, RxDiscards())
    && total.txDiscards == SumOf(points, inside, TxDiscards())
  }

  ghost predicate HasPlainPeaks(total: Bucket, points: seq<Point>, inside: Point -> bool) {
    IsPeak(total.rxBpsMax, points, inside, RxPeak()) && IsPeak(total.txBpsMax, points, inside, TxPeak())
  }

  /** The bucket records are the plain sums. */
  lemma {:induction false} TotalHasPlainSums(points: seq<Point>, inside: Point -> bool)
    ensures HasPlainSums(Total(points, inside), points, inside)
  {
    if points == [] {
    } else {
      var last := points[|points| - 1];
      TotalHasPlainSums(points[..|points| - 1], inside);
      WeightIsPlain(last);
    }
  }

  lemma WeightIsPlain(p: Point)
    ensures var w := Weight(p);
            && w.count == Measurements()(p) && w.rxBps == RxTraffic()(p) && w.txBps == TxTraffic()(p)
            && w.rxBpsMax == RxPeak()(p) && w.txBpsMax == TxPeak()(p)
            && w.rxErrors == RxErrors()(p) && w.txErrors == TxErrors()(p)
            && w.rxDiscards == RxDiscards()(p) && w.txDiscards == TxDiscards()(p)
  {
  }

  lemma {:induction false} TotalHasPlainPeaks(points: seq<Point>, inside: Point -> bool)
    ensures HasPlainPeaks(Total(points, inside), points, inside)
  {
    if points == [] {
    } else {
      var before, last := points[..|points| - 1], points[|points| - 1];
      assert points == before + [last];
      TotalHasPlainPeaks(before, inside);
      WeightIsPlain(last);
      PeakOneMore(Total(before, inside).rxBpsMax, before, last, inside, RxPeak());
      PeakOneMore(Total(before, inside).txBpsMax, before, last, inside, TxPeak());
    }
  }

  lemma PeakOneMore(peak: real, points: seq<Point>, last: Point, inside: Point -> bool, value: Point -> real)
    requires IsPeak(peak, points, inside, value)
    ensures IsPeak(if inside(last) && value(last) > peak then value(last) else peak, points + [last], inside, value)
  {
    assert last in points + [last];
    if peak != 0.0 {
      var p :| p in points && inside(p) && value(p) == peak;
      assert p in points + [last];
    }
  }

  lemma {:induction false} SumsArePointwise(points: seq<Point>, p: Point -> bool, q: Point -> bool, value: Point -> int,
                                            amount: Point -> real)
    requires forall x :: p(x) == q(x)
    ensures SumOf(points, p, value) == SumOf(points, q, value)
    ensures RealSumOf(points, p, amount) == RealSumOf(points, q, amount)
  {
    if points == [] {
    } else {
      SumsArePointwise(points[..|points| - 1], p, q, value, amount);
    }
  }

  lemma SummaryIsChart(points: seq<Point>, period: Period, out: seq<Row>)
    requires IsSummary(points, period, out)
    ensures IsChart(points, period, out)
  {
    forall n | 0 <= n < |out|
      ensures IsPlainRow(out[n], points, Inside(period, out[n].time))
      ensures Occupied(points, Inside(period, out[n].time))
    {
      assert IsRow(out[n], points, period, out[n].time);
      RowIsPlain(out[n], points, period);
    }
    forall p | p in points && p.timestamp.Some?
      ensures exists n :: 0 <= n < |out| && FallsInto(period, out[n].time, p)
    {
      var t := Start(period, p.timestamp.value);
      assert InBucket(period, t)(p);
      assert HasBucket(points, period, t);
      var n :| 0 <= n < |out| && out[n].time == t;
      StartIsInside(period, t, p);
    }
  }

  lemma RowIsPlain(row: Row, points: seq<Point>, period: Period)
    requires IsRow(row, points, period, row.time)
    ensures IsPlainRow(row, points, Inside(period, row.time))
    ensures Occupied(points, Inside(period, row.time))
  {
    var held := InBucket(period, row.time);
    forall p ensures held(p) == Inside(period, row.time)(p) {
      StartIsInside(period, row.time, p);
    }
    var p :| p in points && held(p);
    assert Inside(period, row.time)(p);
    TotalHasPlainSums(points, held);
    TotalHasPlainPeaks(points, held);
    PlainTotalIsPointwise(Total(points, held), points, held, Inside(period, row.time));
    PlainTotalIsPlainRow(row.time, Total(points, held), points, Inside(period, row.time));
  }

  lemma PlainTotalIsPlainRow(time: int, total: Bucket, points: seq<Point>, inside: Point -> bool)
    requires HasPlainSums(total, points, inside) && HasPlainPeaks(total, points, inside)
    ensures IsPlainRow(RowOf(time, total), points, inside)
  {
    AverageIsAverage(total.rxBps, total.count);
    AverageIsAverage(total.txBps, total.count);
  }

  lemma AverageIsAverage(sum: real, count: int)
    ensures IsAverage(Average(sum, count), sum, count)
  {
  }

  lemma PlainTotalIsPointwise(total: Bucket, points: seq<Point>, p: Point -> bool, q: Point -> bool)
    requires HasPlainSums(total, points, p) && HasPlainPeaks(total, points, p) && forall x :: p(x) == q(x)
    ensures HasPlainSums(total, points, q) && HasPlainPeaks(total, points, q)
  {
    SumsArePointwise(points, p, q, Measurements(), RxTraffic());
    SumsArePointwise(points, p, q, Measurements(), TxTraffic());
    SumsArePointwise(points, p, q, RxErrors(), RxTraffic());
    SumsArePointwise(points, p, q, TxErrors(), RxTraffic());
    SumsArePointwise(points, p, q, RxDiscards(), RxTraffic());
    SumsArePointwise(points, p, q, TxDiscards(), RxTraffic());
  }

  method Aggregate(points: seq<Point>, ordered: seq<Point>, period: Period) returns (out: seq<Row>)
    requires SortedByTime(points, ordered)
    ensures IsChart(points, period, out)
    ensures IsSummary(points, period, out)
    ensures Dated(points) ==> InTime(out)
  {
    SameMembers(points, ordered);
    var order, buckets := Gather(ordered, period);
    GatheredFromAnyOrder(points, ordered, period, order, buckets);
    AllHaveBuckets(order, buckets);
    out := seq(|order|, i requires 0 <= i < |order| && order[i] in buckets => RowOf(order[i], buckets[order[i]]));
    RowsAreSummary(points, period, order, buckets, out);
    SummaryIsChart(points, period, out);
  }

  lemma AllHaveBuckets(order: seq<int>, buckets: map<int, Bucket>)
    requires forall t :: t in order <==> t in buckets
    ensures forall i :: 0 <= i < |order| ==> order[i] in buckets
  {
    forall i | 0 <= i < |order| ensures order[i] in buckets {
      var t := order[i];
      assert t in order && t in buckets;
    }
  }

  lemma RowsAreSummary(points: seq<Point>, period: Period, order: seq<int>, buckets: map<int, Bucket>, out: seq<Row>)
    requires Gathered(points, period, order, buckets) && |out| == |order|
    requires forall i :: 0 <= i < |order| ==> order[i] in buckets && out[i] == RowOf(order[i], buckets[order[i]])
    ensures IsSummary(points, period, out) && (Ascending(order) ==> InTime(out))
  {
    forall t | HasBucket(points, period, t) ensures exists n :: 0 <= n < |out| && out[n].time == t {
      assert t in order;
      var n :| 0 <= n < |order| && order[n] == t;
      assert out[n].time == t;
    }
  }

  /**
   * Every row has its averages exactly when every occupied bucket has weight; the rows
   * are then the roll-up that the laws below speak of.
   */
  lemma SummaryIsRollup(points: seq<Point>, period: Period, out: seq<Row>)
    requires IsSummary(points, period, out)
    ensures AllAveraged(out) <==> Sampled(points, period)
    ensures AllAveraged(out) ==> IsRollup(points, period, Points(out)) && (InTime(out) ==> Increasing(Points(out)))
  {
    forall n | 0 <= n < |out| ensures HasBucket(points, period, out[n].time) {
      assert IsRow(out[n], points, period, out[n].time);
    }
    if AllAveraged(out) {
      AveragedIsSampled(points, period, out);
      AveragedIsRollup(points, period, out);
    }
  }

  lemma AveragedIsSampled(points: seq<Point>, period: Period, out: seq<Row>)
    requires IsSummary(points, period, out) && AllAveraged(out)
    ensures Sampled(points, period)
  {
    forall t | HasBucket(points, period, t) ensures Total(points, InBucket(period, t)).count != 0 {
      var n :| 0 <= n < |out| && out[n].time == t;
      assert IsRow(out[n], points, period, t);
    }
  }

  lemma AveragedIsRollup(points: seq<Point>, period: Period, out: seq<Row>)
    requires IsSummary(points, period, out) && AllAveraged(out)
    ensures IsRollup(points, period, Points(out))
    ensures InTime(out) ==> Increasing(Points(out))
  {
    var rolled := Points(out);
    forall n | 0 <= n < |out|
      ensures rolled[n].timestamp == Some(out[n].time) && HasBucket(points, period, out[n].time)
      ensures Total(points, InBucket(period, out[n].time)).count != 0
      ensures rolled[n] == Finish(out[n].time, Total(points, InBucket(period, out[n].time)))
    {
      assert IsRow(out[n], points, period, out[n].time);
    }
    forall t | HasBucket(points, period, t) ensures exists n :: 0 <= n < |rolled| && rolled[n].timestamp == Some(t) {
      var n :| 0 <= n < |out| && out[n].time == t;
      assert rolled[n].timestamp == Some(t);
    }
  }

  /** The loop over the sorted points: bucket records by start, in insertion order. */
  method Gather(ordered: seq<Point>, period: Period) returns (order: seq<int>, buckets: map<int, Bucket>)
    requires Dated(ordered) ==> SortedByTime(ordered, ordered)
    ensures Gathered(ordered, period, order, buckets)
    ensures Dated(ordered) ==> Ascending(order)
  {
    buckets := map[];
    order := [];
    for n := 0 to |ordered|
      invariant Gathered(ordered[..n], period, order, buckets)
      invariant Dated(ordered) ==> Ascending(order)
      invariant Dated(ordered) && n < |ordered| ==> NoLaterThan(order, Start(period, Time(ordered[n])))
    {
      var point := ordered[n];
      assert ordered[..n + 1] == ordered[..n] + [point];
      if point.timestamp.Some? {
        var t := Start(period, point.timestamp.value);
        GatherOneMore(ordered[..n], point, period, order, buckets);
        var bucket := if t in buckets then buckets[t] else EMPTY;
        if Dated(ordered) {
          NextPoint(ordered, n, period, order);
        }
        if t !in buckets {
          order := order + [t];
        }
        buckets := buckets[t := Add(bucket, point)];
      } else {
        SkipUndated(ordered[..n], point, period, order, buckets);
      }
    }
    assert ordered[..|ordered|] == ordered;
  }

  /** Sorted points reach their buckets in increasing order. */
  lemma NextPoint(ordered: seq<Point>, n: nat, period: Period, order: seq<int>)
    requires Dated(ordered) && SortedByTime(ordered, ordered) && n < |ordered|
    requires Ascending(order) && NoLaterThan(order, Start(period, Time(ordered[n])))
    ensures var t := Start(period, Time(ordered[n]));
            && (t !in order ==> Ascending(order + [t]))
            && (n + 1 < |ordered| ==>
                  var next := Start(period, Time(ordered[n + 1]));
                  NoLaterThan(order, next) && (t !in order ==> NoLaterThan(order + [t], next)))
  {
    var t := Start(period, Time(ordered[n]));
    if t !in order {
      AscendOneMore(order, t);
    }
    if n + 1 < |ordered| {
      assert ordered[n].timestamp.value <= ordered[n + 1].timestamp.value;
      StartIsMonotone(period, Time(ordered[n]), Time(ordered[n + 1]));
    }
  }

  lemma AscendOneMore(order: seq<int>, t: int)
    requires t !in order
    ensures Ascending(order) && NoLaterThan(order, t) ==> Ascending(order + [t]) && NoLaterThan(order + [t], t)
  {
    if Ascending(order) && NoLaterThan(order, t) {
      forall i | 0 <= i < |order| ensures order[i] < t {
        assert order[i] in order;
      }
    }
  }

  ghost predicate NoLaterThan(order: seq<int>, time: int) {
    forall t :: t in order ==> t <= time
  }

  lemma GatheredFromAnyOrder(points: seq<Point>, ordered: seq<Point>, period: Period, order: seq<int>,
                             buckets: map<int, Bucket>)
    requires multiset(points) == multiset(ordered) && Gathered(ordered, period, order, buckets)
    ensures Gathered(points, period, order, buckets)
  {
    SameMembers(points, ordered);
    forall t ensures HasBucket(points, period, t) == HasBucket(ordered, period, t) {
    }
    forall t | t in buckets ensures buckets[t] == Total(points, InBucket(period, t)) {
      TotalIgnoresOrder(points, ordered, InBucket(period, t));
    }
  }

  /** Points measured at least once each, as the collector writes them, never leave a bucket without weight. */
  lemma MeasuredPointsAreSampled(points: seq<Point>, period: Period)
    requires forall x :: x in points && x.timestamp.Some? ==> CountOf(x) >= 1
    ensures Sampled(points, period)
  {
    forall t | HasBucket(points, period, t) ensures Total(points, InBucket(period, t)).count > 0 {
      CountIsPositive(points, InBucket(period, t));
    }
  }

  lemma {:induction false} CountIsPositive(points: seq<Point>, p: Point -> bool)
    requires forall x :: x in points && p(x) ==> CountOf(x) >= 1
    ensures Total(points, p).count >= 0
    ensures (exists x :: x in points && p(x)) ==> Total(points, p).count > 0
  {
    if points == [] {
    } else {
      var last := |points| - 1;
      assert points == points[..last] + [points[last]];
      CountIsPositive(points[..last], p);
      if x :| x in points && p(x) && !p(points[last]) {
        assert x in points[..last];
      }
    }
  }

  /** Totals do not depend on the order of the points. */
  lemma {:induction false} TotalIgnoresOrder(a: seq<Point>, b: seq<Point>, p: Point -> bool)
    requires multiset(a) == multiset(b)
    ensures Total(a, p) == Total(b, p)
    decreases |a|
  {
    if a == [] {
      assert |multiset(b)| == 0;
    } else {
      var last := |a| - 1;
      var x := a[last];
      assert a == a[..last] + [x];
      assert x in multiset(a);
      var i :| 0 <= i < |b| && b[i] == x;
      WithoutOne(a, b, i);
      TotalIgnoresOrder(a[..last], b[..i] + b[i + 1..], p);
      TotalOneMore(a[..last], x, p);
      MoveToEnd(b, i, p);
    }
  }

  lemma {:induction false} MoveToEnd(b: seq<Point>, i: nat, p: Point -> bool)
    requires i < |b|
    ensures Total(b, p) == Total(b[..i] + b[i + 1..] + [b[i]], p)
    decreases |b| - i
  {
    var last := |b| - 1;
    var x := b[i];
    if i == last {
      assert b == b[..i] + b[i + 1..] + [x];
    } else {
      var y, init := b[last], b[..last];
      assert b == init + [y];
      TotalOneMore(init, y, p);
      MoveToEnd(init, i, p);
      var rest := init[..i] + init[i + 1..];
      TotalOneMore(rest, x, p);
      assert b[..i] + b[i + 1..] == rest + [y];
      TotalOneMore(rest, y, p);
      TotalOneMore(rest + [y], x, p);
    }
  }

  function Time(p: Point): int {
    if p.timestamp.Some? then p.timestamp.value else 0
  }

  ghost predicate Ascending(order: seq<int>) {
    forall i, j :: 0 <= i < j < |order| ==> order[i] < order[j]
  }

  /** The loop's map and its keys in insertion order, after some points. */
  ghost predicate Gathered(points: seq<Point>, period: Period, order: seq<int>, buckets: map<int, Bucket>) {
    && (forall i, j :: 0 <= i < j < |order| ==> order[i] != order[j])
    && (forall t :: t in order <==> t in buckets)
    && (forall t :: t in buckets <==> HasBucket(points, period, t))
    && (forall t :: t in buckets ==> buckets[t] == Total(points, InBucket(period, t)))
  }

  lemma TotalOneMore(points: seq<Point>, x: Point, p: Point -> bool)
    ensures Total(points + [x], p) == if p(x) then Add(Total(points, p), x) else Total(points, p)
  {
    assert (points + [x])[..|points + [x]| - 1] == points;
  }

  lemma {:induction false} TotalOfNone(points: seq<Point>, p: Point -> bool)
    requires forall x :: x in points ==> !p(x)
    ensures Total(points, p) == EMPTY
  {
    if points == [] {
    } else {
      TotalOfNone(points[..|points| - 1], p);
    }
  }

  lemma GatherOneMore(points: seq<Point>, x: Point, period: Period, order: seq<int>, buckets: map<int, Bucket>)
    requires Gathered(points, period, order, buckets) && x.timestamp.Some?
    ensures var t := Start(period, x.timestamp.value);
            var bucket := if t in buckets then buckets[t] else EMPTY;
            Gathered(points + [x], period, if t in buckets then order else order + [t], buckets[t := Add(bucket, x)])
  {
    var t := Start(period, x.timestamp.value);
    var bucket := if t in buckets then buckets[t] else EMPTY;
    var buckets' := buckets[t := Add(bucket, x)];
    if t !in buckets {
      assert !HasBucket(points, period, t);
      TotalOfNone(points, InBucket(period, t));
    }
    forall u ensures u in buckets' <==> HasBucket(points + [x], period, u) {
      HasBucketOneMore(points, x, period, u);
    }
    forall u | u in buckets' ensures buckets'[u] == Total(points + [x], InBucket(period, u)) {
      TotalOneMore(points, x, InBucket(period, u));
    }
  }

  lemma SkipUndated(points: seq<Point>, x: Point, period: Period, order: seq<int>, buckets: map<int, Bucket>)
    requires Gathered(points, period, order, buckets) && x.timestamp.None?
    ensures Gathered(points + [x], period, order, buckets)
  {
    forall u ensures HasBucket(points + [x], period, u) == HasBucket(points, period, u) {
      HasBucketOneMore(points, x, period, u);
    }
    forall u | u in buckets ensures buckets[u] == Total(points + [x], InBucket(period, u)) {
      TotalOneMore(points, x, InBucket(period, u));
    }
  }

  lemma HasBucketOneMore(points: seq<Point>, x: Point, period: Period, t: int)
    ensures HasBucket(points + [x], period, t) <==> HasBucket(points, period, t) || InBucket(period, t)(x)
  {
    if HasBucket(points, period, t) {
      var p :| p in points && InBucket(period, t)(p);
      assert p in points + [x];
    }
    if InBucket(period, t)(x) {
      assert x in points + [x];
    }
  }

  lemma StartIsMonotone(period: Period, a: int, b: int)
    requires a <= b
    ensures Start(period, a) <= Start(period, b)
  {
  }

  // ----- rolling up in two steps

  /** Points whose bucket start satisfies q. */
  function Where(period: Period, q: int -> bool): Point -> bool {
    (p: Point) => p.timestamp.Some? && q(Start(period, p.timestamp.value))
  }

  function Either(p: Point -> bool, q: Point -> bool): Point -> bool {
    (x: Point) => p(x) || q(x)
  }

  lemma {:induction false} PeaksAreNonNegative(points: seq<Point>, p: Point -> bool)
    ensures Total(points, p).rxBpsMax >= 0.0 && Total(points, p).txBpsMax >= 0.0
  {
    if points == [] {
    } else {
      PeaksAreNonNegative(points[..|points| - 1], p);
    }
  }

  lemma MergeLast(a: Bucket, b: Bucket, w: Bucket)
    ensures Merge(Merge(a, b), w) == Merge(Merge(a, w), b) == Merge(a, Merge(b, w))
  {
  }

  lemma {:induction false} TotalOfEither(points: seq<Point>, p: Point -> bool, q: Point -> bool)
    requires forall x :: x in points ==> !(p(x) && q(x))
    ensures Total(points, Either(p, q)) == Merge(Total(points, p), Total(points, q))
  {
    if points == [] {
    } else {
      var before, x := points[..|points| - 1], points[|points| - 1];
      TotalOfEither(before, p, q);
      MergeLast(Total(before, p), Total(before, q), Weight(x));
    }
  }

  lemma {:induction false} TotalIsPointwise(points: seq<Point>, p: Point -> bool, q: Point -> bool)
    requires forall x :: x in points ==> p(x) == q(x)
    ensures Total(points, p) == Total(points, q)
  {
    if points == [] {
    } else {
      TotalIsPointwise(points[..|points| - 1], p, q);
    }
  }

  /** A rolled-up point weighs exactly what its bucket held. */
  lemma AddFinished(b: Bucket, time: int, held: Bucket)
    requires held.count != 0
    ensures Add(b, Finish(time, held)) == Merge(b, held)
  {
    var p := Finish(time, held);
    DivideThenMultiply(held.rxBps, held.count as real);
    DivideThenMultiply(held.txBps, held.count as real);
    var sum := Add(b, p);
    assert sum.rxBps == b.rxBps + held.rxBps;
    assert sum.txBps == b.txBps + held.txBps;
  }

  lemma DivideThenMultiply(x: real, n: real)
    requires n != 0.0
    ensures x / n * n == x
  {
  }

  /**
   * Any condition on bucket starts selects the same totals before and after a
   * roll-up.
   */
  lemma TotalsSurvive(points: seq<Point>, period: Period, mid: seq<Point>, q: int -> bool)
    requires IsRollup(points, period, mid)
    ensures Total(mid, Where(period, q)) == Total(points, Where(period, q))
  {
    assert mid[..|mid|] == mid;
    TotalsOfSome(points, period, mid, |mid|, q);
    forall x | x in points ensures Where(period, q)(x) == Where(period, OneOf(mid, |mid|, q))(x) {
      if x.timestamp.Some? {
        var t := Start(period, x.timestamp.value);
        assert InBucket(period, t)(x);
        assert HasBucket(points, period, t);
      }
    }
    TotalIsPointwise(points, Where(period, q), Where(period, OneOf(mid, |mid|, q)));
  }

  /** The times of the first `taken` rolled-up points that satisfy q. */
  ghost function OneOf(mid: seq<Point>, taken: nat, q: int -> bool): int -> bool {
    (t: int) => q(t) && exists n :: 0 <= n < taken && n < |mid| && mid[n].timestamp == Some(t)
  }

  lemma {:induction false} TotalsOfSome(points: seq<Point>, period: Period, mid: seq<Point>, taken: nat, q: int -> bool)
    requires IsRollup(points, period, mid) && taken <= |mid|
    ensures Total(mid[..taken], Where(period, q)) == Total(points, Where(period, OneOf(mid, taken, q)))
  {
    if taken == 0 {
      TotalOfNone(points, Where(period, OneOf(mid, 0, q)));
    } else {
      var n := taken - 1;
      var x, t := mid[n], mid[n].timestamp.value;
      TotalsOfSome(points, period, mid, n, q);
      assert mid[..taken] == mid[..n] + [x];
      TotalOneMore(mid[..n], x, Where(period, q));
      RolledUpTimesAreStarts(points, period, mid, n);
      OneMoreTime(points, period, mid, n, q);
      if q(t) {
        AddFinished(Total(mid[..n], Where(period, q)), t, Total(points, InBucket(period, t)));
        TotalOfEither(points, Where(period, OneOf(mid, n, q)), InBucket(period, t));
      }
    }
  }

  lemma OneMoreTime(points: seq<Point>, period: Period, mid: seq<Point>, n: nat, q: int -> bool)
    requires n < |mid| && Distinct(mid)
    ensures var t := mid[n].timestamp.value;
            var earlier := Where(period, OneOf(mid, n, q));
            && (forall x :: x in points ==> !(earlier(x) && InBucket(period, t)(x)))
            && Total(points, Where(period, OneOf(mid, n + 1, q))) ==
               Total(points, if q(t) then Either(earlier, InBucket(period, t)) else earlier)
  {
    var t := mid[n].timestamp.value;
    var earlier := Where(period, OneOf(mid, n, q));
    var now := Where(period, OneOf(mid, n + 1, q));
    forall u ensures OneOf(mid, n + 1, q)(u) <==> OneOf(mid, n, q)(u) || (q(u) && u == t) {
      if q(u) && u == t {
        assert mid[n].timestamp == Some(u);
      }
    }
    forall x | x in points ensures !(earlier(x) && InBucket(period, t)(x)) {
    }
    TotalIsPointwise(points, now, if q(t) then Either(earlier, InBucket(period, t)) else earlier);
  }

  lemma StartIsIdempotent(period: Period, time: int)
    ensures Start(period, Start(period, time)) == Start(period, time)
  {
    NestedFloor(time, 60_000, 1);
    NestedFloor(time, 300_000, 1);
    NestedFloor(time, 900_000, 1);
    NestedFloor(time, 3_600_000, 1);
  }

  lemma RolledUpTimesAreStarts(points: seq<Point>, period: Period, mid: seq<Point>, n: nat)
    requires IsRollup(points, period, mid) && n < |mid|
    ensures Start(period, mid[n].timestamp.value) == mid[n].timestamp.value
  {
    var t := mid[n].timestamp.value;
    var p :| p in points && InBucket(period, t)(p);
    StartIsIdempotent(period, p.timestamp.value);
  }

  function Rank(period: Period): nat {
    match period
    case Last15Minutes => 0
    case LastHour => 1
    case Last6Hours => 2
    case LastDay => 3
    case LastWeek => 4
  }

  lemma CoarserStartIgnoresFiner(fine: Period, coarse: Period, time: int)
    requires Rank(fine) <= Rank(coarse)
    ensures Start(coarse, Start(fine, time)) == Start(coarse, time)
  {
    match fine
    case Last15Minutes =>
    case LastHour => MinutesNest(time);
    case Last6Hours => FiveMinutesNest(time);
    case LastDay => QuartersNest(time);
    case LastWeek => StartIsIdempotent(LastWeek, time);
  }

  lemma MinutesNest(time: int)
    ensures time / 60_000 * 60_000 / 60_000 == time / 60_000
    ensures time / 60_000 * 60_000 / 300_000 == time / 300_000
    ensures time / 60_000 * 60_000 / 900_000 == time / 900_000
    ensures time / 60_000 * 60_000 / 3_600_000 == time / 3_600_000
  {
    NestedFloor(time, 60_000, 1);
    NestedFloor(time, 60_000, 5);
    NestedFloor(time, 60_000, 15);
    NestedFloor(time, 60_000, 60);
  }

  lemma FiveMinutesNest(time: int)
    ensures time / 300_000 * 300_000 / 300_000 == time / 300_000
    ensures time / 300_000 * 300_000 / 900_000 == time / 900_000
    ensures time / 300_000 * 300_000 / 3_600_000 == time / 3_600_000
  {
    NestedFloor(time, 300_000, 1);
    NestedFloor(time, 300_000, 3);
    NestedFloor(time, 300_000, 12);
  }

  lemma QuartersNest(time: int)
    ensures time / 900_000 * 900_000 / 900_000 == time / 900_000
    ensures time / 900_000 * 900_000 / 3_600_000 == time / 3_600_000
  {
    NestedFloor(time, 900_000, 1);
    NestedFloor(time, 900_000, 4);
  }

  /** Flooring to a multiple of `size` first does not move a floor to a multiple of `size * factor`. */
  lemma NestedFloor(time: int, size: int, factor: int)
    requires size > 0 && factor > 0
    ensures size * factor > 0
    ensures time / size * size / (size * factor) == time / (size * factor)
  {
    var wide := size * factor;
    assert wide > 0;
    var q, floor := time / wide, time / size * size;
    // q * wide is a multiple of size not above time, so not above floor either
    assert q * wide == q * factor * size;
    assert q * wide <= time < q * wide + wide;
    NoMultipleBetween(time, size, q * factor);
    assert q * wide <= floor <= time < q * wide + wide;
    FloorIs(floor, wide, q);
  }

  lemma NoMultipleBetween(time: int, size: int, k: int)
    requires size > 0 && k * size <= time
    ensures k * size <= time / size * size <= time
  {
    Monotone(k, time / size, size);
    Monotone(time / size + 1, k, size);
    assert (time / size + 1) * size == time / size * size + size;
  }

  lemma Monotone(a: int, b: int, n: int)
    requires n >= 0
    ensures a <= b ==> a * n <= b * n
  {
  }

  lemma FloorIs(x: int, wide: int, q: int)
    requires wide > 0 && q * wide <= x < q * wide + wide
    ensures x / wide == q
  {
    var d := x / wide;
    assert d * wide <= x < d * wide + wide;
    Monotone(d + 1, q, wide);
    Monotone(q + 1, d, wide);
    assert (d + 1) * wide == d * wide + wide && (q + 1) * wide == q * wide + wide;
  }

  function StartsAt(coarse: Period, time: int): int -> bool {
    (t: int) => Start(coarse, t) == time
  }

  /**
   * Composition: rolling up to a finer period first makes no difference. Whatever
   * is a roll-up of the intermediate points is a roll-up of the raw ones, and
   * conversely.
   */
  lemma RollupComposes(points: seq<Point>, fine: Period, mid: seq<Point>, coarse: Period, out: seq<Point>)
    requires Rank(fine) <= Rank(coarse) && IsRollup(points, fine, mid)
    ensures IsRollup(mid, coarse, out) <==> IsRollup(points, coarse, out)
  {
    forall t ensures Total(mid, InBucket(coarse, t)) == Total(points, InBucket(coarse, t))
                  && HasBucket(mid, coarse, t) == HasBucket(points, coarse, t)
    {
      CoarseTotalsAgree(points, fine, mid, coarse, t);
      CoarseBucketsAgree(points, fine, mid, coarse, t);
    }
  }

  lemma CoarseTotalsAgree(points: seq<Point>, fine: Period, mid: seq<Point>, coarse: Period, t: int)
    requires Rank(fine) <= Rank(coarse) && IsRollup(points, fine, mid)
    ensures Total(mid, InBucket(coarse, t)) == Total(points, InBucket(coarse, t))
  {
    TotalsSurvive(points, fine, mid, StartsAt(coarse, t));
    var viaFine := Where(fine, StartsAt(coarse, t));
    forall x: Point ensures InBucket(coarse, t)(x) == viaFine(x) {
      if x.timestamp.Some? {
        CoarserStartIgnoresFiner(fine, coarse, x.timestamp.value);
      }
    }
    TotalIsPointwise(points, InBucket(coarse, t), viaFine);
    TotalIsPointwise(mid, InBucket(coarse, t), viaFine);
  }

  lemma CoarseBucketsAgree(points: seq<Point>, fine: Period, mid: seq<Point>, coarse: Period, t: int)
    requires Rank(fine) <= Rank(coarse) && IsRollup(points, fine, mid)
    ensures HasBucket(mid, coarse, t) == HasBucket(points, coarse, t)
  {
    if HasBucket(points, coarse, t) {
      var p :| p in points && InBucket(coarse, t)(p);
      PointKeepsItsCoarseBucket(points, fine, mid, coarse, t, p);
    }
    if HasBucket(mid, coarse, t) {
      var m :| m in mid && InBucket(coarse, t)(m);
      var n :| 0 <= n < |mid| && mid[n] == m;
      var p :| p in points && InBucket(fine, m.timestamp.value)(p);
      CoarserStartIgnoresFiner(fine, coarse, p.timestamp.value);
      assert InBucket(coarse, t)(p);
    }
  }

  lemma PointKeepsItsCoarseBucket(points: seq<Point>, fine: Period, mid: seq<Point>, coarse: Period, t: int, p: Point)
    requires Rank(fine) <= Rank(coarse) && IsRollup(points, fine, mid)
    requires p in points && InBucket(coarse, t)(p)
    ensures HasBucket(mid, coarse, t)
  {
    var f := Start(fine, p.timestamp.value);
    CoarserStartIgnoresFiner(fine, coarse, p.timestamp.value);
    assert InBucket(fine, f)(p);
    assert HasBucket(points, fine, f);
    var n :| 0 <= n < |mid| && mid[n].timestamp == Some(f);
    assert mid[n] in mid && InBucket(coarse, t)(mid[n]);
  }

  /** A roll-up of given points is unique once its times increase. */
  lemma RollupIsUnique(points: seq<Point>, period: Period, a: seq<Point>, b: seq<Point>)
    requires IsRollup(points, period, a) && IsRollup(points, period, b)
    requires Increasing(a) && Increasing(b)
    ensures a == b
  {
    RolledUpInBoth(points, period, a, b);
    RolledUpInBoth(points, period, b, a);
    SameIncreasing(a, b);
  }

  /** Rolling up twice and rolling up once are the same sequence of points. */
  lemma TwiceIsOnce(points: seq<Point>, fine: Period, mid: seq<Point>, coarse: Period, twice: seq<Point>,
                    once: seq<Point>)
    requires Rank(fine) <= Rank(coarse) && IsRollup(points, fine, mid)
    requires IsRollup(mid, coarse, twice) && IsRollup(points, coarse, once) && Increasing(twice) && Increasing(once)
    ensures twice == once
  {
    RollupComposes(points, fine, mid, coarse, twice);
    RollupIsUnique(points, coarse, twice, once);
  }

  lemma RolledUpInBoth(points: seq<Point>, period: Period, a: seq<Point>, b: seq<Point>)
    requires IsRollup(points, period, a) && IsRollup(points, period, b)
    ensures forall x :: x in a ==> x in b
  {
    forall x | x in a ensures x in b {
      var n :| 0 <= n < |a| && a[n] == x;
      var t := x.timestamp.value;
      assert HasBucket(points, period, t);
      var m :| 0 <= m < |b| && b[m].timestamp == Some(t);
      assert b[m] == x;
    }
  }

  lemma {:induction false} SameIncreasing(a: seq<Point>, b: seq<Point>)
    requires Increasing(a) && Increasing(b)
    requires forall x :: x in a <==> x in b
    ensures a == b
    decreases |a|
  {
    assert b == [] || b[0] in b;
    if a == [] {
    } else {
      assert a[0] in b;
      HeadIsFirst(a);
      HeadIsFirst(b);
      assert a[0] == b[0];
      SameIncreasing(a[1..], b[1..]);
      assert a == [a[0]] + a[1..] && b == [b[0]] + b[1..];
    }
  }

  /** The head comes strictly before everything else. */
  lemma HeadIsFirst(a: seq<Point>)
    requires a != [] && Increasing(a)
    ensures Increasing(a[1..])
    ensures a[0] !in a[1..]
    ensures forall x :: x in a <==> x == a[0] || x in a[1..]
    ensures forall x :: x in a[1..] ==> x.timestamp.Some? && a[0].timestamp.value < x.timestamp.value
  {
    assert a == [a[0]] + a[1..];
    forall x | x in a[1..] ensures x.timestamp.Some? && a[0].timestamp.value < x.timestamp.value {
      var n :| 0 <= n < |a[1..]| && a[1..][n] == x;
      assert x == a[n + 1];
    }
  }

  /** The roll-up of dated points does not depend on their order. */
  lemma RollupIgnoresOrder(points: seq<Point>, shuffled: seq<Point>, period: Period, out: seq<Point>)
    requires multiset(points) == multiset(shuffled) && IsRollup(points, period, out)
    ensures IsRollup(shuffled, period, out)
  {
    SameMembers(points, shuffled);
    forall t ensures Total(points, InBucket(period, t)) == Total(shuffled, InBucket(period, t))
                  && HasBucket(points, period, t) == HasBucket(shuffled, period, t)
    {
      TotalIgnoresOrder(points, shuffled, InBucket(period, t));
    }
  }

  function Any(): int -> bool {
    (t: int) => true
  }

  /**
   * Conservation: sample counts, weighted traffic, errors and discards add up to
   * the same before and after, and the overall peaks are kept.
   */
  lemma RollupConserves(points: seq<Point>, period: Period, out: seq<Point>) returns (rxPeak: real, txPeak: real)
    requires IsRollup(points, period, out)
    ensures SumOf(out, IsDated(), Measurements()) == SumOf(points, IsDated(), Measurements())
    ensures RealSumOf(out, IsDated(), RxTraffic()) == RealSumOf(points, IsDated(), RxTraffic())
    ensures RealSumOf(out, IsDated(), TxTraffic()) == RealSumOf(points, IsDated(), TxTraffic())
    ensures SumOf(out, IsDated(), RxErrors()) == SumOf(points, IsDated(), RxErrors())
    ensures SumOf(out, IsDated(), TxErrors()) == SumOf(points, IsDated(), TxErrors())
    ensures SumOf(out, IsDated(), RxDiscards()) == SumOf(points, IsDated(), RxDiscards())
    ensures SumOf(out, IsDated(), TxDiscards()) == SumOf(points, IsDated(), TxDiscards())
    ensures IsPeak(rxPeak, out, IsDated(), RxPeak()) && IsPeak(rxPeak, points, IsDated(), RxPeak())
    ensures IsPeak(txPeak, out, IsDated(), TxPeak()) && IsPeak(txPeak, points, IsDated(), TxPeak())
  {
    TotalsAreConserved(points, period, out);
    TotalHasPlainSums(out, IsDated());
    TotalHasPlainSums(points, IsDated());
    TotalHasPlainPeaks(out, IsDated());
    TotalHasPlainPeaks(points, IsDated());
    rxPeak, txPeak := Total(out, IsDated()).rxBpsMax, Total(out, IsDated()).txBpsMax;
  }

  lemma TotalsAreConserved(points: seq<Point>, period: Period, out: seq<Point>)
    requires IsRollup(points, period, out)
    ensures Total(out, IsDated()) == Total(points, IsDated())
  {
    TotalsSurvive(points, period, out, Any());
    TotalIsPointwise(points, IsDated(), Where(period, Any()));
    TotalIsPointwise(out, IsDated(), Where(period, Any()));
  }

  function IsDated(): Point -> bool {
    (p: Point) => p.timestamp.Some?
  }
}
