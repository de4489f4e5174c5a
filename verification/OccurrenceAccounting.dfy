/** What the totals of episodes are, said of the fields of the samples alone. */
module OccurrenceAccounting {
  import opened Options
  import opened OccurrenceRules
  import opened Occurrences
  import opened OccurrenceLaws

  // ----- what a sample brings

  function Positive(n: int): int {
    if n > 0 then n else 0
  }

  function CrcErrors(): Sample -> int {
    (s: Sample) => if s.fcsErrors.Some? then Positive(s.fcsErrors.value) else 0
  }

  function InDiscards(): Sample -> int {
    (s: Sample) => Positive(s.inDiscards)
  }

  function OutDiscards(): Sample -> int {
    (s: Sample) => Positive(s.outDiscards)
  }

  /** A positive counter of the type. */
  predicate HasEvents(kind: OccurrenceType, s: Sample) {
    match kind
    case CRC_FCS => s.fcsErrors.Some? && s.fcsErrors.value > 0
    case DISCARDS => s.inDiscards > 0 || s.outDiscards > 0
  }

  function Events(kind: OccurrenceType, s: Sample): int {
    match kind
    case CRC_FCS => CrcErrors()(s)
    case DISCARDS => InDiscards()(s) + OutDiscards()(s)
  }

  /**
   * A sample concerns a fingerprint exactly when it is of its interface and has a
   * positive counter of its type, and its rate is over the sum of those counters.
   */
  lemma ConcernsExactly(s: Sample, series: Series)
    ensures Concerns(s, series) <==> s.interfaceId == series.interfaceId && HasEvents(series.kind, s)
    ensures DeltaFor(series.kind, s).total == Events(series.kind, s)
  {
  }

  /** Samples before this one whose time is known. */
  ghost predicate KnownBefore(t: Track, candidates: seq<Option<int>>, timestamp: int, moment: int) {
    && moment < timestamp
    && (Some(moment) in candidates
        || (t.episodes != [] && moment == t.episodes[|t.episodes| - 1].values.lastSample))
  }

  ghost predicate IsLatestKnown(t: Track, candidates: seq<Option<int>>, timestamp: int, moment: int) {
    && KnownBefore(t, candidates, timestamp, moment)
    && forall other :: KnownBefore(t, candidates, timestamp, other) ==> other <= moment
  }

  /**
   * The rate of an applied sample is its events over the minutes since the latest known
   * moment before it, to the second decimal; without such a moment it is zero.
   */
  lemma SampleRateIsExact(t: Track, s: Sample, kind: OccurrenceType, candidates: seq<Option<int>>)
    ensures var rate := RateOf(t, s.timestamp, DeltaFor(kind, s), candidates);
            && (forall moment :: IsLatestKnown(t, candidates, s.timestamp, moment) ==>
                  IsRate(rate, Events(kind, s), s.timestamp - moment))
            && ((forall moment :: !KnownBefore(t, candidates, s.timestamp, moment)) ==> rate == 0.0)
  {
    var last := if t.episodes == [] then None else Some(t.episodes[|t.episodes| - 1].values.lastSample);
    var all := candidates + [last];
    var basis := Basis(s.timestamp, all);
    BasisIsBest(s.timestamp, all);
    RateIsExact(Events(kind, s), s.timestamp, basis);
    forall moment
      ensures KnownBefore(t, candidates, s.timestamp, moment) <==> moment < s.timestamp && Some(moment) in all
    {
      assert Some(moment) in all <==> Some(moment) in candidates || Some(moment) == last;
    }
    if basis.Some? {
      assert KnownBefore(t, candidates, s.timestamp, basis.value);
    }
  }

  /** Events per minute to the second decimal, with at most 2^53 - 1 events. */
  ghost predicate IsRate(rate: real, events: int, milliseconds: int)
    requires milliseconds > 0
  {
    var counted := if events > 9_007_199_254_740_991 then 9_007_199_254_740_991 else events;
    var exact := counted as real / (milliseconds as real / 60000.0);
    exact - 0.005 <= rate <= exact + 0.005
  }

  // ----- the samples applied

  /** The sample's time is recorded as processed at its turn, and was not before. */
  ghost predicate IsApplied(t: Track, samples: seq<Sample>, n: nat, series: Series, now: int)
    requires n < |samples|
  {
    && samples[n].interfaceId == series.interfaceId && HasEvents(series.kind, samples[n])
    && samples[n].timestamp !in IngestTrack(t, samples[..n], series, now).sources
    && samples[n].timestamp in IngestTrack(t, samples[..n + 1], series, now).sources
  }

  ghost function AppliedSamples(t: Track, samples: seq<Sample>, count: nat, series: Series, now: int): seq<Sample>
    requires count <= |samples|
  {
    if count == 0 then []
    else
      AppliedSamples(t, samples, count - 1, series, now)
      + if IsApplied(t, samples, count - 1, series, now) then [samples[count - 1]] else []
  }

  ghost function AppliedInEvent(w: World, e: Event, series: Series): seq<Sample> {
    match e.action
    case Poll(samples, _) => AppliedSamples(TrackOf(w.db, series), samples, |samples|, series, e.now)
    case _ => []
  }

  ghost function AppliedOver(w: World, events: seq<Event>, series: Series): seq<Sample> {
    if events == [] then []
    else
      var earlier, e := events[..|events| - 1], events[|events| - 1];
      AppliedOver(w, earlier, series) + AppliedInEvent(After(w, earlier), e, series)
  }

  // ----- plain sums

  function SumOf<T>(items: seq<T>, value: T -> int): int {
    if items == [] then 0 else SumOf(items[..|items| - 1], value) + value(items[|items| - 1])
  }

  lemma {:induction false} SumOfConcat<T>(a: seq<T>, b: seq<T>, value: T -> int)
    ensures SumOf(a + b, value) == SumOf(a, value) + SumOf(b, value)
  {
    if b == [] {
      assert a + b == a;
    } else {
      assert (a + b)[..|a + b| - 1] == a + b[..|b| - 1];
      SumOfConcat(a, b[..|b| - 1], value);
    }
  }

  function Count(): Episode -> int {
    (e: Episode) => e.values.count
  }

  function Crc(): Episode -> int {
    (e: Episode) => e.values.crc
  }

  function Rx(): Episode -> int {
    (e: Episode) => e.values.rx
  }

  function Tx(): Episode -> int {
    (e: Episode) => e.values.tx
  }

  /** The totals of the episodes grew by just what the samples brought. */
  ghost predicate Booked(before: seq<Episode>, after: seq<Episode>, applied: seq<Sample>, kind: OccurrenceType) {
    && SumOf(after, Count()) == SumOf(before, Count()) + |applied|
    && SumOf(after, Crc()) == SumOf(before, Crc()) + (if kind == CRC_FCS then SumOf(applied, CrcErrors()) else 0)
    && SumOf(after, Rx()) == SumOf(before, Rx()) + (if kind == DISCARDS then SumOf(applied, InDiscards()) else 0)
    && SumOf(after, Tx()) == SumOf(before, Tx()) + (if kind == DISCARDS then SumOf(applied, OutDiscards()) else 0)
  }

  // ----- the ledger in plain sums

  lemma {:induction false} LedgerIsPlain(episodes: seq<Episode>)
    ensures var ledger := LedgerOf(episodes);
            && ledger.count == SumOf(episodes, Count()) && ledger.crc == SumOf(episodes, Crc())
            && ledger.rx == SumOf(episodes, Rx()) && ledger.tx == SumOf(episodes, Tx())
  {
    if episodes == [] {
    } else {
      LedgerIsPlain(episodes[..|episodes| - 1]);
    }
  }

  function Entries(samples: seq<Sample>, kind: OccurrenceType): seq<Ledger> {
    seq(|samples|, i requires 0 <= i < |samples| => Entry(samples[i].timestamp, DeltaFor(kind, samples[i])))
  }

  lemma {:induction false} EntriesArePlain(ledger: Ledger, samples: seq<Sample>, kind: OccurrenceType)
    ensures var sum := Add(ledger, Entries(samples, kind));
            && sum.count == ledger.count + |samples|
            && sum.crc == ledger.crc + (if kind == CRC_FCS then SumOf(samples, CrcErrors()) else 0)
            && sum.rx == ledger.rx + (if kind == DISCARDS then SumOf(samples, InDiscards()) else 0)
            && sum.tx == ledger.tx + (if kind == DISCARDS then SumOf(samples, OutDiscards()) else 0)
  {
    if samples == [] {
    } else {
      var before := samples[..|samples| - 1];
      EntriesArePlain(ledger, before, kind);
      assert Entries(samples, kind)[..|samples| - 1] == Entries(before, kind);
    }
  }

  lemma {:induction false} BatchEntries(t: Track, samples: seq<Sample>, count: nat, series: Series, now: int)
    requires TrackOk(t, now) && count <= |samples|
    ensures AppliedInBatch(t, samples[..count], series, now)
            == Entries(AppliedSamples(t, samples, count, series, now), series.kind)
  {
    if count == 0 {
    } else {
      var n := count - 1;
      BatchEntries(t, samples, n, series, now);
      SampleEntry(t, samples, n, series, now);
      EntriesConcat(AppliedSamples(t, samples, n, series, now),
                    if IsApplied(t, samples, n, series, now) then [samples[n]] else [], series.kind);
    }
  }

  lemma SampleEntry(t: Track, samples: seq<Sample>, n: nat, series: Series, now: int)
    requires TrackOk(t, now) && n < |samples|
    ensures AppliedInBatch(t, samples[..n + 1], series, now)
            == AppliedInBatch(t, samples[..n], series, now)
               + if IsApplied(t, samples, n, series, now) then Entries([samples[n]], series.kind) else []
  {
    var s := samples[n];
    assert samples[..n + 1][..n] == samples[..n];
    BatchIsOk(t, samples[..n], series, now);
    SampleTurn(IngestTrack(t, samples[..n], series, now), s, series,
               [s.previous, Look(Cursor(samples[..n]), s.interfaceId)], now);
  }

  lemma SampleTurn(t: Track, s: Sample, series: Series, candidates: seq<Option<int>>, now: int)
    requires TrackOk(t, now)
    ensures var (u, applied) := Observe(t, s.timestamp, DeltaFor(series.kind, s), candidates, now);
            && (applied <==> s.timestamp !in t.sources && s.timestamp in u.sources)
            && (Concerns(s, series) <==> s.interfaceId == series.interfaceId && HasEvents(series.kind, s))
  {
    ConcernsExactly(s, series);
    ObserveHasEffect(t, s.timestamp, DeltaFor(series.kind, s), candidates, now);
  }

  lemma {:induction false} RunEntries(w: World, events: seq<Event>, series: Series)
    requires TrackOk(TrackOf(w.db, series), w.clock) && Monotone(w, events)
    ensures AppliedInRun(w, events, series) == Entries(AppliedOver(w, events, series), series.kind)
  {
    if events == [] {
    } else {
      var earlier, e := events[..|events| - 1], events[|events| - 1];
      MonotonePrefix(w, events);
      RunEntries(w, earlier, series);
      EveryRunIsOk(w, earlier, series);
      ClockFollows(w, earlier);
      EventEntries(After(w, earlier), e, series);
      EntriesConcat(AppliedOver(w, earlier, series), AppliedInEvent(After(w, earlier), e, series), series.kind);
    }
  }

  lemma EntriesConcat(a: seq<Sample>, b: seq<Sample>, kind: OccurrenceType)
    ensures Entries(a + b, kind) == Entries(a, kind) + Entries(b, kind)
  {
  }

  lemma EventEntries(w: World, e: Event, series: Series)
    requires TrackOk(TrackOf(w.db, series), w.clock) && w.clock <= e.now
    ensures AppliedByEvent(w, e, series) == Entries(AppliedInEvent(w, e, series), series.kind)
  {
    TimePasses(TrackOf(w.db, series), w.clock, e.now);
    match e.action
    case Poll(samples, _) =>
      BatchEntries(TrackOf(w.db, series), samples, |samples|, series, e.now);
      assert samples[..|samples|] == samples;
    case _ =>
  }

  /**
   * Over every run the counts and totals of a fingerprint's episodes are those at the
   * start plus the number of samples applied to it and the sums of their clamped
   * counters, each booked under its own direction.
   */
  lemma TotalsAreSums(w: World, events: seq<Event>, series: Series)
    requires TrackOk(TrackOf(w.db, series), w.clock) && Monotone(w, events)
    ensures Booked(TrackOf(w.db, series).episodes, TrackOf(After(w, events).db, series).episodes,
                   AppliedOver(w, events, series), series.kind)
  {
    var before, after := TrackOf(w.db, series).episodes, TrackOf(After(w, events).db, series).episodes;
    EveryRunIsOk(w, events, series);
    RunEntries(w, events, series);
    LedgerIsPlain(before);
    LedgerIsPlain(after);
    EntriesArePlain(LedgerOf(before), AppliedOver(w, events, series), series.kind);
  }

  // ----- what a batch reports

  /** The sample's time is not yet among those applied under this type, and then is. */
  ghost predicate RecordsNow(before: Db, after: Db, s: Sample, kind: OccurrenceType) {
    && s.timestamp !in TrackOf(before, Series(s.interfaceId, kind)).sources
    && s.timestamp in TrackOf(after, Series(s.interfaceId, kind)).sources
  }

  /** How often the samples of a batch are newly recorded, under either type, each at its turn. */
  ghost function Recordings(db: Db, samples: seq<Sample>, now: int): nat {
    if samples == [] then 0
    else
      var earlier, s := samples[..|samples| - 1], samples[|samples| - 1];
      var before, after := Ingest(db, earlier, now).0, Ingest(db, samples, now).0;
      Recordings(db, earlier, now) + (if RecordsNow(before, after, s, CRC_FCS) then 1 else 0)
      + (if RecordsNow(before, after, s, DISCARDS) then 1 else 0)
  }

  lemma TypeIsRecorded(db: Db, kind: OccurrenceType, s: Sample, basis: Option<int>, now: int)
    ensures var (after, applied) := ObserveType(db, kind, s, basis, now);
            && (applied <==> RecordsNow(db, after, s, kind))
            && forall series :: series != Series(s.interfaceId, kind) ==> TrackOf(after, series) == TrackOf(db, series)
  {
  }

  /** The number a batch reports is that of the samples newly recorded, counted under each type. */
  lemma {:induction false} ReportIsExact(db: Db, samples: seq<Sample>, now: int)
    ensures Ingest(db, samples, now).1 == Recordings(db, samples, now)
  {
    if samples == [] {
    } else {
      var earlier, s := samples[..|samples| - 1], samples[|samples| - 1];
      var before, basis := Ingest(db, earlier, now).0, Look(Cursor(earlier), s.interfaceId);
      ReportIsExact(db, earlier, now);
      TypeIsRecorded(before, CRC_FCS, s, basis, now);
      TypeIsRecorded(ObserveType(before, CRC_FCS, s, basis, now).0, DISCARDS, s, basis, now);
    }
  }
}
