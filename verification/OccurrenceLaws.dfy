/** What every run of ingestion, acknowledgement and housekeeping keeps, and what a batch adds up to. */
module OccurrenceLaws {
  import opened Options
  import opened Grouping
  import opened OccurrenceRules
  import opened Occurrences

  /** 24 hours in milliseconds. */
  const DAY := 86_400_000

  // ----- the ledger: what episodes add up to

  /** Samples counted, errors summed, and the latest time seen. */
  datatype Ledger = Ledger(count: int, crc: int, rx: int, tx: int, seen: Option<int>)

  const EMPTY := Ledger(0, 0, 0, 0, None)

  function Later(a: Option<int>, b: Option<int>): Option<int> {
    if a.None? then b else if b.None? then a else Some(Max(a.value, b.value))
  }

  function Plus(a: Ledger, b: Ledger): Ledger {
    Ledger(a.count + b.count, a.crc + b.crc, a.rx + b.rx, a.tx + b.tx, Later(a.seen, b.seen))
  }

  function Entry(timestamp: int, delta: Delta): Ledger {
    Ledger(1, delta.crc, delta.rx, delta.tx, Some(timestamp))
  }

  function OfEpisode(e: Episode): Ledger {
    Ledger(e.values.count, e.values.crc, e.values.rx, e.values.tx, Some(e.values.lastSeen))
  }

  function LedgerOf(episodes: seq<Episode>): Ledger {
    if episodes == [] then EMPTY
    else Plus(LedgerOf(episodes[..|episodes| - 1]), OfEpisode(episodes[|episodes| - 1]))
  }

  lemma LedgerOneMore(episodes: seq<Episode>, e: Episode)
    ensures LedgerOf(episodes + [e]) == Plus(LedgerOf(episodes), OfEpisode(e))
  {
    assert (episodes + [e])[..|episodes|] == episodes;
  }

  lemma {:induction false} LedgerIgnoresMarks(a: seq<Episode>, b: seq<Episode>)
    requires |a| == |b| && forall i :: 0 <= i < |a| ==> a[i].values == b[i].values
    ensures LedgerOf(a) == LedgerOf(b)
  {
    if a == [] {
    } else {
      LedgerIgnoresMarks(a[..|a| - 1], b[..|b| - 1]);
    }
  }

  // ----- the invariant of one fingerprint

  ghost predicate ValuesOk(v: Values) {
    && v.firstSeen <= v.lastSeen == v.lastSample
    && v.count >= 1 && v.crc >= 0 && v.rx >= 0 && v.tx >= 0
    && 0.0 <= v.rate <= v.peak
  }

  ghost predicate EpisodeOk(e: Episode) {
    ValuesOk(e.values) && (e.acknowledgedAt.Some? ==> e.closedAt.Some?)
  }

  /** Each episode begins strictly after every earlier one was last seen. */
  ghost predicate Chained(episodes: seq<Episode>) {
    forall i, j :: 0 <= i < j < |episodes| ==> episodes[i].values.lastSeen < episodes[j].values.firstSeen
  }

  /** Only the newest episode can be the current one. */
  ghost predicate OneCurrent(episodes: seq<Episode>, now: int) {
    forall i :: 0 <= i < |episodes| - 1 ==> !Current(episodes[i], now)
  }

  ghost predicate SourcesOk(t: Track) {
    && (forall ts :: ts in t.sources ==> t.episodes != [] && ts <= t.episodes[|t.episodes| - 1].values.lastSample)
    && |t.sources| == LedgerOf(t.episodes).count
  }

  ghost predicate TrackOk(t: Track, now: int) {
    && (forall e :: e in t.episodes ==> EpisodeOk(e))
    && Chained(t.episodes) && OneCurrent(t.episodes, now) && SourcesOk(t)
  }

  ghost predicate DeltaOk(delta: Delta) {
    delta.crc >= 0 && delta.rx >= 0 && delta.tx >= 0
  }

  /** The latest episode of the query: no episode has a later sample, and no newer one has as late a sample. */
  lemma {:induction false} LatestIsGreatest(episodes: seq<Episode>)
    requires episodes != []
    ensures var id := Latest(episodes).value;
            forall i :: 0 <= i < |episodes| ==>
              episodes[i].values.lastSample <= episodes[id].values.lastSample
              && (i > id ==> episodes[i].values.lastSample < episodes[id].values.lastSample)
  {
    var last := |episodes| - 1;
    if last == 0 {
    } else {
      LatestIsGreatest(episodes[..last]);
      assert forall i :: 0 <= i < last ==> episodes[..last][i] == episodes[i];
    }
  }

  lemma LatestIsLast(t: Track, now: int)
    requires TrackOk(t, now) && t.episodes != []
    ensures Latest(t.episodes) == Some(|t.episodes| - 1)
  {
    var last := |t.episodes| - 1;
    LatestIsGreatest(t.episodes);
    assert t.episodes[last] in t.episodes && t.episodes[Latest(t.episodes).value] in t.episodes;
  }

  // ----- one sample

  /** The rate of a sample: over the time since the latest known moment before it. */
  function RateOf(t: Track, timestamp: int, delta: Delta, candidates: seq<Option<int>>): real {
    var last := if t.episodes == [] then None else Some(t.episodes[|t.episodes| - 1].values.lastSample);
    RatePerMinute(delta.total, Interval(timestamp, Basis(timestamp, candidates + [last])))
  }

  /** The current episode takes the sample in: a late one adds to the counts only. */
  ghost predicate Absorbs(e: Episode, f: Episode, timestamp: int, delta: Delta, rate: real) {
    var v, w := e.values, f.values;
    && f == e.(values := w)
    && w.firstSeen == v.firstSeen && w.count == v.count + 1
    && w.crc == v.crc + delta.crc && w.rx == v.rx + delta.rx && w.tx == v.tx + delta.tx
    && (if timestamp > v.lastSample then
          w.lastSeen == w.lastSample == timestamp && w.rate == rate
          && w.peak == (if v.peak >= rate then v.peak else rate)
        else w.lastSeen == v.lastSeen && w.lastSample == v.lastSample && w.rate == v.rate && w.peak == v.peak)
  }

  /** A superseded episode: unchanged, or closed at the end of its own 24 hours. */
  ghost predicate Superseded(e: Episode, f: Episode, timestamp: int) {
    if e.closedAt.None? && e.values.lastSeen + DAY <= timestamp then
      f == e.(closedAt := Some(e.values.lastSeen + DAY), closeReason := Some(QUIET_24H))
    else f == e
  }

  ghost predicate Begins(f: Episode, timestamp: int, delta: Delta, rate: real) {
    var w := f.values;
    && w.firstSeen == w.lastSeen == w.lastSample == timestamp && w.count == 1
    && w.crc == delta.crc && w.rx == delta.rx && w.tx == delta.tx && w.rate == w.peak == rate
    && f.acknowledgedAt.None? && f.closedAt.None?
  }

  ghost predicate HasCurrent(t: Track, now: int) {
    t.episodes != [] && Current(t.episodes[|t.episodes| - 1], now)
  }

  /** When a sample is applied at all. */
  ghost predicate Admits(t: Track, timestamp: int, now: int) {
    && timestamp !in t.sources
    && (HasCurrent(t, now) || t.episodes == [] || timestamp > t.episodes[|t.episodes| - 1].values.lastSample)
  }

  ghost predicate Effect(t: Track, u: Track, timestamp: int, delta: Delta, rate: real, now: int) {
    var n := |t.episodes|;
    && u.sources == t.sources + {timestamp}
    && if HasCurrent(t, now) then
         |u.episodes| == n && u.episodes[..n - 1] == t.episodes[..n - 1]
         && Absorbs(t.episodes[n - 1], u.episodes[n - 1], timestamp, delta, rate)
       else
         |u.episodes| == n + 1 && Begins(u.episodes[n], timestamp, delta, rate)
         && (n > 0 ==>
               u.episodes[..n - 1] == t.episodes[..n - 1]
               && Superseded(t.episodes[n - 1], u.episodes[n - 1], timestamp))
  }

  lemma ObserveHasEffect(t: Track, timestamp: int, delta: Delta, candidates: seq<Option<int>>, now: int)
    requires TrackOk(t, now)
    ensures var (u, applied) := Observe(t, timestamp, delta, candidates, now);
            && (applied <==> Admits(t, timestamp, now))
            && (if applied then Effect(t, u, timestamp, delta, RateOf(t, timestamp, delta, candidates), now)
                else u == t)
  {
    if t.episodes != [] {
      LatestIsLast(t, now);
      var e := t.episodes[|t.episodes| - 1];
      assert e in t.episodes;
    }
  }

  /** Every sample that is not applied is at most as late as the latest sample of the newest episode. */
  lemma OnlyOldSamplesAreIgnored(t: Track, timestamp: int, delta: Delta, candidates: seq<Option<int>>, now: int)
    requires TrackOk(t, now) && !Observe(t, timestamp, delta, candidates, now).1
    ensures t.episodes != [] && timestamp <= t.episodes[|t.episodes| - 1].values.lastSample
  {
    ObserveHasEffect(t, timestamp, delta, candidates, now);
  }

  /**
   * The same episode later: its beginning stays and its count never falls; one that is
   * closed or no longer the newest keeps its values, a closed one its end, and an
   * acknowledged one everything.
   */
  ghost predicate SameEpisodeLater(e: Episode, f: Episode, newest: bool) {
    && f.values.firstSeen == e.values.firstSeen && f.values.count >= e.values.count
    && (e.closedAt.Some? || !newest ==> f.values == e.values)
    && (e.closedAt.Some? ==> f.closedAt == e.closedAt && f.closeReason == e.closeReason)
    && (e.acknowledgedAt.Some? ==> f == e)
  }

  ghost predicate TrackLater(t: Track, u: Track) {
    && |t.episodes| <= |u.episodes|
    && forall i :: 0 <= i < |t.episodes| ==>
         SameEpisodeLater(t.episodes[i], u.episodes[i], i == |t.episodes| - 1)
  }

  lemma LaterIsTransitive(t: Track, u: Track, v: Track)
    requires TrackLater(t, u) && TrackLater(u, v)
    ensures TrackLater(t, v)
  {
    forall i | 0 <= i < |t.episodes|
      ensures SameEpisodeLater(t.episodes[i], v.episodes[i], i == |t.episodes| - 1)
    {
      assert SameEpisodeLater(t.episodes[i], u.episodes[i], i == |t.episodes| - 1);
      assert SameEpisodeLater(u.episodes[i], v.episodes[i], i == |u.episodes| - 1);
    }
  }

  lemma ObserveIsLater(t: Track, timestamp: int, delta: Delta, candidates: seq<Option<int>>, now: int)
    requires TrackOk(t, now)
    ensures TrackLater(t, Observe(t, timestamp, delta, candidates, now).0)
  {
    ObserveHasEffect(t, timestamp, delta, candidates, now);
    var u, n := Observe(t, timestamp, delta, candidates, now).0, |t.episodes|;
    forall i | 0 <= i < n ensures SameEpisodeLater(t.episodes[i], u.episodes[i], i == n - 1) {
      assert t.episodes[i] in t.episodes;
      if i < n - 1 && u != t {
        assert u.episodes[i] == u.episodes[..n - 1][i] && t.episodes[i] == t.episodes[..n - 1][i];
      }
    }
  }

  /** An acknowledged episode is closed already, so no supersession is ever recorded as an acknowledgement. */
  lemma SupersededIsNeverAcknowledged(t: Track, timestamp: int, delta: Delta, candidates: seq<Option<int>>, now: int)
    requires TrackOk(t, now)
    ensures var plan := Planned(t, timestamp, delta, candidates, now);
            plan.CREATE? && plan.close.Some? ==>
              plan.close.value.reason == QUIET_24H && plan.close.value.closedAt <= timestamp
  {
    if t.episodes != [] {
      LatestIsLast(t, now);
      assert t.episodes[|t.episodes| - 1] in t.episodes;
    }
  }

  /**
   * A newest episode that is open but no longer current stays open beside its
   * successor exactly when the sample lies within 24 hours of it: the test of the
   * clock and the test of the sample's time disagree.
   */
  lemma TwoEpisodesStayOpen(t: Track, timestamp: int, delta: Delta, candidates: seq<Option<int>>, now: int)
    requires TrackOk(t, now) && t.episodes != []
    requires var e := t.episodes[|t.episodes| - 1];
             e.closedAt.None? && !Current(e, now) && timestamp > e.values.lastSample
    ensures var n := |t.episodes|;
            var u := Observe(t, timestamp, delta, candidates, now).0;
            && |u.episodes| == n + 1 && u.episodes[n].closedAt.None?
            && (u.episodes[n - 1].closedAt.None? <==> timestamp < t.episodes[n - 1].values.lastSeen + DAY)
  {
    ObserveHasEffect(t, timestamp, delta, candidates, now);
  }

  /**
   * A sample ignored for being older than the newest, ended episode is not recorded as
   * processed: once a later sample has begun an episode, replaying it counts it exactly
   * when that episode is current by then, that is when its sample lies within 24 hours of
   * the clock of the replay.
   */
  lemma IgnoredSampleCountsOnReplay(t: Track, past: Observation, next: Observation, now: int, later: int)
    requires TrackOk(t, now) && DeltaOk(next.delta) && t.episodes != [] && !HasCurrent(t, now) && now <= later
    requires past.timestamp !in t.sources
    requires past.timestamp <= t.episodes[|t.episodes| - 1].values.lastSample < next.timestamp
    ensures !Observed(t, past, now).1
    ensures var u := Observed(t, next, now).0;
            Observed(u, past, later).1 <==> later - next.timestamp < DAY
  {
    ObserveHasEffect(t, past.timestamp, past.delta, past.candidates, now);
    AdmittedAfterwards(t, past.timestamp, next, now, later);
    ObserveHasEffect(Observed(t, next, now).0, past.timestamp, past.delta, past.candidates, later);
  }

  /** A sample as one fingerprint sees it: its time, its delta and the known moments before it. */
  datatype Observation = Observation(timestamp: int, delta: Delta, candidates: seq<Option<int>>)

  function Observed(t: Track, o: Observation, now: int): (Track, bool) {
    Observe(t, o.timestamp, o.delta, o.candidates, now)
  }

  lemma AdmittedAfterwards(t: Track, past: int, next: Observation, now: int, later: int)
    requires TrackOk(t, now) && DeltaOk(next.delta) && t.episodes != [] && !HasCurrent(t, now) && now <= later
    requires past !in t.sources && past <= t.episodes[|t.episodes| - 1].values.lastSample < next.timestamp
    ensures var u := Observed(t, next, now).0;
            TrackOk(u, later) && (Admits(u, past, later) <==> later - next.timestamp < DAY)
  {
    ObserveHasEffect(t, next.timestamp, next.delta, next.candidates, now);
    ObserveIsOk(t, next.timestamp, next.delta, next.candidates, now);
    TimePasses(Observed(t, next, now).0, now, later);
  }

  // ----- the invariant is kept

  lemma ObserveIsOk(t: Track, timestamp: int, delta: Delta, candidates: seq<Option<int>>, now: int)
    requires TrackOk(t, now) && DeltaOk(delta)
    ensures var (u, applied) := Observe(t, timestamp, delta, candidates, now);
            && TrackOk(u, now)
            && LedgerOf(u.episodes) == if applied then Plus(LedgerOf(t.episodes), Entry(timestamp, delta))
                else LedgerOf(t.episodes)
  {
    var (u, applied) := Observe(t, timestamp, delta, candidates, now);
    ObserveHasEffect(t, timestamp, delta, candidates, now);
    if applied {
      ObserveKeepsEpisodesOk(t, timestamp, delta, candidates, now);
      EffectKeepsLedger(t, u, timestamp, delta, RateOf(t, timestamp, delta, candidates), now);
      EffectKeepsOrder(t, u, timestamp, delta, RateOf(t, timestamp, delta, candidates), now);
    }
  }

  lemma PlannedValuesAreOk(t: Track, timestamp: int, delta: Delta, candidates: seq<Option<int>>, now: int)
    requires TrackOk(t, now) && DeltaOk(delta)
    ensures var plan := Planned(t, timestamp, delta, candidates, now); plan.IGNORE? || ValuesOk(plan.values)
  {
    if t.episodes != [] {
      LatestIsLast(t, now);
      var e := t.episodes[|t.episodes| - 1];
      assert e in t.episodes;
      RateIsNonNegative(delta.total, Interval(timestamp, Basis(timestamp, candidates + [Some(e.values.lastSample)])));
    } else {
      RateIsNonNegative(delta.total, Interval(timestamp, Basis(timestamp, candidates + [None])));
    }
  }

  lemma ApplyKeepsEpisodesOk(t: Track, timestamp: int, plan: Plan)
    requires forall e :: e in t.episodes ==> EpisodeOk(e)
    requires (plan.UPDATE? ==> plan.targetId < |t.episodes|) && (plan.IGNORE? || ValuesOk(plan.values))
    ensures forall e :: e in Apply(t, timestamp, plan).0.episodes ==> EpisodeOk(e)
  {
    var u := Apply(t, timestamp, plan).0;
    forall i | 0 <= i < |u.episodes| ensures EpisodeOk(u.episodes[i]) {
      assert i < |t.episodes| ==> t.episodes[i] in t.episodes;
    }
  }

  lemma ObserveKeepsEpisodesOk(t: Track, timestamp: int, delta: Delta, candidates: seq<Option<int>>, now: int)
    requires TrackOk(t, now) && DeltaOk(delta)
    ensures forall e :: e in Observe(t, timestamp, delta, candidates, now).0.episodes ==> EpisodeOk(e)
  {
    PlannedValuesAreOk(t, timestamp, delta, candidates, now);
    ApplyKeepsEpisodesOk(t, timestamp, Planned(t, timestamp, delta, candidates, now));
  }

  lemma EffectKeepsOrder(t: Track, u: Track, timestamp: int, delta: Delta, rate: real, now: int)
    requires TrackOk(t, now) && Effect(t, u, timestamp, delta, rate, now) && Admits(t, timestamp, now)
    requires forall e :: e in u.episodes ==> EpisodeOk(e)
    ensures Chained(u.episodes) && OneCurrent(u.episodes, now)
    ensures forall ts :: ts in u.sources ==> u.episodes != [] && ts <= u.episodes[|u.episodes| - 1].values.lastSample
  {
    var n := |t.episodes|;
    forall i | 0 <= i < n - 1 ensures u.episodes[i] == t.episodes[i] {
      assert u.episodes[..n - 1][i] == t.episodes[..n - 1][i];
    }
    if n > 0 {
      assert t.episodes[n - 1] in t.episodes;
    }
  }

  lemma EffectKeepsLedger(t: Track, u: Track, timestamp: int, delta: Delta, rate: real, now: int)
    requires TrackOk(t, now) && Effect(t, u, timestamp, delta, rate, now) && timestamp !in t.sources
    requires !HasCurrent(t, now) && t.episodes != [] ==> timestamp > t.episodes[|t.episodes| - 1].values.lastSample
    ensures LedgerOf(u.episodes) == Plus(LedgerOf(t.episodes), Entry(timestamp, delta))
    ensures |u.sources| == LedgerOf(u.episodes).count
  {
    var n := |t.episodes|;
    if HasCurrent(t, now) {
      assert t.episodes[n - 1] in t.episodes;
      AbsorbedLedger(LedgerOf(t.episodes[..n - 1]), t.episodes[n - 1], u.episodes[n - 1], timestamp, delta, rate);
    } else {
      assert u.episodes == u.episodes[..n] + [u.episodes[n]];
      LedgerOneMore(u.episodes[..n], u.episodes[n]);
      forall i | 0 <= i < n ensures u.episodes[..n][i].values == t.episodes[i].values {
        if i < n - 1 {
          assert u.episodes[..n - 1][i] == t.episodes[..n - 1][i];
        }
      }
      LedgerIgnoresMarks(u.episodes[..n], t.episodes);
    }
  }

  lemma AbsorbedLedger(before: Ledger, e: Episode, f: Episode, timestamp: int, delta: Delta, rate: real)
    requires Absorbs(e, f, timestamp, delta, rate) && e.values.lastSeen == e.values.lastSample
    ensures Plus(before, OfEpisode(f)) == Plus(Plus(before, OfEpisode(e)), Entry(timestamp, delta))
  {
  }

  // ----- the batch cursor

  ghost predicate IsLatestTime(samples: seq<Sample>, interfaceId: string, time: int) {
    && (exists s :: s in samples && s.interfaceId == interfaceId && s.timestamp == time)
    && (forall s :: s in samples && s.interfaceId == interfaceId ==> s.timestamp <= time)
  }

  /** The cursor of an interface is the latest of its times among the samples before. */
  lemma {:induction false} CursorIsLatest(samples: seq<Sample>, interfaceId: string)
    ensures match Look(Cursor(samples), interfaceId)
            case Some(time) => IsLatestTime(samples, interfaceId, time)
            case None => forall s :: s in samples ==> s.interfaceId != interfaceId
  {
    if samples == [] {
    } else {
      var last := |samples| - 1;
      CursorIsLatest(samples[..last], interfaceId);
      assert samples == samples[..last] + [samples[last]];
      assert samples[last] in samples;
      assert forall s :: s in samples[..last] ==> s in samples;
    }
  }

  // ----- fingerprints do not interfere

  /** What a batch does to one fingerprint. */
  function IngestTrack(t: Track, samples: seq<Sample>, series: Series, now: int): Track {
    if samples == [] then t
    else
      var last := |samples| - 1;
      var before, s := IngestTrack(t, samples[..last], series, now), samples[last];
      if Concerns(s, series) then
        Observe(before, s.timestamp, DeltaFor(series.kind, s),
                [s.previous, Look(Cursor(samples[..last]), s.interfaceId)], now).0
      else before
  }

  predicate Concerns(s: Sample, series: Series) {
    s.interfaceId == series.interfaceId && DeltaFor(series.kind, s).total != 0
  }

  lemma ObserveTypeIsLocal(db: Db, kind: OccurrenceType, s: Sample, basis: Option<int>, now: int, series: Series)
    ensures TrackOf(ObserveType(db, kind, s, basis, now).0, series) ==
            if kind == series.kind && Concerns(s, series) then
              Observe(TrackOf(db, series), s.timestamp, DeltaFor(kind, s), [s.previous, basis], now).0
            else TrackOf(db, series)
  {
  }

  lemma {:induction false} IngestIsLocal(db: Db, samples: seq<Sample>, series: Series, now: int)
    ensures TrackOf(Ingest(db, samples, now).0, series) == IngestTrack(TrackOf(db, series), samples, series, now)
  {
    if samples == [] {
    } else {
      var last := |samples| - 1;
      var s := samples[last];
      var before, basis := Ingest(db, samples[..last], now).0, Look(Cursor(samples[..last]), s.interfaceId);
      IngestIsLocal(db, samples[..last], series, now);
      var middle := ObserveType(before, CRC_FCS, s, basis, now).0;
      ObserveTypeIsLocal(before, CRC_FCS, s, basis, now, series);
      ObserveTypeIsLocal(middle, DISCARDS, s, basis, now, series);
    }
  }

  /** Samples that were all applied before change nothing when they come again. */
  lemma {:induction false} ReplayIsIgnored(t: Track, samples: seq<Sample>, series: Series, now: int)
    requires TrackOk(t, now) && forall s :: s in samples && Concerns(s, series) ==> s.timestamp in t.sources
    ensures IngestTrack(t, samples, series, now) == t
  {
    if samples == [] {
    } else {
      var last := |samples| - 1;
      var s := samples[last];
      ReplayIsIgnored(t, samples[..last], series, now);
      assert s in samples;
      ObserveHasEffect(t, s.timestamp, DeltaFor(series.kind, s),
                       [s.previous, Look(Cursor(samples[..last]), s.interfaceId)], now);
    }
  }

  // ----- accounting over a batch

  /** The ledger entries of the samples of a batch that are applied to a fingerprint. */
  function AppliedInBatch(t: Track, samples: seq<Sample>, series: Series, now: int): seq<Ledger> {
    if samples == [] then []
    else
      var last := |samples| - 1;
      var before, s := IngestTrack(t, samples[..last], series, now), samples[last];
      AppliedInBatch(t, samples[..last], series, now)
      + if Concerns(s, series)
           && Observe(before, s.timestamp, DeltaFor(series.kind, s),
                      [s.previous, Look(Cursor(samples[..last]), s.interfaceId)], now).1
        then [Entry(s.timestamp, DeltaFor(series.kind, s))] else []
  }

  /** A ledger after some entries. */
  function Add(ledger: Ledger, entries: seq<Ledger>): Ledger {
    if entries == [] then ledger else Plus(Add(ledger, entries[..|entries| - 1]), entries[|entries| - 1])
  }

  lemma {:induction false} AddConcat(ledger: Ledger, a: seq<Ledger>, b: seq<Ledger>)
    ensures Add(ledger, a + b) == Add(Add(ledger, a), b)
  {
    if b == [] {
      assert a + b == a;
    } else {
      assert (a + b)[..|a + b| - 1] == a + b[..|b| - 1];
      AddConcat(ledger, a, b[..|b| - 1]);
    }
  }

  lemma {:induction false} BatchIsOk(t: Track, samples: seq<Sample>, series: Series, now: int)
    requires TrackOk(t, now)
    ensures var u := IngestTrack(t, samples, series, now);
            TrackOk(u, now)
            && LedgerOf(u.episodes) == Add(LedgerOf(t.episodes), AppliedInBatch(t, samples, series, now))
  {
    if samples == [] {
    } else {
      var last := |samples| - 1;
      var s := samples[last];
      BatchIsOk(t, samples[..last], series, now);
      var earlier := AppliedInBatch(t, samples[..last], series, now);
      if Concerns(s, series) {
        var before, entry := IngestTrack(t, samples[..last], series, now), Entry(s.timestamp, DeltaFor(series.kind, s));
        ObserveIsOk(before, s.timestamp, DeltaFor(series.kind, s),
                    [s.previous, Look(Cursor(samples[..last]), s.interfaceId)], now);
        assert (earlier + [entry])[..|earlier|] == earlier;
      }
      assert earlier + [] == earlier;
    }
  }

  // ----- closing and acknowledging

  /** Housekeeping closes exactly the chosen quiet episodes, at the end of their 24 hours, and that end has passed. */
  lemma QuietClosingIsExact(db: Db, chosen: set<Ref>, now: int, ref: Ref)
    requires Exists(db, ref)
    ensures var e, f := db[ref.series].episodes[ref.id], CloseQuiet(db, chosen, now)[ref.series].episodes[ref.id];
            if ref in chosen && e.closedAt.None? && e.values.lastSeen + DAY < now then
              f == e.(closedAt := Some(e.values.lastSeen + DAY), closeReason := Some(QUIET_24H))
              && f.closedAt.value < now
            else f == e
  {
    assert ref == Ref(ref.series, ref.id);
  }

  /**
   * The first acknowledgement stays, closes an open episode, keeps the end and reason
   * of one already closed, and touches no other episode.
   */
  lemma AcknowledgingIsExact(db: Db, ref: Ref, now: int, later: int, other: Ref)
    ensures var (after, result) := Acknowledge(db, ref, now);
            && (result == DONE <==> Exists(db, ref) && db[ref.series].episodes[ref.id].acknowledgedAt.None?)
            && (result != DONE ==> after == db)
            && (result == DONE ==>
                  Acknowledge(after, ref, later) == (after, ALREADY)
                  && var e, f := db[ref.series].episodes[ref.id], after[ref.series].episodes[ref.id];
                     f.acknowledgedAt == Some(now) && f.values == e.values && !Current(f, later)
                     && (if e.closedAt.Some? then f.closedAt == e.closedAt && f.closeReason == e.closeReason
                         else f.closedAt == Some(now) && f.closeReason == Some(ACKNOWLEDGED)))
            && (other != ref && Exists(db, other) ==>
                  Exists(after, other) && after[other.series].episodes[other.id] == db[other.series].episodes[other.id])
  {
  }

  // ----- whole runs

  datatype World = World(db: Db, lastHousekeeping: int, clock: int)

  datatype Action = Poll(samples: seq<Sample>, chosen: set<Ref>) | Acking(ref: Ref) | Restarting

  datatype Event = Event(action: Action, now: int)

  function Act(w: World, e: Event): World {
    match e.action
    case Poll(samples, chosen) =>
      var swept := Housekeep(Ingest(w.db, samples, e.now).0, w.lastHousekeeping, chosen, e.now);
      World(swept.0, swept.1, e.now)
    case Acking(ref) => World(Acknowledge(w.db, ref, e.now).0, w.lastHousekeeping, e.now)
    case Restarting => World(w.db, 0, e.now)
  }

  function After(w: World, events: seq<Event>): World {
    if events == [] then w else Act(After(w, events[..|events| - 1]), events[|events| - 1])
  }

  function AppliedByEvent(w: World, e: Event, series: Series): seq<Ledger> {
    match e.action
    case Poll(samples, _) => AppliedInBatch(TrackOf(w.db, series), samples, series, e.now)
    case _ => []
  }

  function AppliedInRun(w: World, events: seq<Event>, series: Series): seq<Ledger> {
    if events == [] then []
    else
      var last := |events| - 1;
      AppliedInRun(w, events[..last], series) + AppliedByEvent(After(w, events[..last]), events[last], series)
  }

  function TimeBefore(w: World, events: seq<Event>, k: nat): int
    requires k <= |events|
  {
    if k == 0 then w.clock else events[k - 1].now
  }

  ghost predicate Monotone(w: World, events: seq<Event>) {
    forall k :: 0 <= k < |events| ==> TimeBefore(w, events, k) <= events[k].now
  }

  lemma MonotonePrefix(w: World, events: seq<Event>)
    requires Monotone(w, events) && events != []
    ensures Monotone(w, events[..|events| - 1])
    ensures TimeBefore(w, events, |events| - 1) <= events[|events| - 1].now
  {
    var before := events[..|events| - 1];
    forall k | 0 <= k < |before| ensures TimeBefore(w, before, k) <= before[k].now {
      assert TimeBefore(w, before, k) == TimeBefore(w, events, k) && before[k] == events[k];
    }
  }

  lemma {:induction false} ClockFollows(w: World, events: seq<Event>)
    ensures After(w, events).clock == TimeBefore(w, events, |events|)
  {
  }

  lemma TimePasses(t: Track, now: int, later: int)
    requires TrackOk(t, now) && now <= later
    ensures TrackOk(t, later)
  {
    assert forall e :: Current(e, later) ==> Current(e, now);
  }

  /** Marking episodes closed or acknowledged changes no value and makes nothing current. */
  lemma MarkingIsOk(t: Track, u: Track, now: int)
    requires TrackOk(t, now) && u.sources == t.sources && |u.episodes| == |t.episodes|
    requires forall i :: 0 <= i < |t.episodes| ==>
               u.episodes[i].values == t.episodes[i].values
               && (t.episodes[i].closedAt.Some? ==> u.episodes[i].closedAt.Some?)
               && (u.episodes[i].acknowledgedAt.Some? ==> u.episodes[i].closedAt.Some?)
               && (t.episodes[i].acknowledgedAt.Some? ==> u.episodes[i].acknowledgedAt.Some?)
    ensures TrackOk(u, now) && LedgerOf(u.episodes) == LedgerOf(t.episodes)
  {
    LedgerIgnoresMarks(u.episodes, t.episodes);
    forall i | 0 <= i < |u.episodes| ensures EpisodeOk(u.episodes[i]) {
      assert t.episodes[i] in t.episodes;
    }
  }

  lemma HousekeepingIsOk(db: Db, last: int, chosen: set<Ref>, now: int, series: Series)
    requires TrackOk(TrackOf(db, series), now)
    ensures var t, u := TrackOf(db, series), TrackOf(Housekeep(db, last, chosen, now).0, series);
            TrackOk(u, now) && LedgerOf(u.episodes) == LedgerOf(t.episodes)
  {
    if series in db && now - last >= HOUSEKEEPING_INTERVAL_MS {
      var t := db[series];
      assert forall i :: 0 <= i < |t.episodes| ==> t.episodes[i] in t.episodes;
      MarkingIsOk(t, CloseChosen(t, series, chosen, now), now);
    }
  }

  lemma MarkIsOk(db: Db, ref: Ref, now: int, series: Series)
    requires TrackOk(TrackOf(db, series), now)
    ensures var t, u := TrackOf(db, series), TrackOf(Acknowledge(db, ref, now).0, series);
            TrackOk(u, now) && LedgerOf(u.episodes) == LedgerOf(t.episodes)
  {
    var t, u := TrackOf(db, series), TrackOf(Acknowledge(db, ref, now).0, series);
    if u != t {
      assert forall i :: 0 <= i < |t.episodes| ==> t.episodes[i] in t.episodes;
      MarkingIsOk(t, u, now);
    }
  }

  lemma AcknowledgingIsOk(w: World, ref: Ref, now: int, series: Series)
    requires TrackOk(TrackOf(w.db, series), now)
    ensures var t, u := TrackOf(w.db, series), TrackOf(Act(w, Event(Acking(ref), now)).db, series);
            TrackOk(u, now) && LedgerOf(u.episodes) == LedgerOf(t.episodes)
  {
    MarkIsOk(w.db, ref, now, series);
    assert Act(w, Event(Acking(ref), now)).db == Acknowledge(w.db, ref, now).0;
  }

  lemma PollIsOk(w: World, samples: seq<Sample>, chosen: set<Ref>, now: int, series: Series)
    requires TrackOk(TrackOf(w.db, series), now)
    ensures var t, u := TrackOf(w.db, series), TrackOf(Act(w, Event(Poll(samples, chosen), now)).db, series);
            TrackOk(u, now)
            && LedgerOf(u.episodes) == Add(LedgerOf(t.episodes), AppliedInBatch(t, samples, series, now))
  {
    var t, db := TrackOf(w.db, series), Ingest(w.db, samples, now).0;
    IngestIsLocal(w.db, samples, series, now);
    BatchIsOk(t, samples, series, now);
    HousekeepingIsOk(db, w.lastHousekeeping, chosen, now, series);
    assert Act(w, Event(Poll(samples, chosen), now)).db == Housekeep(db, w.lastHousekeeping, chosen, now).0;
  }

  lemma ActIsOk(w: World, e: Event, series: Series)
    requires TrackOk(TrackOf(w.db, series), w.clock) && w.clock <= e.now
    ensures var t, u := TrackOf(w.db, series), TrackOf(Act(w, e).db, series);
            TrackOk(u, e.now) && LedgerOf(u.episodes) == Add(LedgerOf(t.episodes), AppliedByEvent(w, e, series))
  {
    var t := TrackOf(w.db, series);
    TimePasses(t, w.clock, e.now);
    match e.action
    case Poll(samples, chosen) =>
      PollIsOk(w, samples, chosen, e.now, series);
      assert e == Event(Poll(samples, chosen), e.now);
    case Acking(ref) =>
      AcknowledgingIsOk(w, ref, e.now, series);
      assert e == Event(Acking(ref), e.now);
    case Restarting =>
  }

  /**
   * Over every run under a clock that never goes back: at most one episode of a
   * fingerprint is current, last seen is last sampled, each episode begins after
   * the one before was last seen; and the counts, the error and discard totals and
   * the latest time of all its episodes are those of the samples applied.
   */
  lemma {:induction false} EveryRunIsOk(w: World, events: seq<Event>, series: Series)
    requires TrackOk(TrackOf(w.db, series), w.clock) && Monotone(w, events)
    ensures var v := After(w, events);
            && TrackOk(TrackOf(v.db, series), v.clock)
            && LedgerOf(TrackOf(v.db, series).episodes) ==
               Add(LedgerOf(TrackOf(w.db, series).episodes), AppliedInRun(w, events, series))
  {
    if events == [] {
    } else {
      var last := |events| - 1;
      var before, e := After(w, events[..last]), events[last];
      MonotonePrefix(w, events);
      ClockFollows(w, events[..last]);
      EveryRunIsOk(w, events[..last], series);
      ActIsOk(before, e, series);
      assert After(w, events) == Act(before, e) && Act(before, e).clock == e.now;
      var earlier, added := AppliedInRun(w, events[..last], series), AppliedByEvent(before, e, series);
      AddConcat(LedgerOf(TrackOf(w.db, series).episodes), earlier, added);
    }
  }

  // ----- what has ended stays as it ended

  lemma {:induction false} BatchIsLater(t: Track, samples: seq<Sample>, series: Series, now: int)
    requires TrackOk(t, now)
    ensures TrackLater(t, IngestTrack(t, samples, series, now))
  {
    if samples == [] {
    } else {
      var earlier, s := samples[..|samples| - 1], samples[|samples| - 1];
      var u := IngestTrack(t, earlier, series, now);
      BatchIsLater(t, earlier, series, now);
      BatchIsOk(t, earlier, series, now);
      if Concerns(s, series) {
        var candidates := [s.previous, Look(Cursor(earlier), s.interfaceId)];
        ObserveIsLater(u, s.timestamp, DeltaFor(series.kind, s), candidates, now);
        LaterIsTransitive(t, u, Observe(u, s.timestamp, DeltaFor(series.kind, s), candidates, now).0);
      }
    }
  }

  lemma HousekeepingIsLater(db: Db, last: int, chosen: set<Ref>, now: int, series: Series)
    requires TrackOk(TrackOf(db, series), now)
    ensures TrackLater(TrackOf(db, series), TrackOf(Housekeep(db, last, chosen, now).0, series))
  {
    var t := TrackOf(db, series);
    assert forall i :: 0 <= i < |t.episodes| ==> t.episodes[i] in t.episodes;
  }

  lemma AcknowledgingIsLater(db: Db, ref: Ref, now: int, series: Series)
    ensures TrackLater(TrackOf(db, series), TrackOf(Acknowledge(db, ref, now).0, series))
  {
  }

  lemma ActIsLater(w: World, e: Event, series: Series)
    requires TrackOk(TrackOf(w.db, series), w.clock) && w.clock <= e.now
    ensures TrackLater(TrackOf(w.db, series), TrackOf(Act(w, e).db, series))
  {
    var t := TrackOf(w.db, series);
    match e.action
    case Poll(samples, chosen) =>
      var db := Ingest(w.db, samples, e.now).0;
      TimePasses(t, w.clock, e.now);
      IngestIsLocal(w.db, samples, series, e.now);
      BatchIsLater(t, samples, series, e.now);
      BatchIsOk(t, samples, series, e.now);
      HousekeepingIsLater(db, w.lastHousekeeping, chosen, e.now, series);
      LaterIsTransitive(t, TrackOf(db, series), TrackOf(Act(w, e).db, series));
    case Acking(ref) => AcknowledgingIsLater(w.db, ref, e.now, series);
    case Restarting =>
  }

  /**
   * Over every run under a clock that never goes back no episode disappears, none begins
   * anew, and those that are closed, acknowledged or succeeded never receive another
   * sample: they keep their values, and the closed ones their end, for good.
   */
  lemma {:induction false} ClosedNeverGrows(w: World, events: seq<Event>, series: Series)
    requires TrackOk(TrackOf(w.db, series), w.clock) && Monotone(w, events)
    ensures TrackLater(TrackOf(w.db, series), TrackOf(After(w, events).db, series))
  {
    if events == [] {
    } else {
      var earlier, e := events[..|events| - 1], events[|events| - 1];
      var before := After(w, earlier);
      MonotonePrefix(w, events);
      ClockFollows(w, earlier);
      EveryRunIsOk(w, earlier, series);
      ClosedNeverGrows(w, earlier, series);
      ActIsLater(before, e, series);
      LaterIsTransitive(TrackOf(w.db, series), TrackOf(before.db, series), TrackOf(Act(before, e).db, series));
    }
  }

  lemma NothingSeenIsOk(now: int)
    ensures TrackOk(Track([], {}), now)
  {
  }

  // ----- the order of a batch

  /** What a sample adds when every sample of its fingerprint is admitted. */
  function AddShare(ledger: Ledger, s: Sample, series: Series, sources: set<int>): Ledger {
    if Concerns(s, series) && s.timestamp !in sources then Plus(ledger, Entry(s.timestamp, DeltaFor(series.kind, s)))
    else ledger
  }

  function AddShares(ledger: Ledger, samples: seq<Sample>, series: Series, sources: set<int>): Ledger {
    if samples == [] then ledger
    else AddShare(AddShares(ledger, samples[..|samples| - 1], series, sources), samples[|samples| - 1], series, sources)
  }

  ghost predicate Live(t: Track, now: int) {
    t.episodes == [] || HasCurrent(t, now)
  }

  /** Distinct times, all within 24 hours of the clock. */
  ghost predicate FreshBatch(samples: seq<Sample>, series: Series, now: int) {
    && (forall s :: s in samples && Concerns(s, series) ==> now - s.timestamp < DAY)
    && (forall i, j :: 0 <= i < j < |samples| && Concerns(samples[i], series) && Concerns(samples[j], series) ==>
          samples[i].timestamp != samples[j].timestamp)
  }

  lemma EffectKeepsLive(t: Track, u: Track, timestamp: int, delta: Delta, rate: real, now: int)
    requires TrackOk(t, now) && Live(t, now) && Effect(t, u, timestamp, delta, rate, now) && now - timestamp < DAY
    ensures Live(u, now)
  {
    if HasCurrent(t, now) {
      assert t.episodes[|t.episodes| - 1] in t.episodes;
    }
  }

  /** The times of the samples that concern a fingerprint. */
  ghost function Times(samples: seq<Sample>, series: Series): set<int> {
    set s | s in samples && Concerns(s, series) :: s.timestamp
  }

  lemma TimesOneMore(before: seq<Sample>, s: Sample, series: Series)
    ensures Times(before + [s], series) == Times(before, series) + if Concerns(s, series) then {s.timestamp} else {}
  {
  }

  lemma LastIsFresh(before: seq<Sample>, s: Sample, series: Series, now: int)
    requires FreshBatch(before + [s], series, now)
    ensures FreshBatch(before, series, now)
    ensures Concerns(s, series) ==> s.timestamp !in Times(before, series) && now - s.timestamp < DAY
  {
    var all := before + [s];
    assert all[|before|] == s && s in all;
    assert forall i :: 0 <= i < |before| ==> all[i] == before[i];
    forall x | x in before && Concerns(x, series) ensures Concerns(s, series) ==> x.timestamp != s.timestamp {
      var i :| 0 <= i < |before| && before[i] == x;
      assert all[i] == x;
    }
  }

  /** What a fresh batch makes of a track. */
  ghost predicate AddsUp(t: Track, u: Track, samples: seq<Sample>, series: Series, now: int) {
    && TrackOk(u, now) && Live(u, now) && u.sources == t.sources + Times(samples, series)
    && LedgerOf(u.episodes) == AddShares(LedgerOf(t.episodes), samples, series, t.sources)
  }

  lemma NothingAddsUp(t: Track, series: Series, now: int)
    requires TrackOk(t, now) && Live(t, now)
    ensures AddsUp(t, t, [], series, now)
  {
    assert Times([], series) == {};
  }

  lemma OneMoreAddsUp(t: Track, u: Track, before: seq<Sample>, s: Sample, series: Series, candidates: seq<Option<int>>,
                      now: int)
    requires AddsUp(t, u, before, series, now) && FreshBatch(before + [s], series, now)
    ensures AddsUp(t,
                   if Concerns(s, series) then Observe(u, s.timestamp, DeltaFor(series.kind, s), candidates, now).0
                   else u,
                   before + [s], series, now)
  {
    LastIsFresh(before, s, series, now);
    if Concerns(s, series) {
      OneMoreFresh(u, s, series, candidates, now);
      ConcernedAddsUp(t, u, Observe(u, s.timestamp, DeltaFor(series.kind, s), candidates, now).0, before, s, series,
                      now);
    } else {
      TimesOneMore(before, s, series);
      assert (before + [s])[..|before|] == before;
    }
  }

  lemma ConcernedAddsUp(t: Track, u: Track, v: Track, before: seq<Sample>, s: Sample, series: Series, now: int)
    requires AddsUp(t, u, before, series, now) && Concerns(s, series) && s.timestamp !in Times(before, series)
    requires TrackOk(v, now) && Live(v, now) && v.sources == u.sources + {s.timestamp}
    requires LedgerOf(v.episodes) ==
             if s.timestamp in u.sources then LedgerOf(u.episodes)
             else Plus(LedgerOf(u.episodes), Entry(s.timestamp, DeltaFor(series.kind, s)))
    ensures AddsUp(t, v, before + [s], series, now)
  {
    TimesOneMore(before, s, series);
    assert (before + [s])[..|before|] == before;
    assert s.timestamp in u.sources <==> s.timestamp in t.sources;
  }

  lemma {:induction false} FreshBatchAddsUp(t: Track, samples: seq<Sample>, series: Series, now: int)
    requires TrackOk(t, now) && Live(t, now) && FreshBatch(samples, series, now)
    ensures AddsUp(t, IngestTrack(t, samples, series, now), samples, series, now)
  {
    if samples == [] {
      NothingAddsUp(t, series, now);
    } else {
      var last := |samples| - 1;
      var s, before := samples[last], samples[..last];
      assert samples == before + [s];
      LastIsFresh(before, s, series, now);
      FreshBatchAddsUp(t, before, series, now);
      OneMoreAddsUp(t, IngestTrack(t, before, series, now), before, s, series,
                    [s.previous, Look(Cursor(before), s.interfaceId)], now);
    }
  }

  lemma OneMoreFresh(t: Track, s: Sample, series: Series, candidates: seq<Option<int>>, now: int)
    requires TrackOk(t, now) && Live(t, now) && Concerns(s, series) && now - s.timestamp < DAY
    ensures var u := Observe(t, s.timestamp, DeltaFor(series.kind, s), candidates, now).0;
            && TrackOk(u, now) && Live(u, now) && u.sources == t.sources + {s.timestamp}
            && LedgerOf(u.episodes) ==
               if s.timestamp in t.sources then LedgerOf(t.episodes)
               else Plus(LedgerOf(t.episodes), Entry(s.timestamp, DeltaFor(series.kind, s)))
  {
    var (u, applied) := Observe(t, s.timestamp, DeltaFor(series.kind, s), candidates, now);
    ObserveIsOk(t, s.timestamp, DeltaFor(series.kind, s), candidates, now);
    ObserveHasEffect(t, s.timestamp, DeltaFor(series.kind, s), candidates, now);
    if applied {
      EffectKeepsLive(t, u, s.timestamp, DeltaFor(series.kind, s),
                      RateOf(t, s.timestamp, DeltaFor(series.kind, s), candidates), now);
    }
  }

  lemma {:induction false} AddSharesConcat(ledger: Ledger, a: seq<Sample>, b: seq<Sample>, series: Series,
                                           sources: set<int>)
    ensures AddShares(ledger, a + b, series, sources)
            == AddShares(AddShares(ledger, a, series, sources), b, series, sources)
  {
    if b == [] {
      assert a + b == a;
    } else {
      assert (a + b)[..|a + b| - 1] == a + b[..|b| - 1];
      AddSharesConcat(ledger, a, b[..|b| - 1], series, sources);
    }
  }

  lemma PlusSwaps(a: Ledger, b: Ledger, c: Ledger)
    ensures Plus(Plus(a, b), c) == Plus(Plus(a, c), b)
  {
  }

  lemma {:induction false} AddShareCommutes(ledger: Ledger, s: Sample, tail: seq<Sample>, series: Series,
                                            sources: set<int>)
    ensures AddShares(AddShare(ledger, s, series, sources), tail, series, sources)
            == AddShare(AddShares(ledger, tail, series, sources), s, series, sources)
  {
    if tail == [] {
    } else {
      var last := |tail| - 1;
      AddShareCommutes(ledger, s, tail[..last], series, sources);
      PlusSwaps(AddShares(ledger, tail[..last], series, sources),
                Entry(s.timestamp, DeltaFor(series.kind, s)),
                    Entry(tail[last].timestamp, DeltaFor(series.kind, tail[last])));
    }
  }

  lemma AddSharesWithout(ledger: Ledger, s: seq<Sample>, i: nat, series: Series, sources: set<int>)
    requires i < |s|
    ensures AddShares(ledger, s, series, sources)
            == AddShare(AddShares(ledger, s[..i] + s[i + 1..], series, sources), s[i], series, sources)
  {
    var head, x, tail := s[..i], s[i], s[i + 1..];
    ThreeParts(s, i);
    AddSharesConcat(ledger, head + [x], tail, series, sources);
    AddSharesConcat(ledger, head, tail, series, sources);
    assert (head + [x])[..|head|] == head;
    AddShareCommutes(AddShares(ledger, head, series, sources), x, tail, series, sources);
  }

  lemma {:induction false} AddSharesIgnoresOrder(ledger: Ledger, a: seq<Sample>, b: seq<Sample>, series: Series,
                                                 sources: set<int>)
    requires multiset(a) == multiset(b)
    ensures AddShares(ledger, a, series, sources) == AddShares(ledger, b, series, sources)
    decreases |a|
  {
    if a == [] {
      assert |multiset(b)| == 0;
    } else {
      var last := |a| - 1;
      assert a[last] in multiset(a);
      var i :| 0 <= i < |b| && b[i] == a[last];
      WithoutOne(a, b, i);
      AddSharesIgnoresOrder(ledger, a[..last], b[..i] + b[i + 1..], series, sources);
      AddSharesWithout(ledger, b, i, series, sources);
    }
  }

  /**
   * From no episode or a current one, every order of a batch of distinct times
   * within 24 hours of the clock gives the same count, totals and latest time.
   */
  lemma BatchOrderDoesNotMatter(t: Track, a: seq<Sample>, b: seq<Sample>, series: Series, now: int)
    requires TrackOk(t, now) && Live(t, now) && multiset(a) == multiset(b)
    requires FreshBatch(a, series, now) && FreshBatch(b, series, now)
    ensures var u, v := IngestTrack(t, a, series, now), IngestTrack(t, b, series, now);
            LedgerOf(u.episodes) == LedgerOf(v.episodes) && u.sources == v.sources
  {
    FreshBatchAddsUp(t, a, series, now);
    FreshBatchAddsUp(t, b, series, now);
    AddSharesIgnoresOrder(LedgerOf(t.episodes), a, b, series, t.sources);
    TimesIgnoreOrder(a, b, series);
  }

  lemma TimesIgnoreOrder(a: seq<Sample>, b: seq<Sample>, series: Series)
    requires multiset(a) == multiset(b)
    ensures Times(a, series) == Times(b, series)
  {
    assert forall s :: s in a <==> s in multiset(a);
    assert forall s :: s in b <==> s in multiset(b);
  }

  /** The time of the first sample of a batch that concerns a fingerprint. */
  function FirstTime(samples: seq<Sample>, series: Series): Option<int> {
    if samples == [] then None
    else
      var last := |samples| - 1;
      var earlier := FirstTime(samples[..last], series);
      if earlier.Some? then earlier
      else if Concerns(samples[last], series) then Some(samples[last].timestamp)
      else None
  }

  /** Where the newest episode begins, if there is one. */
  function Beginning(t: Track): Option<int> {
    if t.episodes == [] then None else Some(t.episodes[|t.episodes| - 1].values.firstSeen)
  }

  lemma ObservedBeginning(t: Track, timestamp: int, delta: Delta, candidates: seq<Option<int>>, now: int)
    requires TrackOk(t, now) && Live(t, now)
    ensures var u := Observe(t, timestamp, delta, candidates, now).0;
            Beginning(u) == if t.episodes == [] then Some(timestamp) else Beginning(t)
  {
    ObserveHasEffect(t, timestamp, delta, candidates, now);
    assert timestamp in t.sources ==> t.episodes != [];
  }

  /**
   * Where the episode of a fresh batch begins: where the current one began, and from
   * nothing at the sample that came first.
   */
  lemma {:induction false} BeginningIs(t: Track, samples: seq<Sample>, series: Series, now: int)
    requires TrackOk(t, now) && Live(t, now) && FreshBatch(samples, series, now)
    ensures Beginning(IngestTrack(t, samples, series, now)) == if t.episodes == [] then FirstTime(samples, series)
            else Beginning(t)
  {
    if samples == [] {
    } else {
      var last := |samples| - 1;
      var s, before := samples[last], samples[..last];
      assert samples == before + [s];
      LastIsFresh(before, s, series, now);
      BeginningIs(t, before, series, now);
      FreshBatchAddsUp(t, before, series, now);
      if Concerns(s, series) {
        var u := IngestTrack(t, before, series, now);
        ObservedBeginning(u, s.timestamp, DeltaFor(series.kind, s), [s.previous, Look(Cursor(before), s.interfaceId)],
                          now);
        assert u.episodes == [] <==> Beginning(u).None?;
      }
    }
  }

  /**
   * So two orders of a batch begin the episode alike exactly when there was a current
   * one already or the same sample comes first.
   */
  lemma BeginningsAgreeExactly(t: Track, a: seq<Sample>, b: seq<Sample>, series: Series, now: int)
    requires TrackOk(t, now) && Live(t, now) && multiset(a) == multiset(b)
    requires FreshBatch(a, series, now) && FreshBatch(b, series, now)
    ensures Beginning(IngestTrack(t, a, series, now)) == Beginning(IngestTrack(t, b, series, now)) <==>
            HasCurrent(t, now) || FirstTime(a, series) == FirstTime(b, series)
  {
    BeginningIs(t, a, series, now);
    BeginningIs(t, b, series, now);
  }

  /** Two orders that do not: an episode that begins at either of its two samples. */
  lemma BeginningDependsOnOrder(delta: Delta)
    requires DeltaOk(delta)
    ensures var t := Track([], {});
            var forwards := Observe(Observe(t, 10, delta, [], 30).0, 20, delta, [], 30).0;
            var backwards := Observe(Observe(t, 20, delta, [], 30).0, 10, delta, [], 30).0;
            |forwards.episodes| == |backwards.episodes| == 1
            && forwards.episodes[0].values.firstSeen == 10 && backwards.episodes[0].values.firstSeen == 20
  {
    FirstOfTwo(delta, 10, 20);
    FirstOfTwo(delta, 20, 10);
  }

  lemma FirstOfTwo(delta: Delta, a: int, b: int)
    requires DeltaOk(delta) && a != b && 30 - a < DAY
    ensures var u := Observe(Observe(Track([], {}), a, delta, [], 30).0, b, delta, [], 30).0;
            |u.episodes| == 1 && u.episodes[0].values.firstSeen == a
  {
    var t := Track([], {});
    NothingSeenIsOk(30);
    ObserveHasEffect(t, a, delta, [], 30);
    ObserveIsOk(t, a, delta, [], 30);
    var u := Observe(t, a, delta, [], 30).0;
    ObserveHasEffect(u, b, delta, [], 30);
  }
}
