/** Episodes of operational occurrences: the persisted rows, ingestion, housekeeping and acknowledgement. */
module Occurrences {
  import opened Options
  import opened OccurrenceRules

  datatype Episode = Episode(values: Values, acknowledgedAt: Option<int>, closedAt: Option<int>,
                             closeReason: Option<CloseReason>)

  /** All episodes of one fingerprint, oldest first, and the sample times already applied to them. */
  datatype Track = Track(episodes: seq<Episode>, sources: set<int>)

  datatype Series = Series(interfaceId: string, kind: OccurrenceType)

  type Db = map<Series, Track>

  function TrackOf(db: Db, series: Series): Track {
    if series in db then db[series] else Track([], {})
  }

  /** The episode with the latest sample; the newest one on a tie. */
  function Latest(episodes: seq<Episode>): (id: Option<nat>)
    ensures id.Some? <==> episodes != []
    ensures id.Some? ==> id.value < |episodes|
  {
    if episodes == [] then None
    else
      var last := |episodes| - 1;
      var best := Latest(episodes[..last]);
      if best.None? || episodes[last].values.lastSample >= episodes[best.value].values.lastSample then Some(last)
          else best
  }

  predicate Current(e: Episode, now: int) {
    e.closedAt.None? && e.acknowledgedAt.None? && IsRecent(e.values, now)
  }

  /** One transaction: nothing happens when the sample was applied before. */
  function Apply(track: Track, timestamp: int, plan: Plan): (Track, bool)
    requires plan.UPDATE? ==> plan.targetId < |track.episodes|
  {
    if timestamp in track.sources || plan.IGNORE? then (track, false)
    else
      var sources := track.sources + {timestamp};
      match plan
      case UPDATE(id, values) =>
        (Track(track.episodes[id := track.episodes[id].(values := values)], sources), true)
      case CREATE(close, values) =>
        (Track(Closed(track.episodes, close) + [Episode(values, None, None, None)], sources), true)
  }

  function Closed(episodes: seq<Episode>, close: Option<Close>): seq<Episode> {
    if close.Some? && close.value.id < |episodes| && episodes[close.value.id].closedAt.None? then
      var Close(id, reason, closedAt) := close.value;
      episodes[id := episodes[id].(closedAt := Some(closedAt), closeReason := Some(reason))]
    else episodes
  }

  /** The plan made for a sample: from the latest episode, the clock and the known earlier sample times. */
  function Planned(track: Track, timestamp: int, delta: Delta, candidates: seq<Option<int>>, now: int): (plan: Plan)
    ensures plan.UPDATE? ==> plan.targetId < |track.episodes|
  {
    var id := Latest(track.episodes);
    if id.None? then
      PlanFor(None, None, None, timestamp, delta, Basis(timestamp, candidates + [None]))
    else
      var e := track.episodes[id.value];
      var state := State(id.value, e.values);
      PlanFor(if Current(e, now) then Some(state) else None, Some(state),
              if !Current(e, now) && e.closedAt.None? then SupersedeFor(state, timestamp, e.acknowledgedAt) else None,
              timestamp, delta, Basis(timestamp, candidates + [Some(e.values.lastSample)]))
  }

  function Observe(track: Track, timestamp: int, delta: Delta, candidates: seq<Option<int>>, now: int): (Track, bool) {
    Apply(track, timestamp, Planned(track, timestamp, delta, candidates, now))
  }

  // ----- a batch of samples

  /** The latest time of an interface among the first samples of a batch. */
  function Cursor(samples: seq<Sample>): map<string, int> {
    if samples == [] then map[]
    else
      var earlier, s := Cursor(samples[..|samples| - 1]), samples[|samples| - 1];
      var seen := if s.interfaceId in earlier then Max(earlier[s.interfaceId], s.timestamp) else s.timestamp;
      earlier[s.interfaceId := seen]
  }

  function Look(cursor: map<string, int>, interfaceId: string): Option<int> {
    if interfaceId in cursor then Some(cursor[interfaceId]) else None
  }

  function ObserveType(db: Db, kind: OccurrenceType, sample: Sample, basis: Option<int>, now: int): (Db, bool) {
    var delta := DeltaFor(kind, sample);
    if delta.total == 0 then (db, false)
    else
      var series := Series(sample.interfaceId, kind);
      var (track, applied) := Observe(TrackOf(db, series), sample.timestamp, delta, [sample.previous, basis], now);
      if applied then (db[series := track], true) else (db, false)
  }

  function ObserveSample(db: Db, sample: Sample, basis: Option<int>, now: int): (Db, nat) {
    var (afterCrc, crc) := ObserveType(db, CRC_FCS, sample, basis, now);
    var (afterBoth, discards) := ObserveType(afterCrc, DISCARDS, sample, basis, now);
    (afterBoth, (if crc then 1 else 0) + if discards then 1 else 0)
  }

  function Ingest(db: Db, samples: seq<Sample>, now: int): (Db, nat) {
    if samples == [] then (db, 0)
    else
      var last := |samples| - 1;
      var (before, applied) := Ingest(db, samples[..last], now);
      var (after, more) := ObserveSample(before, samples[last],
                                         Look(Cursor(samples[..last]), samples[last].interfaceId), now);
      (after, applied + more)
  }

  /** What the loop does with the next sample. */
  lemma IngestOneMore(db: Db, samples: seq<Sample>, n: nat, now: int)
    requires n < |samples|
    ensures var basis := Look(Cursor(samples[..n]), samples[n].interfaceId);
            var latest := if basis.Some? then Max(basis.value, samples[n].timestamp) else samples[n].timestamp;
            Cursor(samples[..n + 1]) == Cursor(samples[..n])[samples[n].interfaceId := latest]
    ensures var (before, applied) := Ingest(db, samples[..n], now);
            var step := ObserveSample(before, samples[n], Look(Cursor(samples[..n]), samples[n].interfaceId), now);
            Ingest(db, samples[..n + 1], now) == (step.0, applied + step.1)
  {
    assert samples[..n + 1][..n] == samples[..n];
  }

  // ----- housekeeping and acknowledgement

  const HOUSEKEEPING_INTERVAL_MS := 5 * 60 * 1000

  datatype Ref = Ref(series: Series, id: nat)

  predicate Quiet(e: Episode, now: int) {
    e.closedAt.None? && e.values.lastSeen < now - QUIET_MS
  }

  function QuietClosed(e: Episode, now: int): Episode {
    if Quiet(e, now) then e.(closedAt := Some(e.values.lastSeen + QUIET_MS), closeReason := Some(QUIET_24H)) else e
  }

  function CloseChosen(track: Track, series: Series, chosen: set<Ref>, now: int): Track {
    track.(episodes := seq(|track.episodes|, i requires 0 <= i < |track.episodes| =>
                             if Ref(series, i) in chosen then QuietClosed(track.episodes[i], now)
                                 else track.episodes[i]))
  }

  /** `chosen` are the rows the query returns: quiet ones, oldest first, at most 500. */
  function CloseQuiet(db: Db, chosen: set<Ref>, now: int): Db {
    map series | series in db :: CloseChosen(db[series], series, chosen, now)
  }

  function Housekeep(db: Db, last: int, chosen: set<Ref>, now: int): (Db, int) {
    if now - last < HOUSEKEEPING_INTERVAL_MS then (db, last) else (CloseQuiet(db, chosen, now), now)
  }

  function Acknowledged(e: Episode, now: int): Episode {
    if e.acknowledgedAt.Some? then e
    else
      e.(acknowledgedAt := Some(now),
         closedAt := if e.closedAt.Some? then e.closedAt else Some(now),
         closeReason := if e.closedAt.Some? then e.closeReason else Some(ACKNOWLEDGED))
  }

  predicate Exists(db: Db, ref: Ref) {
    ref.series in db && ref.id < |db[ref.series].episodes|
  }

  datatype AckResult = NOT_FOUND | ALREADY | DONE

  function Acknowledge(db: Db, ref: Ref, now: int): (Db, AckResult) {
    if !Exists(db, ref) then (db, NOT_FOUND)
    else
      var track := db[ref.series];
      if track.episodes[ref.id].acknowledgedAt.Some? then (db, ALREADY)
      else (db[ref.series := track.(episodes := track.episodes[ref.id := Acknowledged(track.episodes[ref.id], now)])],
            DONE)
  }

  class OperationalOccurrenceService {
    var db: Db
    var lastHousekeeping: int

    constructor ()
      ensures db == map[] && lastHousekeeping == 0
    {
      db := map[];
      lastHousekeeping := 0;
    }

    method ObserveOne(kind: OccurrenceType, sample: Sample, batchBasis: Option<int>, now: int) returns (applied: bool)
      modifies `db
      ensures (db, applied) == ObserveType(old(db), kind, sample, batchBasis, now)
    {
      var delta := DeltaFor(kind, sample);
      if delta.total == 0 {
        return false;
      }
      var series := Series(sample.interfaceId, kind);
      var track := TrackOf(db, series);
      var latest := Latest(track.episodes);
      var lastSample, latestState, current, supersede := None, None, None, None;
      if latest.Some? {
        var e := track.episodes[latest.value];
        lastSample, latestState := Some(e.values.lastSample), Some(State(latest.value, e.values));
        if e.closedAt.None? && e.acknowledgedAt.None? && IsRecent(e.values, now) {
          current := latestState;
        } else if e.closedAt.None? {
          supersede := SupersedeFor(latestState.value, sample.timestamp, e.acknowledgedAt);
        }
      }
      var basis := BestIntervalBasis(sample.timestamp, [sample.previous, batchBasis, lastSample]);
      assert [sample.previous, batchBasis] + [lastSample] == [sample.previous, batchBasis, lastSample];
      var plan := PlanFor(current, latestState, supersede, sample.timestamp, delta, basis);
      assert plan == Planned(track, sample.timestamp, delta, [sample.previous, batchBasis], now);
      if plan.IGNORE? {
        return false;
      }
      var (after, done) := Apply(track, sample.timestamp, plan);
      if done {
        db := db[series := after];
      }
      applied := done;
    }

    /** The loop over the two types. */
    method ObserveBoth(sample: Sample, batchBasis: Option<int>, now: int) returns (applied: nat)
      modifies `db
      ensures (db, applied) == ObserveSample(old(db), sample, batchBasis, now)
    {
      var crc := ObserveOne(CRC_FCS, sample, batchBasis, now);
      var discards := ObserveOne(DISCARDS, sample, batchBasis, now);
      applied := (if crc then 1 else 0) + if discards then 1 else 0;
    }

    method ProcessSamples(samples: seq<Sample>, chosen: set<Ref>, now: int) returns (applied: nat)
      modifies this
      ensures applied == Ingest(old(db), samples, now).1
      ensures (db, lastHousekeeping) == Housekeep(Ingest(old(db), samples, now).0, old(lastHousekeeping), chosen, now)
    {
      var batchCursor: map<string, int> := map[];
      applied := 0;
      for n := 0 to |samples|
        invariant batchCursor == Cursor(samples[..n])
        invariant db == Ingest(old(db), samples[..n], now).0
        invariant applied == Ingest(old(db), samples[..n], now).1
        invariant lastHousekeeping == old(lastHousekeeping)
      {
        var sample := samples[n];
        IngestOneMore(old(db), samples, n, now);
        var batchBasis := Look(batchCursor, sample.interfaceId);
        batchCursor := batchCursor[sample.interfaceId :=
          if batchBasis.Some? then Max(batchBasis.value, sample.timestamp) else sample.timestamp];
        var more := ObserveBoth(sample, batchBasis, now);
        applied := applied + more;
      }
      assert samples[..|samples|] == samples;
      RunHousekeeping(chosen, now);
    }

    method RunHousekeeping(chosen: set<Ref>, now: int)
      modifies this
      ensures (db, lastHousekeeping) == Housekeep(old(db), old(lastHousekeeping), chosen, now)
      ensures lastHousekeeping == if now >= old(lastHousekeeping) + 300000 then now else old(lastHousekeeping)
      ensures db == if now >= old(lastHousekeeping) + 300000 then CloseQuiet(old(db), chosen, now) else old(db)
    {
      if now - lastHousekeeping < HOUSEKEEPING_INTERVAL_MS {
        return;
      }
      lastHousekeeping := now;
      db := CloseQuiet(db, chosen, now);
    }

    method AcknowledgeEpisode(ref: Ref, now: int) returns (result: AckResult)
      modifies `db
      ensures (db, result) == Acknowledge(old(db), ref, now)
    {
      if !Exists(db, ref) {
        return NOT_FOUND;
      }
      var track := db[ref.series];
      if track.episodes[ref.id].acknowledgedAt.Some? {
        return ALREADY;
      }
      db := db[ref.series := track.(episodes := track.episodes[ref.id := Acknowledged(track.episodes[ref.id], now)])];
      result := DONE;
    }
  }
}
