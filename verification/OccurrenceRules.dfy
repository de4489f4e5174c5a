/** What one counter sample does to an episode of operational occurrences. */
module OccurrenceRules {
  import opened Options
  import opened Numbers

  const QUIET_MS := 24 * 60 * 60 * 1000

  datatype OccurrenceType = CRC_FCS | DISCARDS

  function TypeName(t: OccurrenceType): string {
    match t
    case CRC_FCS => "CRC_FCS"
    case DISCARDS => "DISCARDS"
  }

  const SEPARATOR: char := '|'

  function Fingerprint(interfaceId: string, t: OccurrenceType): string {
    interfaceId + [SEPARATOR] + TypeName(t)
  }

  /** The type's name holds no separator, so this key is exact for any interface id. */
  lemma FingerprintIsExact(a: string, t: OccurrenceType, b: string, u: OccurrenceType)
    ensures Fingerprint(a, t) == Fingerprint(b, u) <==> a == b && t == u
  {
    var f, g := Fingerprint(a, t), Fingerprint(b, u);
    if f == g {
      assert f[|f| - 8] == if t == CRC_FCS then SEPARATOR else 'D';
      assert g[|g| - 8] == if u == CRC_FCS then SEPARATOR else 'D';
      assert a == f[..|a|] && b == g[..|b|];
    }
  }

  datatype Sample = Sample(
    interfaceId: string, timestamp: int, fcsErrors: Option<int>, inDiscards: int, outDiscards: int,
    previous: Option<int>)

  datatype Delta = Delta(crc: int, rx: int, tx: int, total: int)

  function NonNegative(value: int): (r: int)
    ensures r >= 0
  {
    if value > 0 then value else 0
  }

  function DeltaFor(t: OccurrenceType, sample: Sample): Delta {
    if t == CRC_FCS then
      var crc := NonNegative(if sample.fcsErrors.Some? then sample.fcsErrors.value else 0);
      Delta(crc, 0, 0, crc)
    else
      var rx, tx := NonNegative(sample.inDiscards), NonNegative(sample.outDiscards);
      Delta(0, rx, tx, rx + tx)
  }

  // ----- the base of the interval

  function Better(timestamp: int, best: Option<int>, candidate: Option<int>): Option<int> {
    if candidate.None? || candidate.value >= timestamp then best
    else if best.None? || candidate.value > best.value then candidate
    else best
  }

  function Basis(timestamp: int, candidates: seq<Option<int>>): Option<int> {
    if candidates == [] then None
    else Better(timestamp, Basis(timestamp, candidates[..|candidates| - 1]), candidates[|candidates| - 1])
  }

  method BestIntervalBasis(timestamp: int, candidates: seq<Option<int>>) returns (best: Option<int>)
    ensures best == Basis(timestamp, candidates)
    ensures IsBest(timestamp, candidates, best)
  {
    best := None;
    for n := 0 to |candidates|
      invariant best == Basis(timestamp, candidates[..n])
    {
      assert candidates[..n + 1][..n] == candidates[..n];
      var candidate := candidates[n];
      if candidate.None? {
        continue;
      }
      if candidate.value >= timestamp {
        continue;
      }
      if best.None? || candidate.value > best.value {
        best := candidate;
      }
    }
    assert candidates[..|candidates|] == candidates;
    BasisIsBest(timestamp, candidates);
  }

  /** The greatest of the known times before the sample, if there is one. */
  ghost predicate IsBest(timestamp: int, candidates: seq<Option<int>>, best: Option<int>) {
    && (best.Some? ==> best in candidates && best.value < timestamp)
    && (forall c :: c in candidates && c.Some? && c.value < timestamp ==> best.Some? && c.value <= best.value)
  }

  lemma {:induction false} BasisIsBest(timestamp: int, candidates: seq<Option<int>>)
    ensures IsBest(timestamp, candidates, Basis(timestamp, candidates))
  {
    if candidates == [] {
    } else {
      var last := |candidates| - 1;
      BasisIsBest(timestamp, candidates[..last]);
      assert candidates == candidates[..last] + [candidates[last]];
    }
  }

  function Interval(timestamp: int, basis: Option<int>): Option<int> {
    if basis.None? || basis.value >= timestamp then None else Some(timestamp - basis.value)
  }

  const MAX_SAFE_INTEGER := 0x1f_ffff_ffff_ffff

  function SafeNumber(value: int): int {
    if value > MAX_SAFE_INTEGER then MAX_SAFE_INTEGER
    else if value < -MAX_SAFE_INTEGER then -MAX_SAFE_INTEGER
    else value
  }

  function RatePerMinute(events: int, interval: Option<int>): real {
    if interval.None? || interval.value <= 0 then 0.0
    else
      var rate := SafeNumber(events) as real / (interval.value as real / 60000.0);
      if rate <= 0.0 then 0.0 else Round2(rate)
  }

  /**
   * A rate is never negative, and with a base it is events over minutes to the second
   * decimal, the events saturating at the largest safe integer.
   */
  lemma RateIsExact(events: nat, timestamp: int, basis: Option<int>)
    ensures var rate := RatePerMinute(events, Interval(timestamp, basis));
            && rate >= 0.0
            && (if basis.Some? && basis.value < timestamp then
                  var counted := if events < MAX_SAFE_INTEGER then events else MAX_SAFE_INTEGER;
                  var exact := counted as real / ((timestamp - basis.value) as real / 60000.0);
                  exact - 0.005 <= rate <= exact + 0.005
                else rate == 0.0)
  {
    if basis.Some? && basis.value < timestamp {
      var minutes := (timestamp - basis.value) as real / 60000.0;
      QuotientIsNonNegative(SafeNumber(events) as real, minutes);
      RoundingIsClose(SafeNumber(events) as real / minutes);
    }
    RateIsNonNegative(events, Interval(timestamp, basis));
  }

  lemma QuotientIsNonNegative(x: real, y: real)
    requires x >= 0.0 && y > 0.0
    ensures x / y >= 0.0
  {
  }

  lemma RateIsNonNegative(events: int, interval: Option<int>)
    ensures RatePerMinute(events, interval) >= 0.0
  {
    if interval.Some? && interval.value > 0 {
      var rate := SafeNumber(events) as real / (interval.value as real / 60000.0);
      if rate > 0.0 {
        RoundingIsMonotone(0.0, rate);
      }
    }
  }

  // ----- the plan for one sample

  datatype Values = Values(
    firstSeen: int, lastSeen: int, lastSample: int, count: int, crc: int, rx: int, tx: int, rate: real, peak: real)

  datatype State = State(id: nat, values: Values)

  datatype CloseReason = ACKNOWLEDGED | QUIET_24H

  datatype Close = Close(id: nat, reason: CloseReason, closedAt: int)

  datatype Plan = IGNORE | UPDATE(targetId: nat, values: Values) | CREATE(close: Option<Close>, values: Values)

  function Max(a: int, b: int): int {
    if a >= b then a else b
  }

  function AddDelta(v: Values, delta: Delta, timestamp: int): Values {
    v.(lastSeen := Max(v.lastSeen, timestamp), count := v.count + 1,
       crc := v.crc + delta.crc, rx := v.rx + delta.rx, tx := v.tx + delta.tx)
  }

  function PlanFor(current: Option<State>, latest: Option<State>, supersede: Option<Close>,
                   timestamp: int, delta: Delta, basis: Option<int>): Plan {
    var rate := RatePerMinute(delta.total, Interval(timestamp, basis));
    if current.Some? && timestamp > current.value.values.lastSample then
      UPDATE(current.value.id,
             AddDelta(current.value.values, delta, timestamp).(
               lastSample := timestamp, rate := rate,
               peak := if current.value.values.peak >= rate then current.value.values.peak else rate))
    else if current.Some? then UPDATE(current.value.id, AddDelta(current.value.values, delta, timestamp))
    else if latest.Some? && timestamp <= latest.value.values.lastSample then IGNORE
    else CREATE(supersede, Values(timestamp, timestamp, timestamp, 1, delta.crc, delta.rx, delta.tx, rate, rate))
  }

  /** Seen within the last 24 hours. */
  predicate IsRecent(v: Values, now: int) {
    now - v.lastSeen < QUIET_MS
  }

  function SupersedeFor(latest: State, timestamp: int, acknowledgedAt: Option<int>): Option<Close> {
    if acknowledgedAt.Some? then Some(Close(latest.id, ACKNOWLEDGED, acknowledgedAt.value))
    else if latest.values.lastSeen + QUIET_MS > timestamp then None
    else Some(Close(latest.id, QUIET_24H, latest.values.lastSeen + QUIET_MS))
  }
}
