/** Counter samples: what a pair of them says, and what the latest ones sustain. */
module MetricWindow {
  import opened Options
  import opened Fingerprint
  import opened Slices

  datatype Reason = OK | INVALID_INTERVAL | RESET_OR_DISCONTINUITY | NO_DELTA

  datatype Evaluation = Evaluation(valid: bool, reason: Reason, intervalSeconds: real, delta: int, ratePerMinute: real)

  datatype Counter = Counter(raw: Option<int>, delta: Option<int>)

  datatype Sample = Sample(
    interfaceId: string, time: int,
    fcsErrors: Counter, inErrors: Counter, outErrors: Counter, inDiscards: Counter, outDiscards: Counter)

  datatype Toggle = FCS | ERRORS_RX | ERRORS_TX | DISCARDS_RX | DISCARDS_TX

  function MetricKey(toggle: Toggle): string {
    match toggle
    case FCS => "FCS"
    case ERRORS_RX => "RX"
    case DISCARDS_RX => "RX"
    case ERRORS_TX => "TX"
    case DISCARDS_TX => "TX"
  }

  function Column(sample: Sample, toggle: Toggle): Counter {
    match toggle
    case FCS => sample.fcsErrors
    case ERRORS_RX => sample.inErrors
    case ERRORS_TX => sample.outErrors
    case DISCARDS_RX => sample.inDiscards
    case DISCARDS_TX => sample.outDiscards
  }

  datatype Direction = RX | TX | BOTH

  /** The series a rule watches on one interface. */
  function Toggles(t: AlarmType, direction: Direction): seq<Toggle> {
    match t
    case INTERFACE_CRC => [FCS]
    case INTERFACE_ERRORS =>
      (match direction case RX => [ERRORS_RX] case TX => [ERRORS_TX] case BOTH => [ERRORS_RX, ERRORS_TX])
    case _ =>
      (match direction case RX => [DISCARDS_RX] case TX => [DISCARDS_TX] case BOTH => [DISCARDS_RX, DISCARDS_TX])
  }

  const COUNTER_32_MAX: int := 0xffff_ffff
  const WRAP_HIGH_WATERMARK: int := COUNTER_32_MAX * 3 / 4
  const WRAP_LOW_WATERMARK: int := COUNTER_32_MAX / 4

  predicate IsPlausibleCounter32Wrap(previous: int, current: int) {
    previous >= WRAP_HIGH_WATERMARK && current <= WRAP_LOW_WATERMARK
  }

  function EvaluatePair(previousTime: int, previous: int, currentTime: int, current: int,
                        delta: Option<int>): Evaluation {
    var seconds := (currentTime - previousTime) as real / 1000.0;
    if !(seconds > 0.0) then Evaluation(false, INVALID_INTERVAL, seconds, 0, 0.0)
    else if current < previous && !IsPlausibleCounter32Wrap(previous, current) then
      Evaluation(false, RESET_OR_DISCONTINUITY, seconds, 0, 0.0)
    else if delta.None? then Evaluation(false, NO_DELTA, seconds, 0, 0.0)
    else Evaluation(true, OK, seconds, delta.value, (delta.value * 60) as real / seconds)
  }

  /**
   * A pair counts exactly when time advanced, a delta was collected and the counter
   * did not fall, or fell as a 32-bit counter does when it wraps. Its rate times the
   * minutes between the samples is the delta.
   */
  lemma EvaluationIsExact(previousTime: int, previous: int, currentTime: int, current: int, delta: Option<int>)
    ensures var e := EvaluatePair(previousTime, previous, currentTime, current, delta);
            && (e.valid <==> currentTime > previousTime && delta.Some?
                             && (current >= previous || IsPlausibleCounter32Wrap(previous, current)))
            && (e.valid <==> e.reason == OK)
            && (e.valid ==> e.delta == delta.value
                            && e.ratePerMinute * ((currentTime - previousTime) as real / 60000.0)
                                == delta.value as real)
            && (!e.valid ==> e.delta == 0 && e.ratePerMinute == 0.0)
  {
    var e := EvaluatePair(previousTime, previous, currentTime, current, delta);
    if e.valid {
      RateTimesMinutes(delta.value as real, (currentTime - previousTime) as real);
    }
  }

  lemma RateTimesMinutes(delta: real, milliseconds: real)
    requires milliseconds > 0.0
    ensures milliseconds / 1000.0 > 0.0
    ensures delta * 60.0 / (milliseconds / 1000.0) * (milliseconds / 60000.0) == delta
  {
    var seconds := milliseconds / 1000.0;
    var rate := delta * 60.0 / seconds;
    assert rate * seconds == delta * 60.0;
    assert milliseconds / 60000.0 == seconds / 60.0;
  }

  function Evaluate(previous: Sample, current: Sample, toggle: Toggle): Evaluation {
    var before, now := Column(previous, toggle), Column(current, toggle);
    if before.raw.None? || now.raw.None? then Evaluation(false, NO_DELTA, 0.0, 0, 0.0)
    else EvaluatePair(previous.time, before.raw.value, current.time, now.raw.value, now.delta)
  }

  function Pairs<A, B>(s: seq<A>, f: (A, A) -> B): seq<B> {
    if |s| <= 1 then [] else seq(|s| - 1, i requires 0 <= i < |s| - 1 => f(s[i], s[i + 1]))
  }

  function Evaluating(toggle: Toggle): (Sample, Sample) -> Evaluation {
    (previous, current) => Evaluate(previous, current, toggle)
  }

  /** One evaluation for each pair of neighbours. */
  function Evaluations(samples: seq<Sample>, toggle: Toggle): seq<Evaluation> {
    Pairs(samples, Evaluating(toggle))
  }

  method EvaluateWindow(samples: seq<Sample>, toggle: Toggle) returns (evaluations: seq<Evaluation>)
    ensures evaluations == Evaluations(samples, toggle)
  {
    evaluations := [];
    var index := 1;
    while index < |samples|
      invariant 1 <= index && (index <= |samples| || samples == [])
      invariant samples != [] ==> evaluations == Evaluations(samples[..index], toggle)
      invariant samples == [] ==> evaluations == []
    {
      evaluations := evaluations + [Evaluate(samples[index - 1], samples[index], toggle)];
      index := index + 1;
    }
    assert samples != [] ==> samples[..index] == samples;
  }

  // ----- sustained by the latest evaluations

  predicate ConsecutiveMatch(evaluations: seq<Evaluation>, p: real -> bool, required: int) {
    required >= 1 && |evaluations| >= required &&
    forall e :: e in LastOf(evaluations, required) ==> e.valid && p(e.ratePerMinute)
  }

  /** A threshold of 0 or less stands for any occurrence at all. */
  function Triggers(threshold: real): real -> bool {
    if threshold > 0.0 then (rate: real) => rate >= threshold else (rate: real) => rate > 0.0
  }

  function Recovers(recoveryThreshold: real): real -> bool {
    (rate: real) => rate <= recoveryThreshold
  }

  /** A counter kept across samples: one more on a match, back to zero otherwise. */
  ghost function Streak(evaluations: seq<Evaluation>, p: real -> bool): nat {
    if evaluations == [] then 0
    else
      var last := evaluations[|evaluations| - 1];
      if last.valid && p(last.ratePerMinute) then Streak(evaluations[..|evaluations| - 1], p) + 1 else 0
  }

  lemma {:induction false} StreakIsConsecutive(evaluations: seq<Evaluation>, p: real -> bool, required: nat)
    requires required >= 1
    ensures ConsecutiveMatch(evaluations, p, required) <==> Streak(evaluations, p) >= required
  {
    if evaluations == [] {
    } else {
      var last := |evaluations| - 1;
      var before := evaluations[..last];
      if required == 1 {
        assert LastOf(evaluations, 1) == [evaluations[last]];
      } else {
        StreakIsConsecutive(before, p, required - 1);
        TailSplits(evaluations, p, required);
      }
    }
  }

  lemma TailSplits(evaluations: seq<Evaluation>, p: real -> bool, required: nat)
    requires required >= 2 && evaluations != []
    ensures var last := |evaluations| - 1;
            ConsecutiveMatch(evaluations, p, required) <==>
            ConsecutiveMatch(evaluations[..last], p, required - 1) && evaluations[last].valid
            && p(evaluations[last].ratePerMinute)
  {
    var last := |evaluations| - 1;
    if |evaluations| >= required {
      assert LastOf(evaluations, required) == LastOf(evaluations[..last], required - 1) + [evaluations[last]];
    }
  }

  /**
   * The stateless check on a window of the stream decides what a streak counter
   * kept over the whole stream would decide, as soon as the window holds the
   * required number of evaluations; a shorter window never matches. Nothing is
   * lost with the process.
   */
  lemma WindowRefinesCounter(stream: seq<Sample>, from: nat, toggle: Toggle, p: real -> bool, required: nat)
    requires required >= 1 && from <= |stream|
    ensures ConsecutiveMatch(Evaluations(stream[from..], toggle), p, required) <==>
            |stream| - from > required && Streak(Evaluations(stream, toggle), p) >= required
  {
    var all := Evaluations(stream, toggle);
    StreakIsConsecutive(all, p, required);
    if |stream| - from > required {
      PairsOfSuffix(stream, from, Evaluating(toggle));
      LastOfSuffix(all, from, required);
    }
  }

  lemma PairsOfSuffix<A, B>(s: seq<A>, from: nat, f: (A, A) -> B)
    requires from + 1 < |s|
    ensures |Pairs(s, f)| == |s| - 1 && Pairs(s[from..], f) == Pairs(s, f)[from..]
  {
  }

  lemma LastOfSuffix<T>(s: seq<T>, from: nat, n: nat)
    requires n >= 1 && from + n <= |s|
    ensures LastOf(s[from..], n) == LastOf(s, n)
  {
  }

  /**
   * No series is sustained as triggered and as recovered at once, for whatever
   * samples, exactly when the recovery limit lies below the threshold (or asks for
   * no occurrence when any occurrence triggers).
   */
  lemma TriggerExcludesRecovery(threshold: real, recovery: real)
    ensures (forall rate: real :: !(Triggers(threshold)(rate) && Recovers(recovery)(rate))) <==>
            Separated(threshold, recovery)
  {
    if !Separated(threshold, recovery) {
      var rate := recovery;
      assert Triggers(threshold)(rate) && Recovers(recovery)(rate);
    }
  }

  predicate Separated(threshold: real, recovery: real) {
    if threshold > 0.0 then recovery < threshold else recovery <= 0.0
  }

  lemma NeverTriggeredAndRecovered(evaluations: seq<Evaluation>, threshold: real, recovery: real, triggerSamples: int,
                                   recoverySamples: int)
    requires Separated(threshold, recovery)
    ensures !(ConsecutiveMatch(evaluations, Triggers(threshold), triggerSamples)
              && ConsecutiveMatch(evaluations, Recovers(recovery), recoverySamples))
  {
    TriggerExcludesRecovery(threshold, recovery);
    LatestMustMatch(evaluations, Triggers(threshold), triggerSamples);
    LatestMustMatch(evaluations, Recovers(recovery), recoverySamples);
  }

  lemma LatestMustMatch(evaluations: seq<Evaluation>, p: real -> bool, required: int)
    ensures ConsecutiveMatch(evaluations, p, required) ==>
              evaluations != [] && p(evaluations[|evaluations| - 1].ratePerMinute)
  {
    if ConsecutiveMatch(evaluations, p, required) {
      var tail := LastOf(evaluations, required);
      assert tail[|tail| - 1] in tail;
    }
  }
}
