/** The optical ladder: how bad one received-power sample is, and how that is explained. */
module OpticalLadder {
  import opened Options
  import opened Numbers
  import opened Slices

  datatype Ladder = NONE | WARNING | MAJOR | CRITICAL

  function Rank(ladder: Ladder): nat {
    match ladder
    case NONE => 0
    case WARNING => 1
    case MAJOR => 2
    case CRITICAL => 3
  }

  function Highest(left: Ladder, right: Ladder): Ladder {
    if Rank(left) >= Rank(right) then left else right
  }

  /** Slack, in percentage points, for a limit hit exactly. */
  const EPSILON: real := 0.000000001

  datatype Reference = WARNING_WINDOW | ALARM_WINDOW

  datatype Window = Window(low: real, high: real, reference: Reference)

  datatype Criteria = Criteria(
    current: real,
    lowAlarm: Option<real>, highAlarm: Option<real>,
    lowWarning: Option<real>, highWarning: Option<real>,
    warningProximity: real, majorProximity: real,
    criticalAtLow: bool, warningMargin: real,
    drop: real, dropLimit: real, majorDropLimit: real,
    recoveryProximity: real)

  /** 100 at the low end of the window, 0 at the high end, clamped. */
  function Proximity(current: real, low: real, high: real): Option<real> {
    if !(high > low) then None
    else
      var raw := (high - current) / (high - low) * 100.0;
      Some(if raw < 0.0 then 0.0 else if raw > 100.0 then 100.0 else raw)
  }

  /** The warning pair when both ends exist and are coherent, else the alarm pair. */
  function ProximityWindow(c: Criteria): Option<Window> {
    if c.lowWarning.Some? && c.highWarning.Some? && c.lowWarning.value < c.highWarning.value then
      Some(Window(c.lowWarning.value, c.highWarning.value, WARNING_WINDOW))
    else if c.lowAlarm.Some? && c.highAlarm.Some? && c.lowAlarm.value < c.highAlarm.value then
      Some(Window(c.lowAlarm.value, c.highAlarm.value, ALARM_WINDOW))
    else None
  }

  function ProximityLadder(c: Criteria): Ladder {
    match ProximityWindow(c)
    case Some(window) =>
      (match Proximity(c.current, window.low, window.high)
       case None => NONE
       case Some(proximity) =>
         if proximity >= c.majorProximity - EPSILON then MAJOR
         else if proximity >= c.warningProximity - EPSILON then WARNING
         else NONE)
    case None =>
      if c.lowAlarm.Some? && c.current - c.lowAlarm.value <= c.warningMargin then WARNING else NONE
  }

  function DropLadder(c: Criteria): Ladder {
    if c.drop >= c.majorDropLimit then MAJOR
    else if c.drop >= c.dropLimit then WARNING
    else NONE
  }

  predicate AtLow(c: Criteria) {
    c.lowAlarm.Some? && c.criticalAtLow && c.current <= c.lowAlarm.value
  }

  function LadderFor(c: Criteria): Ladder {
    if AtLow(c) then CRITICAL else Highest(ProximityLadder(c), DropLadder(c))
  }

  predicate Recovered(c: Criteria) {
    match ProximityWindow(c)
    case Some(window) =>
      var proximity := Proximity(c.current, window.low, window.high);
      proximity.Some? && proximity.value <= c.recoveryProximity + EPSILON
    case None =>
      if c.lowAlarm.Some? then c.current - c.lowAlarm.value > c.warningMargin
      else c.drop < c.dropLimit
  }

  // ----- the ladder is monotone

  lemma ScaledQuotient(a: real, b: real, span: real)
    requires span > 0.0 && a <= b
    ensures a / span * 100.0 <= b / span * 100.0
  {
    assert b / span - a / span == (b - a) / span;
  }

  lemma ProximityIsMonotone(p: real, q: real, low: real, high: real)
    requires high > low && q <= p
    ensures Proximity(p, low, high).value <= Proximity(q, low, high).value
  {
    ScaledQuotient(high - p, high - q, high - low);
  }

  /** Less light or a larger drop never lowers the severity, whatever the thresholds. */
  lemma LadderIsMonotone(c: Criteria, current: real, drop: real)
    requires current <= c.current && drop >= c.drop
    ensures Rank(LadderFor(c.(current := current, drop := drop))) >= Rank(LadderFor(c))
  {
    var d := c.(current := current, drop := drop);
    var window := ProximityWindow(c);
    assert ProximityWindow(d) == window;
    if window.Some? {
      ProximityIsMonotone(c.current, current, window.value.low, window.value.high);
    }
    assert Rank(ProximityLadder(d)) >= Rank(ProximityLadder(c));
  }

  // ----- recovery against alarm

  /** What a sensible rule and a sensible transceiver publish. */
  ghost predicate Coherent(c: Criteria) {
    && c.recoveryProximity + 2.0 * EPSILON < c.warningProximity <= c.majorProximity
    && c.warningProximity <= 100.0
    && c.warningMargin >= 0.0
    && (c.lowAlarm.Some? && c.lowWarning.Some? ==> c.lowAlarm.value <= c.lowWarning.value)
  }

  /** At its Low Alarm a sample is 100 % near, in either window. */
  lemma LowMeansFullyNear(c: Criteria)
    requires c.lowAlarm.Some? && c.lowWarning.Some? ==> c.lowAlarm.value <= c.lowWarning.value
    requires AtLow(c) && ProximityWindow(c).Some?
    ensures var window := ProximityWindow(c).value; Proximity(c.current, window.low, window.high) == Some(100.0)
  {
    var window := ProximityWindow(c).value;
    var span := window.high - window.low;
    WholeSpan(window.high - c.current, span);
  }

  lemma WholeSpan(x: real, span: real)
    requires 0.0 < span <= x
    ensures x / span * 100.0 >= 100.0
  {
    var q := x / span;
    assert q * span == x;
    Cancel(1.0, q, span);
  }

  lemma Cancel(a: real, b: real, span: real)
    requires span > 0.0 && a * span <= b * span
    ensures a <= b
  {
    assert (b - a) * span >= 0.0;
  }

  /**
   * A recovered sample is on the ladder exactly as far as its recent drop puts
   * it: proximity, margin and Low Alarm cannot hold it there.
   */
  lemma RecoveredLeavesOnlyTheDrop(c: Criteria)
    requires Coherent(c) && Recovered(c)
    ensures LadderFor(c) == DropLadder(c)
    ensures LadderFor(c) == NONE <==> c.drop < c.dropLimit && c.drop < c.majorDropLimit
  {
    if AtLow(c) && ProximityWindow(c).Some? {
      LowMeansFullyNear(c);
    }
    assert ProximityLadder(c) == NONE;
  }

  /**
   * The gap between the two limits is needed: without it a level exists that is
   * recovered and on the ladder for its proximity alone.
   */
  lemma RecoveryGapIsNeeded(c: Criteria) returns (current: real)
    requires ProximityWindow(c).Some?
    requires 0.0 <= c.warningProximity - EPSILON <= 100.0
    requires c.warningProximity <= c.recoveryProximity + 2.0 * EPSILON
    ensures var d := c.(current := current); Recovered(d) && ProximityLadder(d) != NONE
  {
    var window := ProximityWindow(c).value;
    var span, near := window.high - window.low, c.warningProximity - EPSILON;
    current := window.high - near / 100.0 * span;
    assert window.high - current == near / 100.0 * span;
    assert near / 100.0 * span / span == near / 100.0;
    assert Proximity(current, window.low, window.high) == Some(near);
    assert ProximityWindow(c.(current := current)) == Some(window);
  }

  /**
   * With a window present recovery does not look at the drop, so a healthy level
   * reached by a steep fall is MAJOR and recovered at once.
   */
  lemma SteepFallIsMajorAndRecovered()
    ensures var c := Criteria(-5.0, Some(-20.0), Some(0.0), None, None, 90.0, 95.0, true, 3.0, 6.0, 3.0, 5.0, 85.0);
            Coherent(c) && Recovered(c) && LadderFor(c) == MAJOR
  {
    var c := Criteria(-5.0, Some(-20.0), Some(0.0), None, None, 90.0, 95.0, true, 3.0, 6.0, 3.0, 5.0, 85.0);
    assert (0.0 - c.current) / 20.0 * 100.0 == 25.0;
  }

  // ----- sustained severities

  predicate Sustained(ladders: seq<Ladder>, severity: Ladder, required: nat) {
    required >= 1 && |ladders| >= required &&
    forall ladder :: ladder in LastOf(ladders, required) ==> ladder != NONE && Rank(ladder) >= Rank(severity)
  }

  datatype TriggerSamples = TriggerSamples(critical: nat, major: nat, warning: nat)

  /** The highest severity its own number of latest samples sustains. */
  function Target(ladders: seq<Ladder>, samples: TriggerSamples): Option<Ladder> {
    if Sustained(ladders, CRITICAL, samples.critical) then Some(CRITICAL)
    else if Sustained(ladders, MAJOR, samples.major) then Some(MAJOR)
    else if Sustained(ladders, WARNING, samples.warning) then Some(WARNING)
    else None
  }

  /** `recoveries.length >= n && recoveries.slice(-n).every(Boolean)` */
  predicate SustainedRecovery(recoveries: seq<bool>, required: nat) {
    |recoveries| >= required && forall recovered :: recovered in LastOf(recoveries, required) ==> recovered
  }

  predicate IsAtLeast(ladder: Ladder, severity: Ladder) {
    match severity
    case NONE => ladder != NONE
    case WARNING => ladder == WARNING || ladder == MAJOR || ladder == CRITICAL
    case MAJOR => ladder == MAJOR || ladder == CRITICAL
    case CRITICAL => ladder == CRITICAL
  }

  function AtLeast(severity: Ladder): Ladder -> bool {
    (ladder: Ladder) => IsAtLeast(ladder, severity)
  }

  /** The latest samples have been at the severity or above it for as long as required. */
  lemma SustainedIsRun(ladders: seq<Ladder>, severity: Ladder, required: nat)
    ensures Sustained(ladders, severity, required) <==> required >= 1 && RunOf(ladders, AtLeast(severity)) >= required
  {
    LastOfIsRun(ladders, AtLeast(severity), required);
  }

  /** The same for recovery, which asked for no samples at all wants every one. */
  lemma RecoveryIsRun(recoveries: seq<bool>, required: nat)
    ensures SustainedRecovery(recoveries, required) <==>
            RunOf(recoveries, (recovered: bool) => recovered) >= if required == 0 then |recoveries| else required
  {
    LastOfIsRun(recoveries, (recovered: bool) => recovered, required);
  }

  ghost predicate RunsFor(ladders: seq<Ladder>, severity: Ladder, required: nat) {
    required >= 1 && RunOf(ladders, AtLeast(severity)) >= required
  }

  /** The target is the highest severity whose run is as long as that severity requires. */
  lemma TargetIsHighestSustained(ladders: seq<Ladder>, critical: nat, major: nat, warning: nat)
    ensures Target(ladders, TriggerSamples(critical, major, warning)) ==
            if RunsFor(ladders, CRITICAL, critical) then Some(CRITICAL)
            else if RunsFor(ladders, MAJOR, major) then Some(MAJOR)
            else if RunsFor(ladders, WARNING, warning) then Some(WARNING)
            else None
  {
    SustainedIsRun(ladders, CRITICAL, critical);
    SustainedIsRun(ladders, MAJOR, major);
    SustainedIsRun(ladders, WARNING, warning);
  }

  /** A target is never above what the latest sample itself shows. */
  lemma TargetIsShownByTheLatest(ladders: seq<Ladder>, samples: TriggerSamples)
    ensures Target(ladders, samples).Some? ==>
              ladders != [] && 1 <= Rank(Target(ladders, samples).value) <= Rank(ladders[|ladders| - 1])
  {
    if ladders != [] {
      var last := ladders[|ladders| - 1];
      forall n: nat | 1 <= n <= |ladders| ensures last in LastOf(ladders, n) {
        var tail := LastOf(ladders, n);
        assert tail[|tail| - 1] == last;
      }
    }
  }

  lemma RecoveryIsShownByTheLatest(recoveries: seq<bool>, required: nat)
    requires SustainedRecovery(recoveries, required) && recoveries != []
    ensures recoveries[|recoveries| - 1]
  {
    var tail := LastOf(recoveries, required);
    assert tail[|tail| - 1] in tail;
  }

  // ----- the published explanation

  datatype Reason = AT_LOW | PROXIMITY | MARGIN | TREND

  datatype Trigger = LOW_REACHED | RAPID_DROP | NEAR_LOW | SMALL_MARGIN

  datatype Outcome = Outcome(reason: Reason, value: real, limit: real)

  function Explain(c: Criteria, target: Ladder): Outcome {
    if target == CRITICAL && AtLow(c) then
      Outcome(AT_LOW, Round2(c.current), Round2(c.lowAlarm.value))
    else if Rank(DropLadder(c)) > Rank(ProximityLadder(c)) then
      Outcome(TREND, c.drop, if DropLadder(c) == MAJOR then c.majorDropLimit else c.dropLimit)
    else
      match ProximityWindow(c)
      case Some(window) =>
        var proximity := Proximity(c.current, window.low, window.high);
        Outcome(PROXIMITY, Round2(if proximity.Some? then proximity.value else 0.0),
                if target == MAJOR then c.majorProximity else c.warningProximity)
      case None =>
        if c.lowAlarm.Some? then Outcome(MARGIN, Round2(c.current - c.lowAlarm.value), c.warningMargin)
        else Outcome(TREND, c.drop, c.dropLimit)
  }

  /** Every criterion the sample meets. */
  function Triggers(c: Criteria): set<Trigger> {
    (if AtLow(c) then {LOW_REACHED} else {})
    + (if DropLadder(c) != NONE then {RAPID_DROP} else {})
    + match ProximityWindow(c)
      case Some(window) =>
        var proximity := Proximity(c.current, window.low, window.high);
        (if proximity.Some? && proximity.value >= c.warningProximity - EPSILON then {NEAR_LOW} else {})
      case None =>
        (if c.lowAlarm.Some? && c.current - c.lowAlarm.value <= c.warningMargin then {SMALL_MARGIN} else {})
  }

  function TriggerOf(reason: Reason): Trigger {
    match reason
    case AT_LOW => LOW_REACHED
    case TREND => RAPID_DROP
    case PROXIMITY => NEAR_LOW
    case MARGIN => SMALL_MARGIN
  }

  /** What the reason is about, before rounding. */
  function Measured(c: Criteria, reason: Reason): real {
    match reason
    case AT_LOW => c.current
    case TREND => c.drop
    case PROXIMITY =>
      (match ProximityWindow(c)
       case Some(window) =>
         var proximity := Proximity(c.current, window.low, window.high);
         if proximity.Some? then proximity.value else 0.0
       case None => 0.0)
    case MARGIN => if c.lowAlarm.Some? then c.current - c.lowAlarm.value else 0.0
  }

  /** The reason is among the criteria the sample meets, and the measured value reaches the published limit. */
  ghost predicate Truthful(c: Criteria, outcome: Outcome) {
    && TriggerOf(outcome.reason) in Triggers(c)
    && match outcome.reason
       case AT_LOW => outcome.value <= outcome.limit
       case TREND => c.drop >= outcome.limit
       case PROXIMITY => Measured(c, PROXIMITY) >= outcome.limit - EPSILON
       case MARGIN => Measured(c, MARGIN) <= outcome.limit
  }

  /** The published value is the measured one to the second decimal; a drop is published as it is. */
  lemma PublishedValueIsMeasured(c: Criteria, target: Ladder)
    ensures var outcome := Explain(c, target);
            && Measured(c, outcome.reason) - 0.005 <= outcome.value <= Measured(c, outcome.reason) + 0.005
            && (outcome.reason == TREND ==> outcome.value == c.drop)
  {
    RoundingIsClose(Measured(c, Explain(c, target).reason));
  }

  /**
   * For every target the latest sample shows, the explanation is true: the Low
   * Alarm case, the drop case, and proximity or margin otherwise. The final
   * fallback of the decision is never taken.
   */
  lemma ExplanationIsTrue(c: Criteria, target: Ladder)
    requires c.warningProximity <= c.majorProximity <= 100.0 && c.warningMargin >= 0.0
    requires c.lowAlarm.Some? && c.lowWarning.Some? ==> c.lowAlarm.value <= c.lowWarning.value
    requires 1 <= Rank(target) <= Rank(LadderFor(c))
    ensures Truthful(c, Explain(c, target))
    ensures ProximityWindow(c).None? && c.lowAlarm.None? ==> Rank(DropLadder(c)) > Rank(ProximityLadder(c))
  {
    ExplanationIsTrueExactly(c, target);
    if AtLow(c) && ProximityWindow(c).Some? {
      LowMeansFullyNear(c);
    }
  }

  /**
   * Without assuming anything about Low Alarm and Low Warning: the one way to
   * publish an untrue reason is a sample at its Low Alarm explained under a lower
   * target while the window does not see it as near.
   */
  lemma ExplanationIsTrueExactly(c: Criteria, target: Ladder)
    requires c.warningProximity <= c.majorProximity
    requires 1 <= Rank(target) <= Rank(LadderFor(c))
    ensures Truthful(c, Explain(c, target)) <==> !ExplainedByTheWrongWindow(c, target)
  {
    if target == CRITICAL && AtLow(c) {
      RoundingIsMonotone(c.current, c.lowAlarm.value);
    }
  }

  /** At Low Alarm, target below CRITICAL, no larger drop to name, and the other criterion not met. */
  ghost predicate ExplainedByTheWrongWindow(c: Criteria, target: Ladder) {
    && AtLow(c) && target != CRITICAL
    && Rank(DropLadder(c)) <= Rank(ProximityLadder(c))
    && if ProximityWindow(c).Some? then Rank(ProximityLadder(c)) < Rank(target) else ProximityLadder(c) == NONE
  }

  /** A transceiver whose Low Alarm lies above its Low Warning publishes an untrue reason. */
  lemma WrongWindowExample()
    ensures var c := Criteria(-10.0, Some(-10.0), Some(0.0), Some(-20.0), Some(0.0), 90.0, 95.0, true, 3.0, 0.0, 3.0,
                              5.0, 85.0);
            && ExplainedByTheWrongWindow(c, MAJOR) && Rank(MAJOR) <= Rank(LadderFor(c))
            && Explain(c, MAJOR).reason == PROXIMITY && NEAR_LOW !in Triggers(c)
  {
    var c := Criteria(-10.0, Some(-10.0), Some(0.0), Some(-20.0), Some(0.0), 90.0, 95.0, true, 3.0, 0.0, 3.0, 5.0,
                      85.0);
    assert (0.0 - c.current) / 20.0 * 100.0 == 50.0;
  }
}
