/** What an optical pass does, said of the readings, the limits, the rules and the rows alone. */
module OpticalAlarms {
  import opened Options
  import opened Slices
  import opened Grouping
  import opened Fingerprint
  import opened AlarmStore
  import opened AlarmChecks
  import opened AlarmPassLaws
  import opened AlarmPassOutcome
  import opened AlarmRows
  import opened AlarmEngine
  import opened AlarmEngineLaws
  import CA = CounterAlarms
  import OL = OpticalLadder
  import OT = OpticalTrend
  import OS = OpticalSeries

  // ----- what one reading shows

  const SLACK := 0.000000001

  /** Limits of a transceiver between which a reading is placed. */
  datatype Span = Span(low: real, high: real)

  /** The warning limits if both exist and are in order, else the alarm limits, else none. */
  function SpanOf(side: OS.Side): Option<Span> {
    match (side.lowWarning, side.highWarning, side.lowAlarm, side.highAlarm)
    case (Some(low), Some(high), _, _) =>
      if low < high then Some(Span(low, high)) else AlarmSpan(side)
    case _ => AlarmSpan(side)
  }

  function AlarmSpan(side: OS.Side): Option<Span> {
    match (side.lowAlarm, side.highAlarm)
    case (Some(low), Some(high)) => if low < high then Some(Span(low, high)) else None
    case _ => None
  }

  /** On the way from the high end (0 %) to the low end (100 %) the reading has come at least this far. */
  predicate AsNearAs(current: real, span: Span, percent: real) {
    percent <= 0.0 || (percent <= 100.0 && (span.high - current) * 100.0 >= percent * (span.high - span.low))
  }

  /** It has come at most this far. */
  predicate NoNearerThan(current: real, span: Span, percent: real) {
    percent >= 100.0 || (percent >= 0.0 && (span.high - current) * 100.0 <= percent * (span.high - span.low))
  }

  predicate AtLowAlarm(current: real, side: OS.Side, config: OpticalConfig) {
    config.criticalAtLow && side.lowAlarm.Some? && current <= side.lowAlarm.value
  }

  predicate IsMajor(current: real, drop: real, side: OS.Side, config: OpticalConfig) {
    || AtLowAlarm(current, side, config)
    || drop >= config.majorDropLimit
    || (SpanOf(side).Some? && AsNearAs(current, SpanOf(side).value, config.majorProximity - SLACK))
  }

  /** CRITICAL at the Low Alarm; MAJOR also by nearness or a large drop; WARNING also by margin or a drop. */
  predicate Shows(severity: OL.Ladder, current: real, drop: real, side: OS.Side, config: OpticalConfig) {
    match severity
    case NONE => true
    case CRITICAL => AtLowAlarm(current, side, config)
    case MAJOR => IsMajor(current, drop, side, config)
    case WARNING =>
      || IsMajor(current, drop, side, config)
      || drop >= config.dropLimit
      || (SpanOf(side).Some? && AsNearAs(current, SpanOf(side).value, config.warningProximity - SLACK))
      || (SpanOf(side).None? && side.lowAlarm.Some? && current - side.lowAlarm.value <= config.warningMargin)
  }

  /** Far enough from the low end, or without a span above the margin, or without limits not dropping. */
  predicate ShowsRecovery(current: real, drop: real, side: OS.Side, config: OpticalConfig) {
    if SpanOf(side).Some? then NoNearerThan(current, SpanOf(side).value, config.recoveryProximity + SLACK)
    else if side.lowAlarm.Some? then current - side.lowAlarm.value > config.warningMargin
    else drop < config.dropLimit
  }

  // ----- what the readings of a series show

  /** How far the reading lies below the highest genuine one of its window, if the window holds three. */
  ghost function DropOver(points: seq<OT.Reading>, index: nat, windowMs: int): real
    requires index < |points|
  {
    var values := OT.Within(points[..index + 1], points[index].time - windowMs);
    if |values| < 3 then 0.0 else OT.Drop(values)
  }

  ghost predicate PointShows(series: OS.Series, config: OpticalConfig, index: nat, severity: OL.Ladder)
    requires index < |series.points|
  {
    var power := series.points[index].power;
    power.Some?
    && Shows(severity, power.value, DropOver(series.points, index, config.dropWindowMs), series.side, config)
  }

  ghost predicate PointRecovers(series: OS.Series, config: OpticalConfig, index: nat)
    requires index < |series.points|
  {
    var power := series.points[index].power;
    power.Some?
    && ShowsRecovery(power.value, DropOver(series.points, index, config.dropWindowMs), series.side, config)
  }

  /** How many points in a row, counted back from this one, show at least the severity. */
  ghost function BadRun(series: OS.Series, config: OpticalConfig, severity: OL.Ladder, count: nat): nat
    requires count <= |series.points|
  {
    if count == 0 then 0
    else if PointShows(series, config, count - 1, severity) then BadRun(series, config, severity, count - 1) + 1
    else 0
  }

  ghost function GoodRun(series: OS.Series, config: OpticalConfig, count: nat): nat
    requires count <= |series.points|
  {
    if count == 0 then 0
    else if PointRecovers(series, config, count - 1) then GoodRun(series, config, count - 1) + 1
    else 0
  }

  function SamplesAskedFor(config: OpticalConfig, severity: OL.Ladder): nat {
    match severity
    case CRITICAL => config.samples.critical
    case MAJOR => config.samples.major
    case WARNING => config.samples.warning
    case NONE => 0
  }

  /** The latest readings have shown the severity for as many samples as the rule asks for. */
  ghost predicate Sustains(series: OS.Series, config: OpticalConfig, severity: OL.Ladder) {
    var asked := SamplesAskedFor(config, severity);
    asked >= 1 && BadRun(series, config, severity, |series.points|) >= asked
  }

  /** The most severe one sustained, not below the rule's own severity. */
  ghost function SustainedSeverity(series: OS.Series, rule: Rule): Option<Severity>
    requires rule.config.Optical?
  {
    var config := rule.config.optical;
    if Sustains(series, config, OL.CRITICAL) then Some(AtLeast(rule.severity, Severity.CRITICAL))
    else if Sustains(series, config, OL.MAJOR) then Some(AtLeast(rule.severity, Severity.MAJOR))
    else if Sustains(series, config, OL.WARNING) then Some(AtLeast(rule.severity, Severity.WARNING))
    else None
  }

  /** INFO < WARNING < MAJOR < CRITICAL */
  function AtLeast(floor: Severity, severity: Severity): Severity {
    match (floor, severity)
    case (CRITICAL, _) => Severity.CRITICAL
    case (_, CRITICAL) => Severity.CRITICAL
    case (MAJOR, _) => Severity.MAJOR
    case (_, MAJOR) => Severity.MAJOR
    case (WARNING, _) => Severity.WARNING
    case (_, WARNING) => Severity.WARNING
    case (INFO, INFO) => INFO
  }

  /** Asked for no samples a rule wants every one of the readings recovered. */
  ghost predicate HasRecovered(series: OS.Series, config: OpticalConfig) {
    var run := GoodRun(series, config, |series.points|);
    if config.recoverySamples == 0 then run == |series.points| else run >= config.recoverySamples
  }

  // ----- readings and criteria

  lemma ProductsCompare(part: real, whole: real, percent: real)
    requires whole > 0.0
    ensures part / whole * 100.0 >= percent <==> part * 100.0 >= percent * whole
    ensures part / whole * 100.0 <= percent <==> part * 100.0 <= percent * whole
  {
    assert part / whole * 100.0 * whole == part * 100.0;
    CA.ProductOrder(part / whole * 100.0, percent, whole);
  }

  lemma NearnessIsProximity(current: real, span: Span, percent: real)
    requires span.low < span.high
    ensures OL.Proximity(current, span.low, span.high).Some?
    ensures var proximity := OL.Proximity(current, span.low, span.high).value;
            && (proximity >= percent <==> AsNearAs(current, span, percent))
            && (proximity <= percent <==> NoNearerThan(current, span, percent))
  {
    ProductsCompare(span.high - current, span.high - span.low, percent);
    ProductsCompare(span.high - current, span.high - span.low, 0.0);
    ProductsCompare(span.high - current, span.high - span.low, 100.0);
  }

  lemma SpanIsWindow(c: OL.Criteria, side: OS.Side)
    requires c.lowAlarm == side.lowAlarm && c.highAlarm == side.highAlarm
             && c.lowWarning == side.lowWarning && c.highWarning == side.highWarning
    ensures SpanOf(side).Some? <==> OL.ProximityWindow(c).Some?
    ensures SpanOf(side).Some? ==>
              SpanOf(side).value.low < SpanOf(side).value.high
              && SpanOf(side).value.low == OL.ProximityWindow(c).value.low
              && SpanOf(side).value.high == OL.ProximityWindow(c).value.high
  {
  }

  /** The ladder of a reading is at or above a severity exactly when the reading shows it. */
  lemma LadderShows(series: OS.Series, power: real, drop: real, config: OpticalConfig, severity: OL.Ladder)
    ensures var c := CriteriaWith(series, power, drop, config);
            && (OL.Rank(OL.LadderFor(c)) >= OL.Rank(severity) <==> Shows(severity, power, drop, series.side, config))
            && (OL.Recovered(c) <==> ShowsRecovery(power, drop, series.side, config))
  {
    var c := CriteriaWith(series, power, drop, config);
    SpanIsWindow(c, series.side);
    if SpanOf(series.side).Some? {
      var span := SpanOf(series.side).value;
      NearnessIsProximity(power, span, config.majorProximity - SLACK);
      NearnessIsProximity(power, span, config.warningProximity - SLACK);
      NearnessIsProximity(power, span, config.recoveryProximity + SLACK);
    }
  }

  lemma PointTells(series: OS.Series, config: OpticalConfig, index: nat, severity: OL.Ladder)
    requires OT.SortedByTime(series.points) && index < |series.points| && severity != OL.NONE
    ensures var c := CriteriaAt(series, index, config);
            && (LadderOf(c) != OL.NONE && OL.Rank(LadderOf(c)) >= OL.Rank(severity) <==>
                PointShows(series, config, index, severity))
            && (RecoveredAt(c) <==> PointRecovers(series, config, index))
  {
    OS.DropIsOverTheWindow(series, index, config.dropWindowMs);
    if series.points[index].power.Some? {
      LadderShows(series, series.points[index].power.value, DropOver(series.points, index, config.dropWindowMs), config,
                  severity);
    }
  }

  lemma {:induction false} BadRunIsRun(series: OS.Series, config: OpticalConfig, severity: OL.Ladder, count: nat)
    requires OT.SortedByTime(series.points) && count <= |series.points| && severity != OL.NONE
    ensures RunOf(Ladders(AllCriteria(series, config))[..count], OL.AtLeast(severity))
            == BadRun(series, config, severity, count)
  {
    if count == 0 {
    } else {
      var ladders := Ladders(AllCriteria(series, config));
      BadRunIsRun(series, config, severity, count - 1);
      PointTells(series, config, count - 1, severity);
      assert ladders[count - 1] == LadderOf(CriteriaAt(series, count - 1, config));
      assert OL.IsAtLeast(ladders[count - 1], severity) <==> PointShows(series, config, count - 1, severity);
      RunOneMore(ladders, OL.AtLeast(severity), count);
    }
  }

  lemma {:induction false} GoodRunIsRun(series: OS.Series, config: OpticalConfig, count: nat)
    requires OT.SortedByTime(series.points) && count <= |series.points|
    ensures RunOf(Recoveries(AllCriteria(series, config))[..count], (recovered: bool) => recovered)
            == GoodRun(series, config, count)
  {
    if count == 0 {
    } else {
      var recoveries := Recoveries(AllCriteria(series, config));
      GoodRunIsRun(series, config, count - 1);
      PointTells(series, config, count - 1, OL.WARNING);
      assert recoveries[count - 1] == RecoveredAt(CriteriaAt(series, count - 1, config));
      RunOneMore(recoveries, (recovered: bool) => recovered, count);
    }
  }

  lemma RunIsSustained(series: OS.Series, config: OpticalConfig, severity: OL.Ladder)
    requires OT.SortedByTime(series.points) && severity != OL.NONE
    ensures OL.RunsFor(Ladders(AllCriteria(series, config)), severity, SamplesAskedFor(config, severity)) <==>
            Sustains(series, config, severity)
  {
    var ladders := Ladders(AllCriteria(series, config));
    BadRunIsRun(series, config, severity, |series.points|);
    assert ladders[..|series.points|] == ladders;
  }

  // ----- rules and checks

  /** What the check of a rule on a series decides. */
  ghost predicate Tells(c: Check, i: Interface, rule: Rule, series: OS.Series)
    requires rule.config.Optical?
  {
    && SeriesFor(c) == Series(i.id, rule.kind, rule.id, series.metricKey) && c.escalates
    && (c.recovered <==> HasRecovered(series, rule.config.optical))
    && c.opens == SustainedSeverity(series, rule)
  }

  lemma TargetIsSustained(series: OS.Series, config: OpticalConfig)
    requires OT.SortedByTime(series.points)
    ensures OL.Target(Ladders(AllCriteria(series, config)), config.samples) ==
            if Sustains(series, config, OL.CRITICAL) then Some(OL.CRITICAL)
            else if Sustains(series, config, OL.MAJOR) then Some(OL.MAJOR)
            else if Sustains(series, config, OL.WARNING) then Some(OL.WARNING)
            else None
  {
    RunIsSustained(series, config, OL.CRITICAL);
    RunIsSustained(series, config, OL.MAJOR);
    RunIsSustained(series, config, OL.WARNING);
    OL.TargetIsHighestSustained(Ladders(AllCriteria(series, config)), config.samples.critical, config.samples.major,
                                config.samples.warning);
  }

  lemma RecoveryIsGoodRun(series: OS.Series, config: OpticalConfig)
    requires OT.SortedByTime(series.points)
    ensures OL.SustainedRecovery(Recoveries(AllCriteria(series, config)), config.recoverySamples) <==>
            HasRecovered(series, config)
  {
    var recoveries := Recoveries(AllCriteria(series, config));
    GoodRunIsRun(series, config, |series.points|);
    assert recoveries[..|series.points|] == recoveries;
    OL.RecoveryIsRun(recoveries, config.recoverySamples);
  }

  /** What is sustained is sustained by a latest reading that exists. */
  lemma TargetHasLatest(criteria: seq<Option<OL.Criteria>>, samples: OL.TriggerSamples)
    ensures OL.Target(Ladders(criteria), samples).Some? ==> HasLatest(criteria)
  {
    OL.TargetIsShownByTheLatest(Ladders(criteria), samples);
  }

  lemma SeverityIsRaised(floor: Severity)
    ensures forall severity :: HighestSeverity(floor, severity) == AtLeast(floor, severity)
  {
  }

  lemma CheckTells(deviceId: string, i: Interface, rule: Rule, series: OS.Series)
    requires rule.config.Optical? && OT.SortedByTime(series.points)
    ensures Tells(OpticalCheck(deviceId, i, rule, series.metricKey, AllCriteria(series, rule.config.optical)), i, rule,
                  series)
  {
    TargetIsSustained(series, rule.config.optical);
    TargetHasLatest(AllCriteria(series, rule.config.optical), rule.config.optical.samples);
    SeverityIsRaised(rule.severity);
    RecoveryIsGoodRun(series, rule.config.optical);
  }

  /** A rule of the optical type that judges this series of this interface in this pass. */
  ghost predicate Judges(input: OpticalInput, i: Interface, rule: Rule, series: OS.Series, now: int) {
    && i in input.interfaces && rule in input.rules && rule.kind == OPTICAL_RX_DEGRADATION && rule.config.Optical?
    && CA.InScope(rule, input.deviceId, i, input.linked) && series in SeriesOf(input, i, rule.config.optical, now)
  }

  function OfInterface(samples: seq<OS.Sample>, id: string): seq<OS.Sample> {
    if samples == [] then []
    else
      var last := samples[|samples| - 1];
      OfInterface(samples[..|samples| - 1], id) + if last.interfaceId == id then [last] else []
  }

  lemma {:induction false} OwnSamples(samples: seq<OS.Sample>, id: string)
    ensures Select(samples, SampleOf(), id) == OfInterface(samples, id)
  {
    if samples == [] {
    } else {
      OwnSamples(samples[..|samples| - 1], id);
    }
  }

  /** The series of an interface: its own samples in time order, its own limits, and what it reports now. */
  lemma JudgedSeriesAreExact(input: OpticalInput, i: Interface, config: OpticalConfig, now: int)
    returns (read: seq<OS.Lane>, ordered: seq<OS.Sample>)
    ensures multiset(ordered) == multiset(OfInterface(input.samples, i.id)) && OS.InTimeOrder(ordered)
    ensures OS.AreSeries(SeriesOf(input, i, config, now), i.port, read, ordered,
                         if i.id in input.thresholds then Some(input.thresholds[i.id]) else None,
                         config.manual, now, input.aggregated)
  {
    OwnSamples(input.samples, i.id);
    read, ordered := OS.SeriesAreExact(i.port, Select(input.samples, SampleOf(), i.id), RecordOf(input, i),
                                       config.manual,
                                       now, input.aggregated);
  }

  lemma CheckIsOfRule(input: OpticalInput, c: Check, now: int) returns (i: Interface, rule: Rule, series: OS.Series)
    requires c in OpticalChecks(input, now)
    ensures Judges(input, i, rule, series, now) && Tells(c, i, rule, series)
  {
    i, rule, series := OpticalCheckHasOrigin(input, c, now);
    CA.ScopeIsMatch(rule, input.deviceId, i, input.linked);
    SeriesAreSorted(input, i, rule.config.optical, now, series);
    CheckTells(input.deviceId, i, rule, series);
  }

  lemma RuleIsChecked(input: OpticalInput, i: Interface, rule: Rule, series: OS.Series, now: int) returns (c: Check)
    requires Judges(input, i, rule, series, now)
    ensures c in OpticalChecks(input, now) && Tells(c, i, rule, series)
  {
    c := OpticalCheck(input.deviceId, i, rule, series.metricKey, AllCriteria(series, rule.config.optical));
    CA.ScopeIsMatch(rule, input.deviceId, i, input.linked);
    SeriesAreSorted(input, i, rule.config.optical, now, series);
    CheckTells(input.deviceId, i, rule, series);
    OpticalCheckIsMade(c, input, i, rule, series, now);
  }

  // ----- what becomes of the alarms

  /** This rule was in alarm on this series, and has seen it recover. */
  ghost predicate EndsIt(s: Store, input: OpticalInput, i: Interface, metricKey: string, rule: Rule, series: OS.Series,
                         now: int) {
    && Judges(input, i, rule, series, now) && series.metricKey == metricKey
    && InAlarm(s, Series(i.id, rule.kind, rule.id, metricKey)) && HasRecovered(series, rule.config.optical)
  }

  /** Some rule at or after this place of the list does. */
  ghost predicate EndedByRule(s: Store, input: OpticalInput, i: Interface, metricKey: string, from: nat, now: int) {
    exists n, series: OS.Series :: from <= n < |input.rules|
        && EndsIt(s, input, i, metricKey, input.rules[n], series, now)
  }

  /** The rule at this place opens its alarm of the series, and no later one ends it again. */
  ghost predicate OpensIt(s: Store, input: OpticalInput, i: Interface, m: nat, series: OS.Series, now: int)
    requires m < |input.rules|
  {
    var rule := input.rules[m];
    && Judges(input, i, rule, series, now) && SustainedSeverity(series, rule).Some?
    && !Held(s, Series(i.id, rule.kind, rule.id, series.metricKey), now)
    && !EndedByRule(s, input, i, series.metricKey, m + 1, now)
  }

  ghost predicate SomeEnds(s: Store, input: OpticalInput, x: Series, now: int) {
    && x.kind == OPTICAL_RX_DEGRADATION
    && exists i: Interface :: i.id == x.interfaceId && EndedByRule(s, input, i, x.metricKey, 0, now)
  }

  ghost predicate SomeOpens(s: Store, input: OpticalInput, x: Series, now: int) {
    exists i: Interface, m: nat, series: OS.Series ::
      m < |input.rules| && i.id == x.interfaceId && CA.IsRuleOf(input.rules[m], x) && series.metricKey == x.metricKey
      && OpensIt(s, input, i, m, series, now)
  }

  // ----- the order of the rules is the order of their checks

  lemma RulesComeInOrder(input: OpticalInput, j: nat, k: nat, n: nat, m: nat, now: int)
    requires DistinctOpticalInput(input) && j < k < |OpticalChecks(input, now)|
    requires n < |input.rules| && m < |input.rules|
    requires OpticalChecks(input, now)[j].interfaceId == OpticalChecks(input, now)[k].interfaceId
    requires OpticalChecks(input, now)[j].ruleId == input.rules[n].id
    requires OpticalChecks(input, now)[k].ruleId == input.rules[m].id
    ensures n <= m
  {
    var a, p, b, q := FlatMapOrder(input.interfaces, OpticalInterfaceChecks(input, now), j, k);
    var c, d := OpticalChecks(input, now)[j], OpticalChecks(input, now)[k];
    assert c in OpticalInterfaceChecks(input, now)(input.interfaces[a]);
    assert d in OpticalInterfaceChecks(input, now)(input.interfaces[b]);
    OpticalInterfaceOfCheck(input, input.interfaces[a], c, now);
    OpticalInterfaceOfCheck(input, input.interfaces[b], d, now);
    SameInterface(input.interfaces, input.interfaces[a], input.interfaces[b]);
    assert a == b;
    RulesOfInterface(input, input.interfaces[a], p, q, n, m, now);
  }

  lemma RulesOfInterface(input: OpticalInput, i: Interface, p: nat, q: nat, n: nat, m: nat, now: int)
    requires DistinctRules(input.rules) && p < q < |OpticalInterfaceChecks(input, now)(i)|
    requires n < |input.rules| && m < |input.rules|
    requires OpticalInterfaceChecks(input, now)(i)[p].ruleId == input.rules[n].id
    requires OpticalInterfaceChecks(input, now)(i)[q].ruleId == input.rules[m].id
    ensures n <= m
  {
    var f := OpticalRuleChecks(input, i, now);
    var a, p', b, q' := FlatMapOrder(input.rules, f, p, q);
    var c, d := OpticalInterfaceChecks(input, now)(i)[p], OpticalInterfaceChecks(input, now)(i)[q];
    assert c in f(input.rules[a]) && d in f(input.rules[b]);
    var x := OpticalRuleCheckHasOrigin(input, i, input.rules[a], c, now);
    var y := OpticalRuleCheckHasOrigin(input, i, input.rules[b], d, now);
    CA.SameRule(input.rules, a, n);
    CA.SameRule(input.rules, b, m);
  }

  // ----- ending and opening, by rules and by checks

  lemma EndingCheck(s: Store, input: OpticalInput, j: nat, x: Series, now: int)
    returns (i: Interface, n: nat, series: OS.Series)
    requires j < |OpticalChecks(input, now)| && Ends(s, OpticalChecks(input, now)[j], x)
    ensures x.kind == OPTICAL_RX_DEGRADATION && i in input.interfaces && i.id == x.interfaceId
    ensures n < |input.rules| && input.rules[n].id == OpticalChecks(input, now)[j].ruleId
    ensures EndsIt(s, input, i, x.metricKey, input.rules[n], series, now)
  {
    var rule;
    i, rule, series := CheckIsOfRule(input, OpticalChecks(input, now)[j], now);
    n :| 0 <= n < |input.rules| && input.rules[n] == rule;
  }

  lemma EndingRule(s: Store, input: OpticalInput, i: Interface, n: nat, series: OS.Series, x: Series, now: int)
    returns (j: nat)
    requires n < |input.rules| && i.id == x.interfaceId && x.kind == OPTICAL_RX_DEGRADATION
    requires EndsIt(s, input, i, x.metricKey, input.rules[n], series, now)
    ensures j < |OpticalChecks(input, now)| && Ends(s, OpticalChecks(input, now)[j], x)
    ensures OpticalChecks(input, now)[j].ruleId == input.rules[n].id
  {
    var c := RuleIsChecked(input, i, input.rules[n], series, now);
    j :| 0 <= j < |OpticalChecks(input, now)| && OpticalChecks(input, now)[j] == c;
  }

  lemma SomeEndsExactly(s: Store, input: OpticalInput, x: Series, now: int)
    ensures EndsAfter(s, OpticalChecks(input, now), -1, x) <==> SomeEnds(s, input, x, now)
  {
    if EndsAfter(s, OpticalChecks(input, now), -1, x) {
      var j :| -1 < j < |OpticalChecks(input, now)| && 0 <= j && Ends(s, OpticalChecks(input, now)[j], x);
      var i, n, series := EndingCheck(s, input, j, x, now);
      assert EndedByRule(s, input, i, x.metricKey, 0, now);
    }
    if SomeEnds(s, input, x, now) {
      var i: Interface :| i.id == x.interfaceId && EndedByRule(s, input, i, x.metricKey, 0, now);
      var n, series: OS.Series :| 0 <= n < |input.rules|
      && EndsIt(s, input, i, x.metricKey, input.rules[n], series, now);
      var j := EndingRule(s, input, i, n, series, x, now);
    }
  }

  /** The check at this place is of the rule at that place of the list. */
  ghost predicate IsCheckOf(input: OpticalInput, k: nat, i: Interface, m: nat, x: Series, now: int) {
    && k < |OpticalChecks(input, now)| && SeriesFor(OpticalChecks(input, now)[k]) == x
    && x.kind == OPTICAL_RX_DEGRADATION
    && i in input.interfaces && i.id == x.interfaceId && m < |input.rules| && input.rules[m].id == x.ruleId
  }

  lemma LaterCheckIsOfLaterRule(s: Store, input: OpticalInput, i: Interface, m: nat, k: nat, j: nat, x: Series,
                                now: int, deviceOf: string -> string)
    requires OpticalInputOk(input, deviceOf) && DistinctOpticalInput(input) && IsCheckOf(input, k, i, m, x, now)
    requires k < j < |OpticalChecks(input, now)| && Ends(s, OpticalChecks(input, now)[j], x)
    ensures EndedByRule(s, input, i, x.metricKey, m + 1, now)
  {
    var checks := OpticalChecks(input, now);
    var i', n, series := EndingCheck(s, input, j, x, now);
    SameInterface(input.interfaces, i, i');
    RulesComeInOrder(input, k, j, m, n, now);
    OpticalChecksAreDistinct(input, now, deviceOf);
    if m == n {
      OneCheckPerSeries(checks, j, k, input.deviceId, deviceOf);
    }
  }

  lemma LaterRuleHasLaterCheck(s: Store, input: OpticalInput, i: Interface, m: nat, k: nat, n: nat, series: OS.Series,
                               x: Series, now: int)
    requires DistinctOpticalInput(input) && IsCheckOf(input, k, i, m, x, now)
    requires m < n < |input.rules| && EndsIt(s, input, i, x.metricKey, input.rules[n], series, now)
    ensures EndsAfter(s, OpticalChecks(input, now), k, x)
  {
    var j := EndingRule(s, input, i, n, series, x, now);
    assert input.rules[m].id != input.rules[n].id;
    if j < k {
      RulesComeInOrder(input, j, k, n, m, now);
    }
  }

  /** After the check of a rule the series is ended exactly by the rules after it. */
  lemma LaterEndsExactly(s: Store, input: OpticalInput, i: Interface, m: nat, k: nat, x: Series, now: int,
                         deviceOf: string -> string)
    requires OpticalInputOk(input, deviceOf) && DistinctOpticalInput(input) && IsCheckOf(input, k, i, m, x, now)
    ensures EndsAfter(s, OpticalChecks(input, now), k, x) <==> EndedByRule(s, input, i, x.metricKey, m + 1, now)
  {
    if EndsAfter(s, OpticalChecks(input, now), k, x) {
      var j :| k < j < |OpticalChecks(input, now)| && 0 <= j && Ends(s, OpticalChecks(input, now)[j], x);
      LaterCheckIsOfLaterRule(s, input, i, m, k, j, x, now, deviceOf);
    }
    if EndedByRule(s, input, i, x.metricKey, m + 1, now) {
      var n, series: OS.Series :| m + 1 <= n < |input.rules|
      && EndsIt(s, input, i, x.metricKey, input.rules[n], series, now);
      LaterRuleHasLaterCheck(s, input, i, m, k, n, series, x, now);
    }
  }

  lemma OpeningCheck(s: Store, input: OpticalInput, k: nat, x: Series, now: int, deviceOf: string -> string)
    requires OpticalInputOk(input, deviceOf) && DistinctOpticalInput(input) && k < |OpticalChecks(input, now)|
    requires SeriesFor(OpticalChecks(input, now)[k]) == x && OpticalChecks(input, now)[k].opens.Some?
    requires !Held(s, x, now) && !EndsAfter(s, OpticalChecks(input, now), k, x)
    ensures SomeOpens(s, input, x, now)
  {
    var i, rule, series := CheckIsOfRule(input, OpticalChecks(input, now)[k], now);
    var m :| 0 <= m < |input.rules| && input.rules[m] == rule;
    LaterEndsExactly(s, input, i, m, k, x, now, deviceOf);
    assert OpensIt(s, input, i, m, series, now);
  }

  lemma OpeningRule(s: Store, input: OpticalInput, i: Interface, m: nat, series: OS.Series, x: Series, now: int,
                    deviceOf: string -> string)
    requires OpticalInputOk(input, deviceOf) && DistinctOpticalInput(input) && m < |input.rules|
    requires i.id == x.interfaceId && CA.IsRuleOf(input.rules[m], x) && series.metricKey == x.metricKey
    requires OpensIt(s, input, i, m, series, now)
    ensures Opens(s, OpticalChecks(input, now), x, now)
  {
    var c := RuleIsChecked(input, i, input.rules[m], series, now);
    var k :| 0 <= k < |OpticalChecks(input, now)| && OpticalChecks(input, now)[k] == c;
    LaterEndsExactly(s, input, i, m, k, x, now, deviceOf);
  }

  lemma SomeOpensExactly(s: Store, input: OpticalInput, x: Series, now: int, deviceOf: string -> string)
    requires OpticalInputOk(input, deviceOf) && DistinctOpticalInput(input)
    ensures Opens(s, OpticalChecks(input, now), x, now) <==> SomeOpens(s, input, x, now)
  {
    var checks := OpticalChecks(input, now);
    if Opens(s, checks, x, now) {
      var k :| 0 <= k < |checks| && SeriesFor(checks[k]) == x && checks[k].opens.Some? && !EndsAfter(s, checks, k, x);
      OpeningCheck(s, input, k, x, now, deviceOf);
    }
    if i: Interface, m: nat, series: OS.Series :|
         m < |input.rules| && i.id == x.interfaceId && CA.IsRuleOf(input.rules[m], x) && series.metricKey == x.metricKey
         && OpensIt(s, input, i, m, series, now) {
      OpeningRule(s, input, i, m, series, x, now, deviceOf);
    }
  }

  // ----- the optical pass

  /**
   * For every series of the device. One in alarm ends exactly when some rule in scope that
   * judges it and was in alarm has seen it recover for its own number of samples. One that
   * is not comes into alarm exactly when it is not suppressed, its rule judges it and has
   * seen some severity for that severity's own number of samples, and no rule further
   * down the list ends it again.
   */
  lemma OpticalPassAlarms(s: Store, input: OpticalInput, x: Series, now: int, deviceOf: string -> string)
    requires Safe(s, now, deviceOf) && OpticalInputOk(input, deviceOf) && DistinctOpticalInput(input)
    requires SeriesOk(x, input.deviceId, deviceOf)
    ensures InAlarm(OpticalPass(s, input, now), x) <==>
            if InAlarm(s, x) then !SomeEnds(s, input, x, now) else SomeOpens(s, input, x, now)
  {
    OpticalChecksAreDistinct(input, now, deviceOf);
    PassAlarms(s, input.deviceId, OpticalChecks(input, now), x, now, deviceOf);
    SomeEndsExactly(s, input, x, now);
    SomeOpensExactly(s, input, x, now, deviceOf);
  }

  /** INFO 0, WARNING 1, MAJOR 2, CRITICAL 3: the more severe of what there was and what is sustained. */
  function MoreSevere(severity: Severity, sustained: Option<Severity>): Severity {
    if sustained.Some? then AtLeast(severity, sustained.value) else severity
  }

  /**
   * A row that is open in the end was there, no less severe than what is sustained now and
   * otherwise unchanged, or is new: of its rule, of the severity sustained, and begun now.
   */
  ghost predicate RowOutcome(s: Store, t: Store, id: nat, deviceId: string, x: Series, sustained: Option<Severity>,
                             now: int) {
    && id < |t.alarms|
    && if InAlarm(s, x) then
         && OpenRow(s, id, x)
         && t.alarms[id] == s.alarms[id].(severity := MoreSevere(s.alarms[id].severity, sustained))
       else
         && sustained.Some?
         && t.alarms[id] == Alarm(deviceId, x.interfaceId, x.kind, sustained.value, Some(x.ruleId), Some(x.metricKey),
                                  now,
                                  None, None, None)
  }

  lemma CheckedRows(s: Store, deviceId: string, checks: seq<Check>, k: nat, id: nat, now: int,
                    deviceOf: string -> string)
    requires Safe(s, now, deviceOf) && ChecksOk(checks, deviceId, deviceOf) && k < |checks| && checks[k].escalates
    requires OpenRow(RunPass(s, deviceId, checks, now), id, SeriesFor(checks[k]))
    ensures RowOutcome(s, RunPass(s, deviceId, checks, now), id, deviceId, SeriesFor(checks[k]), checks[k].opens, now)
  {
    PassOpenRows(s, deviceId, checks, k, id, now, deviceOf);
    if id < |s.alarms| {
      RaisedIsMoreSevere(checks[k], s.alarms[id].severity);
    }
  }

  lemma RaisedIsMoreSevere(c: Check, severity: Severity)
    requires c.escalates
    ensures Raised(c, severity) == MoreSevere(severity, c.opens)
  {
  }

  lemma OpticalPassRows(s: Store, input: OpticalInput, i: Interface, rule: Rule, series: OS.Series, id: nat, now: int,
                        deviceOf: string -> string)
    requires Safe(s, now, deviceOf) && OpticalInputOk(input, deviceOf) && DistinctOpticalInput(input)
    requires Judges(input, i, rule, series, now)
    requires OpenRow(OpticalPass(s, input, now), id, Series(i.id, rule.kind, rule.id, series.metricKey))
    ensures RowOutcome(s, OpticalPass(s, input, now), id, input.deviceId,
                       Series(i.id, rule.kind, rule.id, series.metricKey), SustainedSeverity(series, rule), now)
  {
    var c := RuleIsChecked(input, i, rule, series, now);
    var k :| 0 <= k < |OpticalChecks(input, now)| && OpticalChecks(input, now)[k] == c;
    OpticalChecksAreDistinct(input, now, deviceOf);
    CheckedRows(s, input.deviceId, OpticalChecks(input, now), k, id, now, deviceOf);
  }

  /** A suppression is lifted exactly when it waits for recovery and its rule has seen the series recover. */
  lemma OpticalPassSuppressions(s: Store, input: OpticalInput, i: Interface, rule: Rule, series: OS.Series, id: nat,
                                now: int, deviceOf: string -> string)
    requires Safe(s, now, deviceOf) && OpticalInputOk(input, deviceOf) && DistinctOpticalInput(input)
    requires Judges(input, i, rule, series, now)
    ensures var t, x := OpticalPass(s, input, now), Series(i.id, rule.kind, rule.id, series.metricKey);
            HeldRow(t, id, x, now) <==>
            HeldRow(s, id, x, now)
            && !(HasRecovered(series, rule.config.optical) && s.suppressions[id].mode == UNTIL_CLEAR)
  {
    var c := RuleIsChecked(input, i, rule, series, now);
    var k :| 0 <= k < |OpticalChecks(input, now)| && OpticalChecks(input, now)[k] == c;
    OpticalChecksAreDistinct(input, now, deviceOf);
    PassHeldRows(s, input.deviceId, OpticalChecks(input, now), k, id, now, deviceOf);
  }

  /** What has ended during a pass ended at the time of the pass; a row is rewritten in its severity alone. */
  lemma OpticalPassEndsNow(s: Store, input: OpticalInput, now: int)
    ensures SameRowsAfter(s, OpticalPass(s, input, now), now)
  {
    RunEndsNow(Start(s, input.deviceId, now), OpticalChecks(input, now), now);
  }
}
