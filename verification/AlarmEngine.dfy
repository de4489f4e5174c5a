/** The engine: counter and optical passes over the persisted store. */
module AlarmEngine {
  import opened Options
  import opened Grouping
  import opened Fingerprint
  import opened AlarmStore
  import opened AlarmChecks
  import opened MetricWindow
  import OL = OpticalLadder
  import OT = OpticalTrend
  import OS = OpticalSeries

  datatype Interface = Interface(id: string, speedBps: int, port: OS.Port)

  datatype Config =
    | Threshold(threshold: real, recovery: real, triggerSamples: int, recoverySamples: int, direction: Direction)
    | Optical(optical: OpticalConfig)

  datatype OpticalConfig = OpticalConfig(
    warningProximity: real, majorProximity: real, criticalAtLow: bool, samples: OL.TriggerSamples,
    warningMargin: real, recoveryProximity: real, recoverySamples: nat,
    dropLimit: real, majorDropLimit: real, dropWindowMs: int, manual: OS.Manual)

  datatype Rule = Rule(
    id: string, kind: AlarmType, severity: Severity, mapLinkedOnly: bool,
    devices: seq<string>, interfaces: seq<string>, speeds: seq<int>, config: Config)

  /** What one counter pass is given. */
  datatype MetricInput = MetricInput(
    deviceId: string, interfaces: seq<Interface>, rules: seq<Rule>, linked: set<string>, samples: seq<Sample>)

  predicate IsOptical(rule: Rule) {
    rule.kind == OPTICAL_RX_DEGRADATION
  }

  predicate Applies(rule: Rule, deviceId: string, optical: bool) {
    IsOptical(rule) == optical && (rule.devices == [] || deviceId in rule.devices)
  }

  predicate Matches(rule: Rule, deviceId: string, i: Interface, linked: set<string>) {
    && (rule.devices == [] || deviceId in rule.devices)
    && (rule.interfaces == [] || i.id in rule.interfaces)
    && (rule.speeds == [] || i.speedBps in rule.speeds)
    && (!rule.mapLinkedOnly || i.id in linked)
  }

  function InterfaceOf(): Sample -> string {
    (s: Sample) => s.interfaceId
  }

  // ----- the checks of a counter pass, in the order of its loops

  function MetricCheck(deviceId: string, i: Interface, rule: Rule, toggle: Toggle, samples: seq<Sample>): Check
    requires rule.config.Threshold?
  {
    var evaluations := Evaluations(samples, toggle);
    var recovered := ConsecutiveMatch(evaluations, Recovers(rule.config.recovery), rule.config.recoverySamples);
    var triggered := ConsecutiveMatch(evaluations, Triggers(rule.config.threshold), rule.config.triggerSamples);
    Check(deviceId, i.id, rule.id, rule.kind, MetricKey(toggle), recovered,
          if triggered then Some(rule.severity) else None, false)
  }

  function ToggleChecks(deviceId: string, i: Interface, rule: Rule, samples: seq<Sample>): Toggle -> seq<Check> {
    (toggle: Toggle) => if rule.config.Threshold? then [MetricCheck(deviceId, i, rule, toggle, samples)] else []
  }

  predicate Watches(rule: Rule, input: MetricInput, i: Interface) {
    Applies(rule, input.deviceId, false) && rule.config.Threshold? && Matches(rule, input.deviceId, i, input.linked)
  }

  function RuleToggles(rule: Rule): seq<Toggle> {
    if rule.config.Threshold? then Toggles(rule.kind, rule.config.direction) else []
  }

  function RuleChecks(input: MetricInput, i: Interface, samples: seq<Sample>): Rule -> seq<Check> {
    (rule: Rule) =>
      if Watches(rule, input, i) then FlatMap(RuleToggles(rule), ToggleChecks(input.deviceId, i, rule, samples)) else []
  }

  function InterfaceChecks(input: MetricInput): Interface -> seq<Check> {
    (i: Interface) =>
      var samples := Select(input.samples, InterfaceOf(), i.id);
      if samples == [] then [] else FlatMap(input.rules, RuleChecks(input, i, samples))
  }

  function MetricChecks(input: MetricInput): seq<Check> {
    FlatMap(input.interfaces, InterfaceChecks(input))
  }

  const SWEEP_INTERVAL_MS := 60_000

  /** Expired suppressions are swept at most once a minute. */
  function Housekeep(s: Store, lastSweep: int, now: int): (Store, int) {
    if now - lastSweep < SWEEP_INTERVAL_MS then (s, lastSweep) else (ExpireDue(s, now), now)
  }

  function MetricPass(s: Store, lastSweep: int, input: MetricInput, now: int): (Store, int) {
    if input.interfaces == [] then (s, lastSweep)
    else
      var (swept, sweep) := Housekeep(s, lastSweep, now);
      (RunPass(swept, input.deviceId, MetricChecks(input), now), sweep)
  }

  // ----- the checks of an optical pass

  /** What one optical pass is given; `aggregated` says that the module's value sums up its lanes. */
  datatype OpticalInput = OpticalInput(
    deviceId: string, interfaces: seq<Interface>, rules: seq<Rule>, linked: set<string>,
    samples: seq<OS.Sample>, thresholds: map<string, OS.Thresholds>, aggregated: bool)

  function SampleOf(): OS.Sample -> string {
    (s: OS.Sample) => s.interfaceId
  }

  function RecordOf(input: OpticalInput, i: Interface): Option<OS.Thresholds> {
    if i.id in input.thresholds then Some(input.thresholds[i.id]) else None
  }

  function SeriesOf(input: OpticalInput, i: Interface, c: OpticalConfig, now: int): seq<OS.Series> {
    OS.SeriesFor(i.port, Select(input.samples, SampleOf(), i.id),
                 RecordOf(input, i), c.manual, now, input.aggregated)
  }

  function CriteriaWith(series: OS.Series, power: real, drop: real, c: OpticalConfig): OL.Criteria {
    OL.Criteria(power, series.side.lowAlarm, series.side.highAlarm, series.side.lowWarning, series.side.highWarning,
                c.warningProximity, c.majorProximity, c.criticalAtLow, c.warningMargin,
                drop, c.dropLimit, c.majorDropLimit, c.recoveryProximity)
  }

  ghost function CriteriaAt(series: OS.Series, index: nat, c: OpticalConfig): Option<OL.Criteria>
    requires index < |series.points|
  {
    var power := series.points[index].power;
    if power.None? then None
    else Some(CriteriaWith(series, power.value, OT.DropAt(series.points, index, c.dropWindowMs), c))
  }

  function LadderOf(criteria: Option<OL.Criteria>): OL.Ladder {
    if criteria.Some? then OL.LadderFor(criteria.value) else OL.NONE
  }

  predicate RecoveredAt(criteria: Option<OL.Criteria>) {
    criteria.Some? && OL.Recovered(criteria.value)
  }

  ghost function AllCriteria(series: OS.Series, c: OpticalConfig): seq<Option<OL.Criteria>> {
    seq(|series.points|, i requires 0 <= i < |series.points| => CriteriaAt(series, i, c))
  }

  function Ladders(criteria: seq<Option<OL.Criteria>>): seq<OL.Ladder> {
    seq(|criteria|, i requires 0 <= i < |criteria| => LadderOf(criteria[i]))
  }

  function Recoveries(criteria: seq<Option<OL.Criteria>>): seq<bool> {
    seq(|criteria|, i requires 0 <= i < |criteria| => RecoveredAt(criteria[i]))
  }

  function SeverityOf(ladder: OL.Ladder): Severity {
    match ladder
    case CRITICAL => Severity.CRITICAL
    case MAJOR => Severity.MAJOR
    case WARNING => Severity.WARNING
    case NONE => Severity.INFO
  }

  function OpticalCheck(deviceId: string, i: Interface, rule: Rule, metricKey: string,
                        criteria: seq<Option<OL.Criteria>>): Check
    requires rule.config.Optical?
  {
    var c := rule.config.optical;
    var target := OL.Target(Ladders(criteria), c.samples);
    var opens := if target.Some? && criteria != [] && criteria[|criteria| - 1].Some?
                 then Some(HighestSeverity(rule.severity, SeverityOf(target.value))) else None;
    Check(deviceId, i.id, rule.id, rule.kind, metricKey, OL.SustainedRecovery(Recoveries(criteria), c.recoverySamples),
          opens, true)
  }

  ghost function SeriesCheck(deviceId: string, i: Interface, rule: Rule): OS.Series -> seq<Check> {
    (series: OS.Series) =>
      if rule.config.Optical? then
        [OpticalCheck(deviceId, i, rule, series.metricKey, AllCriteria(series, rule.config.optical))]
      else []
  }

  predicate WatchesOptics(rule: Rule, input: OpticalInput, i: Interface) {
    Applies(rule, input.deviceId, true) && rule.config.Optical? && Matches(rule, input.deviceId, i, input.linked)
  }

  ghost function OpticalRuleChecks(input: OpticalInput, i: Interface, now: int): Rule -> seq<Check> {
    (rule: Rule) =>
      if WatchesOptics(rule, input, i) then
        FlatMap(SeriesOf(input, i, rule.config.optical, now), SeriesCheck(input.deviceId, i, rule))
      else []
  }

  ghost function OpticalInterfaceChecks(input: OpticalInput, now: int): Interface -> seq<Check> {
    (i: Interface) => FlatMap(input.rules, OpticalRuleChecks(input, i, now))
  }

  ghost function OpticalChecks(input: OpticalInput, now: int): seq<Check> {
    FlatMap(input.interfaces, OpticalInterfaceChecks(input, now))
  }

  ghost function OpticalPass(s: Store, input: OpticalInput, now: int): Store {
    RunPass(s, input.deviceId, OpticalChecks(input, now), now)
  }

  // ----- the engine

  class Database {
    var store: Store

    constructor (initial: Store)
      ensures store == initial
    {
      store := initial;
    }
  }

  class Engine {
    const db: Database
    var lastSuppressionSweepAt: int

    constructor (database: Database)
      ensures db == database && lastSuppressionSweepAt == 0
    {
      db := database;
      lastSuppressionSweepAt := 0;
    }

    method HousekeepSuppressions(now: int)
      modifies this, db
      ensures (db.store, lastSuppressionSweepAt) == Housekeep(old(db.store), old(lastSuppressionSweepAt), now)
      ensures lastSuppressionSweepAt == if now >= old(lastSuppressionSweepAt) + 60000 then now
                                        else old(lastSuppressionSweepAt)
      ensures db.store == if now >= old(lastSuppressionSweepAt) + 60000 then ExpireDue(old(db.store), now)
                          else old(db.store)
    {
      if now - lastSuppressionSweepAt < SWEEP_INTERVAL_MS {
        return;
      }
      lastSuppressionSweepAt := now;
      db.store := ExpireDue(db.store, now);
    }

    method ProcessDeviceMetrics(input: MetricInput, now: int)
      modifies this, db
      ensures (db.store, lastSuppressionSweepAt) == MetricPass(old(db.store), old(lastSuppressionSweepAt), input, now)
    {
      if |input.interfaces| == 0 {
        return;
      }
      HousekeepSuppressions(now);
      ghost var start := Start(db.store, input.deviceId, now);
      var open := OpenIndex(db.store.alarms, input.deviceId);
      var suppressed := SuppressedIndex(db.store.suppressions, input.deviceId, now);
      for n := 0 to |input.interfaces|
        invariant lastSuppressionSweepAt == Housekeep(old(db.store), old(lastSuppressionSweepAt), now).1
        invariant Pass(db.store, open, suppressed)
                  == Run(start, FlatMap(input.interfaces[..n], InterfaceChecks(input)), now)
      {
        var i := input.interfaces[n];
        FlatMapOneMore(input.interfaces, n, InterfaceChecks(input));
        RunConcat(start, FlatMap(input.interfaces[..n], InterfaceChecks(input)), InterfaceChecks(input)(i), now);
        var samples := Select(input.samples, InterfaceOf(), i.id);
        if |samples| == 0 {
          continue;
        }
        open, suppressed := EvaluateInterface(input, i, samples, open, suppressed, now);
      }
      assert input.interfaces[..|input.interfaces|] == input.interfaces;
    }

    /** The loop over the rules for one interface. */
    method EvaluateInterface(input: MetricInput, i: Interface, samples: seq<Sample>,
                             open0: map<string, nat>, suppressed0: map<string, nat>, now: int)
      returns (open: map<string, nat>, suppressed: map<string, nat>)
      modifies db
      ensures Pass(db.store, open, suppressed) ==
              Run(Pass(old(db.store), open0, suppressed0), FlatMap(input.rules, RuleChecks(input, i, samples)), now)
    {
      open, suppressed := open0, suppressed0;
      ghost var start := Pass(db.store, open, suppressed);
      for n := 0 to |input.rules|
        invariant Pass(db.store, open, suppressed)
                  == Run(start, FlatMap(input.rules[..n], RuleChecks(input, i, samples)), now)
      {
        var rule := input.rules[n];
        FlatMapOneMore(input.rules, n, RuleChecks(input, i, samples));
        RunConcat(start, FlatMap(input.rules[..n], RuleChecks(input, i, samples)), RuleChecks(input, i, samples)(rule),
                  now);
        if !Watches(rule, input, i) {
          continue;
        }
        open, suppressed := EvaluateRule(input.deviceId, i, rule, samples, open, suppressed, now);
      }
      assert input.rules[..|input.rules|] == input.rules;
    }

    /** The loop over the series of one rule. */
    method EvaluateRule(deviceId: string, i: Interface, rule: Rule, samples: seq<Sample>,
                        open0: map<string, nat>, suppressed0: map<string, nat>, now: int)
      returns (open: map<string, nat>, suppressed: map<string, nat>)
      requires rule.config.Threshold?
      modifies db
      ensures Pass(db.store, open, suppressed) ==
              Run(Pass(old(db.store), open0, suppressed0),
                  FlatMap(RuleToggles(rule), ToggleChecks(deviceId, i, rule, samples)), now)
    {
      open, suppressed := open0, suppressed0;
      ghost var start := Pass(db.store, open, suppressed);
      var toggles := RuleToggles(rule);
      for n := 0 to |toggles|
        invariant Pass(db.store, open, suppressed) ==
                  Run(start, FlatMap(toggles[..n], ToggleChecks(deviceId, i, rule, samples)), now)
      {
        FlatMapOneMore(toggles, n, ToggleChecks(deviceId, i, rule, samples));
        ghost var c := MetricCheck(deviceId, i, rule, toggles[n], samples);
        RunConcat(start, FlatMap(toggles[..n], ToggleChecks(deviceId, i, rule, samples)), [c], now);
        RunOne(Run(start, FlatMap(toggles[..n], ToggleChecks(deviceId, i, rule, samples)), now), c, now);
        open, suppressed := EvaluateToggle(deviceId, i, rule, toggles[n], samples, open, suppressed, now);
      }
      assert toggles[..|toggles|] == toggles;
    }

    method EvaluateToggle(deviceId: string, i: Interface, rule: Rule, toggle: Toggle, samples: seq<Sample>,
                          open0: map<string, nat>, suppressed0: map<string, nat>, now: int)
      returns (open: map<string, nat>, suppressed: map<string, nat>)
      requires rule.config.Threshold?
      modifies db
      ensures Pass(db.store, open, suppressed) ==
              Step(Pass(old(db.store), open0, suppressed0), MetricCheck(deviceId, i, rule, toggle, samples), now)
    {
      open, suppressed := open0, suppressed0;
      var evaluations := EvaluateWindow(samples, toggle);
      var config := rule.config;
      var fingerprint := Of(i.id, rule.kind, Some(rule.id), Some(MetricKey(toggle)));
      var recovered := ConsecutiveMatch(evaluations, Recovers(config.recovery), config.recoverySamples);
      if fingerprint !in open {
        if fingerprint in suppressed {
          if recovered && ModeOf(db.store, suppressed[fingerprint]) == Some(UNTIL_CLEAR) {
            var (store, cleared) := Clear(db.store, suppressed[fingerprint], now, RECOVERED);
            db.store := store;
            suppressed := suppressed - {fingerprint};
          }
          return;
        }
        if ConsecutiveMatch(evaluations, Triggers(config.threshold), config.triggerSamples) {
          var alarm := Alarm(deviceId, i.id, rule.kind, rule.severity, Some(rule.id), Some(MetricKey(toggle)), now,
                             None, None, None);
          var (store, row) := OpenAlarm(db.store, alarm);
          if row.Some? {
            db.store := store;
            open := open[fingerprint := row.value];
          }
        }
        return;
      }
      if recovered {
        var selector := OfMetric(i.id, rule.kind, MetricKey(toggle));
        if SomeSelected(db.store, selector) {
          db.store := EndSelected(db.store, selector, now, None);
          open := open - {fingerprint};
        }
      }
    }

    method ProcessOpticalReadings(input: OpticalInput, now: int)
      modifies db
      ensures db.store == OpticalPass(old(db.store), input, now)
    {
      ghost var start := Start(db.store, input.deviceId, now);
      var open := OpenIndex(db.store.alarms, input.deviceId);
      var suppressed := SuppressedIndex(db.store.suppressions, input.deviceId, now);
      for n := 0 to |input.interfaces|
        invariant Pass(db.store, open, suppressed)
                  == Run(start, FlatMap(input.interfaces[..n], OpticalInterfaceChecks(input, now)), now)
      {
        var i := input.interfaces[n];
        FlatMapOneMore(input.interfaces, n, OpticalInterfaceChecks(input, now));
        RunConcat(start, FlatMap(input.interfaces[..n], OpticalInterfaceChecks(input, now)),
                  OpticalInterfaceChecks(input, now)(i), now);
        open, suppressed := EvaluateOptics(input, i, open, suppressed, now);
      }
      assert input.interfaces[..|input.interfaces|] == input.interfaces;
    }

    /** The loop over the rules for one interface. */
    method EvaluateOptics(input: OpticalInput, i: Interface, open0: map<string, nat>, suppressed0: map<string, nat>,
                          now: int)
      returns (open: map<string, nat>, suppressed: map<string, nat>)
      modifies db
      ensures Pass(db.store, open, suppressed) ==
              Run(Pass(old(db.store), open0, suppressed0), FlatMap(input.rules, OpticalRuleChecks(input, i, now)), now)
    {
      open, suppressed := open0, suppressed0;
      ghost var start := Pass(db.store, open, suppressed);
      for n := 0 to |input.rules|
        invariant Pass(db.store, open, suppressed)
                  == Run(start, FlatMap(input.rules[..n], OpticalRuleChecks(input, i, now)), now)
      {
        var rule := input.rules[n];
        FlatMapOneMore(input.rules, n, OpticalRuleChecks(input, i, now));
        RunConcat(start, FlatMap(input.rules[..n], OpticalRuleChecks(input, i, now)),
                  OpticalRuleChecks(input, i, now)(rule), now);
        if !WatchesOptics(rule, input, i) {
          continue;
        }
        open, suppressed := EvaluateOpticalRule(input.deviceId, i, rule, SeriesOf(input, i, rule.config.optical, now),
                                                open, suppressed, now);
      }
      assert input.rules[..|input.rules|] == input.rules;
    }

    /** The loop over the series (module or lanes) of one interface under one rule. */
    method EvaluateOpticalRule(deviceId: string, i: Interface, rule: Rule, all: seq<OS.Series>,
                               open0: map<string, nat>, suppressed0: map<string, nat>, now: int)
      returns (open: map<string, nat>, suppressed: map<string, nat>)
      requires rule.config.Optical?
      modifies db
      ensures Pass(db.store, open, suppressed) ==
              Run(Pass(old(db.store), open0, suppressed0), FlatMap(all, SeriesCheck(deviceId, i, rule)), now)
    {
      open, suppressed := open0, suppressed0;
      ghost var start := Pass(db.store, open, suppressed);
      for n := 0 to |all|
        invariant Pass(db.store, open, suppressed) == Run(start, FlatMap(all[..n], SeriesCheck(deviceId, i, rule)), now)
      {
        FlatMapOneMore(all, n, SeriesCheck(deviceId, i, rule));
        ghost var c := OpticalCheck(deviceId, i, rule, all[n].metricKey, AllCriteria(all[n], rule.config.optical));
        RunConcat(start, FlatMap(all[..n], SeriesCheck(deviceId, i, rule)), [c], now);
        RunOne(Run(start, FlatMap(all[..n], SeriesCheck(deviceId, i, rule)), now), c, now);
        open, suppressed := EvaluateOpticalSeries(deviceId, i, rule, all[n], open, suppressed, now);
      }
      assert all[..|all|] == all;
    }

    method CriteriaOf(series: OS.Series, c: OpticalConfig) returns (criteria: seq<Option<OL.Criteria>>)
      ensures criteria == AllCriteria(series, c)
    {
      criteria := [];
      for index := 0 to |series.points|
        invariant |criteria| == index
        invariant forall k :: 0 <= k < index ==> criteria[k] == CriteriaAt(series, k, c)
      {
        var power := series.points[index].power;
        if power.None? {
          criteria := criteria + [None];
        } else {
          var drop := OT.ObservedDrop(series.points, index, c.dropWindowMs);
          criteria := criteria + [Some(CriteriaWith(series, power.value, drop, c))];
        }
      }
    }

    method EvaluateOpticalSeries(deviceId: string, i: Interface, rule: Rule, series: OS.Series,
                                 open0: map<string, nat>, suppressed0: map<string, nat>, now: int)
      returns (open: map<string, nat>, suppressed: map<string, nat>)
      requires rule.config.Optical?
      modifies db
      ensures Pass(db.store, open, suppressed) ==
              Step(Pass(old(db.store), open0, suppressed0),
                   OpticalCheck(deviceId, i, rule, series.metricKey, AllCriteria(series, rule.config.optical)), now)
    {
      open, suppressed := open0, suppressed0;
      var config := rule.config.optical;
      var criteria := CriteriaOf(series, config);
      var ladders, recoveries := Ladders(criteria), Recoveries(criteria);
      var fingerprint := Of(i.id, rule.kind, Some(rule.id), Some(series.metricKey));
      var sustainedRecovery := OL.SustainedRecovery(recoveries, config.recoverySamples);
      if fingerprint in open && sustainedRecovery {
        var selector := OfMetric(i.id, rule.kind, series.metricKey);
        if SomeSelected(db.store, selector) {
          db.store := EndSelected(db.store, selector, now, None);
          open := open - {fingerprint};
        }
        return;
      }
      if fingerprint !in open && fingerprint in suppressed {
        if sustainedRecovery && ModeOf(db.store, suppressed[fingerprint]) == Some(UNTIL_CLEAR) {
          var (store, cleared) := Clear(db.store, suppressed[fingerprint], now, RECOVERED);
          db.store := store;
          suppressed := suppressed - {fingerprint};
        }
        return;
      }
      var target := OL.Target(ladders, config.samples);
      if target.None? || |criteria| == 0 || criteria[|criteria| - 1].None? {
        return;
      }
      var severity := HighestSeverity(rule.severity, SeverityOf(target.value));
      if fingerprint !in open {
        var alarm := Alarm(deviceId, i.id, rule.kind, severity, Some(rule.id), Some(series.metricKey), now, None, None,
                           None);
        var (store, row) := OpenAlarm(db.store, alarm);
        if row.Some? {
          db.store := store;
          open := open[fingerprint := row.value];
        }
        return;
      }
      var id := open[fingerprint];
      if id >= |db.store.alarms| || SeverityRank(severity) <= SeverityRank(db.store.alarms[id].severity) {
        return;
      }
      var (store, escalated) := Escalate(db.store, id, severity);
      db.store := store;
    }
  }

  lemma RunOne(p: Pass, c: Check, now: int)
    ensures Run(p, [c], now) == Step(p, c, now)
  {
    assert [c][..0] == [];
    assert Run(p, [], now) == p;
  }
}
