/** What a counter pass does, said of the samples, the rules and the rows alone. */
module CounterAlarms {
  import opened Options
  import opened Grouping
  import opened Fingerprint
  import opened MetricWindow
  import opened AlarmStore
  import opened AlarmChecks
  import opened AlarmRows
  import opened AlarmEngine
  import opened AlarmEngineLaws

  // ----- what a rule looks at

  /** The counter that a rule of this type reads under this metric key. */
  function Reading(kind: AlarmType, metricKey: string, s: Sample): Counter {
    if kind == INTERFACE_CRC then s.fcsErrors
    else if kind == INTERFACE_ERRORS then (if metricKey == "RX" then s.inErrors else s.outErrors)
    else if metricKey == "RX" then s.inDiscards
    else s.outDiscards
  }

  /** The metric keys of a rule: one for CRC, and else those of its directions. */
  predicate HasMetric(rule: Rule, metricKey: string) {
    rule.config.Threshold? &&
    if rule.kind == INTERFACE_CRC then metricKey == "FCS"
    else
      || (metricKey == "RX" && (rule.config.direction == RX || rule.config.direction == BOTH))
      || (metricKey == "TX" && (rule.config.direction == TX || rule.config.direction == BOTH))
  }

  /** An empty list stands for everything, and a rule for linked interfaces sees no other. */
  ghost predicate InScope(rule: Rule, deviceId: string, i: Interface, linked: set<string>) {
    && (rule.devices != [] ==> exists k :: 0 <= k < |rule.devices| && rule.devices[k] == deviceId)
    && (rule.interfaces != [] ==> exists k :: 0 <= k < |rule.interfaces| && rule.interfaces[k] == i.id)
    && (rule.speeds != [] ==> exists k :: 0 <= k < |rule.speeds| && rule.speeds[k] == i.speedBps)
    && (rule.mapLinkedOnly ==> i.id in linked)
  }

  /** The samples of one interface, in their order. */
  function OfInterface(samples: seq<Sample>, id: string): seq<Sample> {
    if samples == [] then []
    else
      var last := samples[|samples| - 1];
      OfInterface(samples[..|samples| - 1], id) + if last.interfaceId == id then [last] else []
  }

  /** A rule of the counter types that evaluates this metric of this interface in this pass. */
  ghost predicate Evaluates(input: MetricInput, i: Interface, rule: Rule, metricKey: string) {
    && i in input.interfaces && rule in input.rules && rule.kind != OPTICAL_RX_DEGRADATION
    && InScope(rule, input.deviceId, i, input.linked) && HasMetric(rule, metricKey)
    && OfInterface(input.samples, i.id) != []
  }

  // ----- what the samples say

  /**
   * Two neighbouring samples that can be compared: time advanced, a delta was collected,
   * and the counter did not fall, or only as a 32-bit counter does when it wraps.
   */
  predicate Comparable(kind: AlarmType, metricKey: string, before: Sample, after: Sample) {
    var a, b := Reading(kind, metricKey, before), Reading(kind, metricKey, after);
    && a.raw.Some? && b.raw.Some? && b.delta.Some? && after.time > before.time
    && (b.raw.value >= a.raw.value || (a.raw.value >= 3_221_225_471 && b.raw.value <= 1_073_741_823))
  }

  /** Events of the interval, times the milliseconds of a minute. */
  function Scaled(kind: AlarmType, metricKey: string, after: Sample): real {
    var b := Reading(kind, metricKey, after);
    (if b.delta.Some? then b.delta.value else 0) as real * 60000.0
  }

  /** At least the threshold per minute; a threshold of zero or less stands for any event. */
  function Reaches(kind: AlarmType, metricKey: string, threshold: real): (Sample, Sample) -> bool {
    (before, after) =>
      Comparable(kind, metricKey, before, after) &&
      if threshold > 0.0 then Scaled(kind, metricKey, after) >= threshold * (after.time - before.time) as real
      else Scaled(kind, metricKey, after) > 0.0
  }

  /** At most the recovery limit per minute. */
  function Calms(kind: AlarmType, metricKey: string, limit: real): (Sample, Sample) -> bool {
    (before, after) =>
      Comparable(kind, metricKey, before, after)
      && Scaled(kind, metricKey, after) <= limit * (after.time - before.time) as real
  }

  /** How many of the latest neighbouring pairs satisfy p without interruption. */
  function LatestRun(samples: seq<Sample>, p: (Sample, Sample) -> bool): nat {
    if |samples| < 2 then 0
    else if p(samples[|samples| - 2], samples[|samples| - 1]) then LatestRun(samples[..|samples| - 1], p) + 1
    else 0
  }

  predicate Triggering(input: MetricInput, i: Interface, rule: Rule, metricKey: string)
    requires rule.config.Threshold?
  {
    && rule.config.triggerSamples >= 1
    && LatestRun(OfInterface(input.samples, i.id), Reaches(rule.kind, metricKey, rule.config.threshold))
       >= rule.config.triggerSamples
  }

  predicate Recovered(input: MetricInput, i: Interface, rule: Rule, metricKey: string)
    requires rule.config.Threshold?
  {
    && rule.config.recoverySamples >= 1
    && LatestRun(OfInterface(input.samples, i.id), Calms(rule.kind, metricKey, rule.config.recovery))
       >= rule.config.recoverySamples
  }

  // ----- what becomes of the alarms

  /** A rule at or after this place of the list that was in alarm on the counter and has recovered. */
  ghost predicate EndedByRule(s: Store, input: MetricInput, i: Interface, kind: AlarmType, metricKey: string,
                              from: nat) {
    exists n :: from <= n < |input.rules| && EndsIt(s, input, i, kind, metricKey, input.rules[n])
  }

  ghost predicate EndsIt(s: Store, input: MetricInput, i: Interface, kind: AlarmType, metricKey: string, rule: Rule) {
    && Evaluates(input, i, rule, metricKey) && rule.kind == kind
    && InAlarm(s, Series(i.id, rule.kind, rule.id, metricKey)) && Recovered(input, i, rule, metricKey)
  }

  /** The rule at this place opens its alarm of the counter, and no later one ends it again. */
  ghost predicate OpensIt(s: Store, input: MetricInput, i: Interface, m: nat, metricKey: string, now: int)
    requires m < |input.rules|
  {
    var rule := input.rules[m];
    && Evaluates(input, i, rule, metricKey) && Triggering(input, i, rule, metricKey)
    && !Held(s, Series(i.id, rule.kind, rule.id, metricKey), now)
    && !EndedByRule(s, input, i, rule.kind, metricKey, m + 1)
  }

  ghost predicate SomeEnds(s: Store, input: MetricInput, x: Series) {
    exists i: Interface :: i.id == x.interfaceId && EndedByRule(s, input, i, x.kind, x.metricKey, 0)
  }

  ghost predicate SomeOpens(s: Store, input: MetricInput, x: Series, now: int) {
    exists i: Interface, m: nat :: m < |input.rules| && i.id == x.interfaceId && IsRuleOf(input.rules[m], x)
                        && OpensIt(s, input, i, m, x.metricKey, now)
  }

  predicate IsRuleOf(rule: Rule, x: Series) {
    rule.id == x.ruleId && rule.kind == x.kind
  }

  // ----- samples and evaluations

  lemma {:induction false} OwnSamples(samples: seq<Sample>, id: string)
    ensures Select(samples, InterfaceOf(), id) == OfInterface(samples, id)
  {
    if samples == [] {
    } else {
      OwnSamples(samples[..|samples| - 1], id);
    }
  }

  ghost predicate Reads(kind: AlarmType, metricKey: string, toggle: Toggle) {
    MetricKey(toggle) == metricKey && forall s: Sample :: Column(s, toggle) == Reading(kind, metricKey, s)
  }

  lemma RateInMinutes(delta: int, milliseconds: int, limit: real)
    requires milliseconds > 0
    ensures var rate := (delta * 60) as real / (milliseconds as real / 1000.0);
            && (rate >= limit <==> delta as real * 60000.0 >= limit * milliseconds as real)
            && (rate <= limit <==> delta as real * 60000.0 <= limit * milliseconds as real)
            && (rate > 0.0 <==> delta as real * 60000.0 > 0.0)
  {
    var ms := milliseconds as real;
    var rate := (delta * 60) as real / (ms / 1000.0);
    assert rate * (ms / 1000.0) == (delta * 60) as real;
    assert rate * ms == delta as real * 60000.0;
    ProductOrder(rate, limit, ms);
    ProductOrder(rate, 0.0, ms);
  }

  lemma ProductOrder(a: real, b: real, n: real)
    requires n > 0.0
    ensures a >= b <==> a * n >= b * n
    ensures a <= b <==> a * n <= b * n
  {
    if a > b {
      assert (a - b) * n > 0.0;
    } else if a < b {
      assert (b - a) * n > 0.0;
    }
  }

  lemma PairIsComparable(kind: AlarmType, metricKey: string, toggle: Toggle, before: Sample, after: Sample)
    requires Reads(kind, metricKey, toggle)
    ensures var e := Evaluate(before, after, toggle);
            && (e.valid <==> Comparable(kind, metricKey, before, after))
            && (e.valid ==> e.ratePerMinute == (Reading(kind, metricKey, after).delta.value * 60) as real
                                               / ((after.time - before.time) as real / 1000.0))
  {
    assert Column(before, toggle) == Reading(kind, metricKey, before);
    assert Column(after, toggle) == Reading(kind, metricKey, after);
  }

  lemma PairTriggers(kind: AlarmType, metricKey: string, toggle: Toggle, before: Sample, after: Sample, limit: real)
    requires Reads(kind, metricKey, toggle)
    ensures var e := Evaluate(before, after, toggle);
            e.valid && Triggers(limit)(e.ratePerMinute) <==> Reaches(kind, metricKey, limit)(before, after)
  {
    PairIsComparable(kind, metricKey, toggle, before, after);
    if Comparable(kind, metricKey, before, after) {
      RateInMinutes(Reading(kind, metricKey, after).delta.value, after.time - before.time, limit);
    }
  }

  lemma PairRecovers(kind: AlarmType, metricKey: string, toggle: Toggle, before: Sample, after: Sample, limit: real)
    requires Reads(kind, metricKey, toggle)
    ensures var e := Evaluate(before, after, toggle);
            e.valid && Recovers(limit)(e.ratePerMinute) <==> Calms(kind, metricKey, limit)(before, after)
  {
    PairIsComparable(kind, metricKey, toggle, before, after);
    if Comparable(kind, metricKey, before, after) {
      RateInMinutes(Reading(kind, metricKey, after).delta.value, after.time - before.time, limit);
    }
  }

  lemma {:induction false} StreakIsRun(samples: seq<Sample>, toggle: Toggle, p: real -> bool,
                                       q: (Sample, Sample) -> bool)
    requires forall before, after ::
               q(before, after) <==>
               var e := Evaluate(before, after, toggle);
               e.valid && p(e.ratePerMinute)
    ensures Streak(Evaluations(samples, toggle), p) == LatestRun(samples, q)
  {
    if |samples| < 2 {
    } else {
      var earlier, all := samples[..|samples| - 1], Evaluations(samples, toggle);
      StreakIsRun(earlier, toggle, p, q);
      assert all[..|all| - 1] == Evaluations(earlier, toggle);
    }
  }

  lemma MatchIsRun(samples: seq<Sample>, kind: AlarmType, metricKey: string, toggle: Toggle, limit: real, required: int)
    requires Reads(kind, metricKey, toggle)
    ensures ConsecutiveMatch(Evaluations(samples, toggle), Triggers(limit), required) <==>
            required >= 1 && LatestRun(samples, Reaches(kind, metricKey, limit)) >= required
    ensures ConsecutiveMatch(Evaluations(samples, toggle), Recovers(limit), required) <==>
            required >= 1 && LatestRun(samples, Calms(kind, metricKey, limit)) >= required
  {
    forall before, after
      ensures Reaches(kind, metricKey, limit)(before, after) <==>
              var e := Evaluate(before, after, toggle);
              e.valid && Triggers(limit)(e.ratePerMinute)
      ensures Calms(kind, metricKey, limit)(before, after) <==>
              var e := Evaluate(before, after, toggle);
              e.valid && Recovers(limit)(e.ratePerMinute)
    {
      PairTriggers(kind, metricKey, toggle, before, after, limit);
      PairRecovers(kind, metricKey, toggle, before, after, limit);
    }
    StreakIsRun(samples, toggle, Triggers(limit), Reaches(kind, metricKey, limit));
    StreakIsRun(samples, toggle, Recovers(limit), Calms(kind, metricKey, limit));
    if required >= 1 {
      StreakIsConsecutive(Evaluations(samples, toggle), Triggers(limit), required);
      StreakIsConsecutive(Evaluations(samples, toggle), Recovers(limit), required);
    }
  }

  // ----- rules and checks

  /** What the check of a rule and a metric decides. */
  ghost predicate Tells(c: Check, input: MetricInput, i: Interface, rule: Rule, metricKey: string)
    requires rule.config.Threshold?
  {
    && SeriesFor(c) == Series(i.id, rule.kind, rule.id, metricKey) && !c.escalates
    && (c.recovered <==> Recovered(input, i, rule, metricKey))
    && c.opens == if Triggering(input, i, rule, metricKey) then Some(rule.severity) else None
  }

  lemma ToggleIsKnown(rule: Rule, toggle: Toggle)
    requires rule.kind != OPTICAL_RX_DEGRADATION && rule.kind != INTERFACE_DOWN && toggle in RuleToggles(rule)
    ensures HasMetric(rule, MetricKey(toggle)) && Reads(rule.kind, MetricKey(toggle), toggle)
  {
  }

  lemma MetricIsRead(rule: Rule, metricKey: string) returns (toggle: Toggle)
    requires rule.kind != OPTICAL_RX_DEGRADATION && rule.kind != INTERFACE_DOWN && HasMetric(rule, metricKey)
    ensures toggle in RuleToggles(rule) && Reads(rule.kind, metricKey, toggle)
  {
    toggle := if rule.kind == INTERFACE_CRC then FCS
              else if rule.kind == INTERFACE_ERRORS then (if metricKey == "RX" then ERRORS_RX else ERRORS_TX)
              else if metricKey == "RX" then DISCARDS_RX else DISCARDS_TX;
  }

  lemma ScopeIsMatch(rule: Rule, deviceId: string, i: Interface, linked: set<string>)
    ensures InScope(rule, deviceId, i, linked) <==> Matches(rule, deviceId, i, linked)
  {
  }

  lemma CheckTells(input: MetricInput, i: Interface, rule: Rule, metricKey: string, toggle: Toggle)
    requires rule.config.Threshold? && Reads(rule.kind, metricKey, toggle)
    ensures Tells(MetricCheck(input.deviceId, i, rule, toggle, Select(input.samples, InterfaceOf(), i.id)),
                  input, i, rule, metricKey)
  {
    OwnSamples(input.samples, i.id);
    var samples := OfInterface(input.samples, i.id);
    MatchIsRun(samples, rule.kind, metricKey, toggle, rule.config.threshold, rule.config.triggerSamples);
    MatchIsRun(samples, rule.kind, metricKey, toggle, rule.config.recovery, rule.config.recoverySamples);
  }

  lemma CheckIsOfRule(input: MetricInput, c: Check, deviceOf: string -> string)
    returns (i: Interface, rule: Rule, metricKey: string)
    requires MetricInputOk(input, deviceOf) && DistinctMetricInput(input) && c in MetricChecks(input)
    ensures Evaluates(input, i, rule, metricKey) && Tells(c, input, i, rule, metricKey)
  {
    var toggle;
    i, rule, toggle := MetricCheckHasOrigin(input, c);
    metricKey := MetricKey(toggle);
    HasSamples(input, i, c);
    ToggleIsKnown(rule, toggle);
    ScopeIsMatch(rule, input.deviceId, i, input.linked);
    CheckTells(input, i, rule, metricKey, toggle);
  }

  lemma HasSamples(input: MetricInput, i: Interface, c: Check)
    requires c in MetricChecks(input) && DistinctInterfaces(input.interfaces) && i in input.interfaces
             && c.interfaceId == i.id
    ensures OfInterface(input.samples, i.id) != []
  {
    FlatMapMembers(input.interfaces, InterfaceChecks(input), c);
    var j :| j in input.interfaces && c in InterfaceChecks(input)(j);
    InterfaceOfCheck(input, j, c);
    OwnSamples(input.samples, i.id);
  }

  lemma RuleIsChecked(input: MetricInput, i: Interface, rule: Rule, metricKey: string, deviceOf: string -> string)
    returns (c: Check)
    requires MetricInputOk(input, deviceOf) && Evaluates(input, i, rule, metricKey)
    ensures c in MetricChecks(input) && Tells(c, input, i, rule, metricKey)
  {
    var samples := Select(input.samples, InterfaceOf(), i.id);
    OwnSamples(input.samples, i.id);
    var toggle := MetricIsRead(rule, metricKey);
    ScopeIsMatch(rule, input.deviceId, i, input.linked);
    CheckTells(input, i, rule, metricKey, toggle);
    c := MetricCheck(input.deviceId, i, rule, toggle, samples);
    assert c in ToggleChecks(input.deviceId, i, rule, samples)(toggle);
    FlatMapMembers(RuleToggles(rule), ToggleChecks(input.deviceId, i, rule, samples), c);
    assert c in RuleChecks(input, i, samples)(rule);
    FlatMapMembers(input.rules, RuleChecks(input, i, samples), c);
    assert c in InterfaceChecks(input)(i);
    FlatMapMembers(input.interfaces, InterfaceChecks(input), c);
  }

  // ----- the order of the rules is the order of their checks

  lemma SameRule(rules: seq<Rule>, m: nat, n: nat)
    requires DistinctRules(rules) && m < |rules| && n < |rules| && rules[m].id == rules[n].id
    ensures m == n
  {
  }

  lemma RulesComeInOrder(input: MetricInput, j: nat, k: nat, n: nat, m: nat)
    requires DistinctMetricInput(input) && j < k < |MetricChecks(input)| && n < |input.rules| && m < |input.rules|
    requires MetricChecks(input)[j].interfaceId == MetricChecks(input)[k].interfaceId
    requires MetricChecks(input)[j].ruleId == input.rules[n].id && MetricChecks(input)[k].ruleId == input.rules[m].id
    ensures n <= m
  {
    var a, p, b, q := FlatMapOrder(input.interfaces, InterfaceChecks(input), j, k);
    var c, d := MetricChecks(input)[j], MetricChecks(input)[k];
    assert c in InterfaceChecks(input)(input.interfaces[a]) && d in InterfaceChecks(input)(input.interfaces[b]);
    InterfaceOfCheck(input, input.interfaces[a], c);
    InterfaceOfCheck(input, input.interfaces[b], d);
    SameInterface(input.interfaces, input.interfaces[a], input.interfaces[b]);
    assert a == b;
    RulesOfInterface(input, input.interfaces[a], p, q, n, m);
  }

  lemma RulesOfInterface(input: MetricInput, i: Interface, p: nat, q: nat, n: nat, m: nat)
    requires DistinctRules(input.rules) && p < q < |InterfaceChecks(input)(i)| && n < |input.rules| && m < |input.rules|
    requires InterfaceChecks(input)(i)[p].ruleId == input.rules[n].id
    requires InterfaceChecks(input)(i)[q].ruleId == input.rules[m].id
    ensures n <= m
  {
    var samples := Select(input.samples, InterfaceOf(), i.id);
    var a, p', b, q' := FlatMapOrder(input.rules, RuleChecks(input, i, samples), p, q);
    var c, d := InterfaceChecks(input)(i)[p], InterfaceChecks(input)(i)[q];
    assert c in RuleChecks(input, i, samples)(input.rules[a]) && d in RuleChecks(input, i, samples)(input.rules[b]);
    var t := RuleCheckHasOrigin(input, i, samples, input.rules[a], c);
    var u := RuleCheckHasOrigin(input, i, samples, input.rules[b], d);
    SameRule(input.rules, a, n);
    SameRule(input.rules, b, m);
  }

  // ----- the counter pass

  lemma EndingCheck(s: Store, input: MetricInput, j: nat, x: Series, deviceOf: string -> string)
    returns (i: Interface, n: nat)
    requires MetricInputOk(input, deviceOf) && DistinctMetricInput(input) && j < |MetricChecks(input)|
    requires Ends(s, MetricChecks(input)[j], x)
    ensures i.id == x.interfaceId && n < |input.rules| && input.rules[n].id == MetricChecks(input)[j].ruleId
    ensures EndsIt(s, input, i, x.kind, x.metricKey, input.rules[n])
  {
    var rule, key;
    i, rule, key := CheckIsOfRule(input, MetricChecks(input)[j], deviceOf);
    n :| 0 <= n < |input.rules| && input.rules[n] == rule;
  }

  lemma EndingRule(s: Store, input: MetricInput, i: Interface, n: nat, x: Series, deviceOf: string -> string)
    returns (j: nat)
    requires MetricInputOk(input, deviceOf) && DistinctMetricInput(input) && n < |input.rules|
    requires i.id == x.interfaceId && EndsIt(s, input, i, x.kind, x.metricKey, input.rules[n])
    ensures j < |MetricChecks(input)| && Ends(s, MetricChecks(input)[j], x)
    ensures MetricChecks(input)[j].ruleId == input.rules[n].id
  {
    var c := RuleIsChecked(input, i, input.rules[n], x.metricKey, deviceOf);
    j :| 0 <= j < |MetricChecks(input)| && MetricChecks(input)[j] == c;
  }

  lemma SomeEndsExactly(s: Store, input: MetricInput, x: Series, deviceOf: string -> string)
    requires MetricInputOk(input, deviceOf) && DistinctMetricInput(input)
    ensures EndsAfter(s, MetricChecks(input), -1, x) <==> SomeEnds(s, input, x)
  {
    if EndsAfter(s, MetricChecks(input), -1, x) {
      var j :| -1 < j < |MetricChecks(input)| && 0 <= j && Ends(s, MetricChecks(input)[j], x);
      var i, n := EndingCheck(s, input, j, x, deviceOf);
      assert EndedByRule(s, input, i, x.kind, x.metricKey, 0);
    }
    if i: Interface :| i.id == x.interfaceId && EndedByRule(s, input, i, x.kind, x.metricKey, 0) {
      var n :| 0 <= n < |input.rules| && EndsIt(s, input, i, x.kind, x.metricKey, input.rules[n]);
      var j := EndingRule(s, input, i, n, x, deviceOf);
    }
  }

  /** The check at this place is of the rule at that place of the list. */
  ghost predicate IsCheckOf(input: MetricInput, k: nat, i: Interface, m: nat, x: Series) {
    && k < |MetricChecks(input)| && SeriesFor(MetricChecks(input)[k]) == x
    && i in input.interfaces && i.id == x.interfaceId && m < |input.rules| && input.rules[m].id == x.ruleId
  }

  lemma LaterCheckIsOfLaterRule(s: Store, input: MetricInput, i: Interface, m: nat, k: nat, j: nat, x: Series,
                                deviceOf: string -> string)
    requires MetricInputOk(input, deviceOf) && DistinctMetricInput(input) && IsCheckOf(input, k, i, m, x)
    requires k < j < |MetricChecks(input)| && Ends(s, MetricChecks(input)[j], x)
    ensures EndedByRule(s, input, i, x.kind, x.metricKey, m + 1)
  {
    var checks := MetricChecks(input);
    var i', n := EndingCheck(s, input, j, x, deviceOf);
    SameInterface(input.interfaces, i, i');
    RulesComeInOrder(input, k, j, m, n);
    MetricChecksAreDistinct(input, deviceOf);
    if m == n {
      OneCheckPerSeries(checks, j, k, input.deviceId, deviceOf);
    }
  }

  lemma LaterRuleHasLaterCheck(s: Store, input: MetricInput, i: Interface, m: nat, k: nat, n: nat, x: Series,
                               deviceOf: string -> string)
    requires MetricInputOk(input, deviceOf) && DistinctMetricInput(input) && IsCheckOf(input, k, i, m, x)
    requires m < n < |input.rules| && EndsIt(s, input, i, x.kind, x.metricKey, input.rules[n])
    ensures EndsAfter(s, MetricChecks(input), k, x)
  {
    var j := EndingRule(s, input, i, n, x, deviceOf);
    assert input.rules[m].id != input.rules[n].id;
    if j < k {
      RulesComeInOrder(input, j, k, n, m);
    }
  }

  /** After the check of a rule the series is ended exactly by the rules after it. */
  lemma LaterEndsExactly(s: Store, input: MetricInput, i: Interface, m: nat, k: nat, x: Series,
                         deviceOf: string -> string)
    requires MetricInputOk(input, deviceOf) && DistinctMetricInput(input) && IsCheckOf(input, k, i, m, x)
    ensures EndsAfter(s, MetricChecks(input), k, x) <==> EndedByRule(s, input, i, x.kind, x.metricKey, m + 1)
  {
    if EndsAfter(s, MetricChecks(input), k, x) {
      var j :| k < j < |MetricChecks(input)| && 0 <= j && Ends(s, MetricChecks(input)[j], x);
      LaterCheckIsOfLaterRule(s, input, i, m, k, j, x, deviceOf);
    }
    if EndedByRule(s, input, i, x.kind, x.metricKey, m + 1) {
      var n :| m + 1 <= n < |input.rules| && EndsIt(s, input, i, x.kind, x.metricKey, input.rules[n]);
      LaterRuleHasLaterCheck(s, input, i, m, k, n, x, deviceOf);
    }
  }

  lemma SomeOpensExactly(s: Store, input: MetricInput, x: Series, now: int, deviceOf: string -> string)
    requires MetricInputOk(input, deviceOf) && DistinctMetricInput(input)
    ensures Opens(s, MetricChecks(input), x, now) <==> SomeOpens(s, input, x, now)
  {
    var checks := MetricChecks(input);
    if Opens(s, checks, x, now) {
      var k :| 0 <= k < |checks| && SeriesFor(checks[k]) == x && checks[k].opens.Some? && !EndsAfter(s, checks, k, x);
      var i, rule, key := CheckIsOfRule(input, checks[k], deviceOf);
      var m :| 0 <= m < |input.rules| && input.rules[m] == rule;
      LaterEndsExactly(s, input, i, m, k, x, deviceOf);
      assert OpensIt(s, input, i, m, x.metricKey, now);
    }
    if i: Interface, m: nat :| m < |input.rules| && i.id == x.interfaceId && IsRuleOf(input.rules[m], x)
                               && OpensIt(s, input, i, m, x.metricKey, now) {
      var c := RuleIsChecked(input, i, input.rules[m], x.metricKey, deviceOf);
      var k :| 0 <= k < |checks| && checks[k] == c;
      LaterEndsExactly(s, input, i, m, k, x, deviceOf);
    }
  }

  lemma SweptRows(s: Store, lastSweep: int, now: int)
    ensures var swept := Housekeep(s, lastSweep, now).0;
            && swept.alarms == s.alarms
            && forall id: nat, x :: HeldRow(swept, id, x, now) <==> HeldRow(s, id, x, now)
  {
  }

  lemma SweptSeries(s: Store, lastSweep: int, now: int)
    ensures var swept := Housekeep(s, lastSweep, now).0;
            forall x :: (InAlarm(swept, x) <==> InAlarm(s, x)) && (Held(swept, x, now) <==> Held(s, x, now))
  {
    var swept := Housekeep(s, lastSweep, now).0;
    SweptRows(s, lastSweep, now);
    forall x ensures (InAlarm(swept, x) <==> InAlarm(s, x)) && (Held(swept, x, now) <==> Held(s, x, now)) {
      assert forall id: nat :: OpenRow(swept, id, x) <==> OpenRow(s, id, x);
      assert forall id: nat :: HeldRow(swept, id, x, now) <==> HeldRow(s, id, x, now);
    }
  }

  /**
   * For every series of the device. One in alarm ends exactly when some rule in scope
   * that reads the same counter and was in alarm has seen its own number of calm pairs of
   * samples. One that is not comes into alarm exactly when it is not suppressed, its rule
   * is in scope and has seen its own number of pairs at the threshold, and no rule further
   * down the list ends it again.
   */
  lemma CounterPassAlarms(s: Store, lastSweep: int, input: MetricInput, x: Series, now: int,
                          deviceOf: string -> string)
    requires Safe(s, now, deviceOf) && MetricInputOk(input, deviceOf) && DistinctMetricInput(input)
    requires SeriesOk(x, input.deviceId, deviceOf)
    ensures var t := MetricPass(s, lastSweep, input, now).0;
            InAlarm(t, x) <==> if InAlarm(s, x) then !SomeEnds(s, input, x) else SomeOpens(s, input, x, now)
  {
    if input.interfaces != [] {
      var swept := Housekeep(s, lastSweep, now).0;
      ExpiringIsSafe(s, now, deviceOf);
      MetricChecksAreDistinct(input, deviceOf);
      PassAlarms(swept, input.deviceId, MetricChecks(input), x, now, deviceOf);
      SomeEndsExactly(swept, input, x, deviceOf);
      SomeOpensExactly(swept, input, x, now, deviceOf);
      SweepChangesNothing(s, lastSweep, input, x, now);
    }
  }

  lemma SweepChangesNothing(s: Store, lastSweep: int, input: MetricInput, x: Series, now: int)
    ensures var swept := Housekeep(s, lastSweep, now).0;
            && (InAlarm(swept, x) <==> InAlarm(s, x))
            && (SomeEnds(swept, input, x) <==> SomeEnds(s, input, x))
            && (SomeOpens(swept, input, x, now) <==> SomeOpens(s, input, x, now))
  {
    var swept := Housekeep(s, lastSweep, now).0;
    SweptSeries(s, lastSweep, now);
    forall i, from: nat
      ensures EndedByRule(swept, input, i, x.kind, x.metricKey, from)
              <==> EndedByRule(s, input, i, x.kind, x.metricKey, from)
    {
      assert forall n :: 0 <= n < |input.rules| ==>
               (EndsIt(swept, input, i, x.kind, x.metricKey, input.rules[n]) <==>
                EndsIt(s, input, i, x.kind, x.metricKey, input.rules[n]));
    }
    forall i, m: nat | m < |input.rules| && IsRuleOf(input.rules[m], x)
      ensures OpensIt(swept, input, i, m, x.metricKey, now) <==> OpensIt(s, input, i, m, x.metricKey, now)
    {
    }
  }

  /** A row that is open in the end was there, unchanged, or is new: of its rule and severity, and begun now. */
  lemma CounterPassRows(s: Store, lastSweep: int, input: MetricInput, i: Interface, rule: Rule, metricKey: string,
                        id: nat, now: int, deviceOf: string -> string)
    requires Safe(s, now, deviceOf) && MetricInputOk(input, deviceOf) && DistinctMetricInput(input)
    requires Evaluates(input, i, rule, metricKey)
    requires OpenRow(MetricPass(s, lastSweep, input, now).0, id, Series(i.id, rule.kind, rule.id, metricKey))
    ensures var t, x := MetricPass(s, lastSweep, input, now).0, Series(i.id, rule.kind, rule.id, metricKey);
            if InAlarm(s, x) then OpenRow(s, id, x) && t.alarms[id] == s.alarms[id]
            else t.alarms[id] == Alarm(input.deviceId, i.id, rule.kind, rule.severity, Some(rule.id), Some(metricKey),
                                       now,
                                       None, None, None)
  {
    var swept := Housekeep(s, lastSweep, now).0;
    var c := RuleIsChecked(input, i, rule, metricKey, deviceOf);
    var k :| 0 <= k < |MetricChecks(input)| && MetricChecks(input)[k] == c;
    ExpiringIsSafe(s, now, deviceOf);
    MetricChecksAreDistinct(input, deviceOf);
    SweptRows(s, lastSweep, now);
    SweptSeries(s, lastSweep, now);
    PassOpenRows(swept, input.deviceId, MetricChecks(input), k, id, now, deviceOf);
  }

  /** A suppression is lifted exactly when it waits for recovery and its rule has seen its number of calm pairs. */
  lemma CounterPassSuppressions(s: Store, lastSweep: int, input: MetricInput, i: Interface, rule: Rule,
                                metricKey: string, id: nat, now: int, deviceOf: string -> string)
    requires Safe(s, now, deviceOf) && MetricInputOk(input, deviceOf) && DistinctMetricInput(input)
    requires Evaluates(input, i, rule, metricKey)
    ensures var t, x := MetricPass(s, lastSweep, input, now).0, Series(i.id, rule.kind, rule.id, metricKey);
            HeldRow(t, id, x, now) <==>
            HeldRow(s, id, x, now) && !(Recovered(input, i, rule, metricKey) && s.suppressions[id].mode == UNTIL_CLEAR)
  {
    var swept := Housekeep(s, lastSweep, now).0;
    var c := RuleIsChecked(input, i, rule, metricKey, deviceOf);
    var k :| 0 <= k < |MetricChecks(input)| && MetricChecks(input)[k] == c;
    ExpiringIsSafe(s, now, deviceOf);
    MetricChecksAreDistinct(input, deviceOf);
    SweptRows(s, lastSweep, now);
    PassHeldRows(swept, input.deviceId, MetricChecks(input), k, id, now, deviceOf);
  }

  /** What has ended during a pass ended at the time of the pass, and no other row is rewritten. */
  lemma CounterPassEndsNow(s: Store, lastSweep: int, input: MetricInput, now: int)
    ensures SameRowsAfter(s, MetricPass(s, lastSweep, input, now).0, now)
  {
    var swept := Housekeep(s, lastSweep, now).0;
    RunEndsNow(Start(swept, input.deviceId, now), MetricChecks(input), now);
  }
}
