/** What the counter and the optical pass guarantee for the samples and rules they are given. */
module AlarmEngineLaws {
  import opened Options
  import opened Grouping
  import opened Fingerprint
  import opened AlarmStore
  import opened AlarmChecks
  import opened AlarmPassLaws
  import opened AlarmPassOutcome
  import opened AlarmPassIdempotence
  import opened MetricWindow
  import opened AlarmEngine
  import OL = OpticalLadder
  import OT = OpticalTrend
  import OS = OpticalSeries

  // ----- well-formed input

  ghost predicate InterfacesOk(interfaces: seq<Interface>, deviceId: string, deviceOf: string -> string) {
    forall i :: i in interfaces ==> deviceOf(i.id) == deviceId && SEPARATOR !in i.id
  }

  ghost predicate RulesOk(rules: seq<Rule>) {
    forall rule :: rule in rules ==> rule.kind != INTERFACE_DOWN && SEPARATOR !in rule.id
  }

  ghost predicate MetricInputOk(input: MetricInput, deviceOf: string -> string) {
    InterfacesOk(input.interfaces, input.deviceId, deviceOf) && RulesOk(input.rules)
  }

  ghost predicate OpticalInputOk(input: OpticalInput, deviceOf: string -> string) {
    InterfacesOk(input.interfaces, input.deviceId, deviceOf) && RulesOk(input.rules)
  }

  ghost predicate DistinctInterfaces(interfaces: seq<Interface>) {
    forall i, j :: 0 <= i < j < |interfaces| ==> interfaces[i].id != interfaces[j].id
  }

  ghost predicate DistinctRules(rules: seq<Rule>) {
    forall p, q :: 0 <= p < q < |rules| ==> rules[p].id != rules[q].id
  }

  // ----- where a check comes from

  ghost predicate IsMetricCheck(c: Check, input: MetricInput, i: Interface, rule: Rule, toggle: Toggle) {
    && i in input.interfaces && rule in input.rules && Watches(rule, input, i) && toggle in RuleToggles(rule)
    && c == MetricCheck(input.deviceId, i, rule, toggle, Select(input.samples, InterfaceOf(), i.id))
  }

  lemma MetricCheckHasOrigin(input: MetricInput, c: Check) returns (i: Interface, rule: Rule, toggle: Toggle)
    requires c in MetricChecks(input)
    ensures IsMetricCheck(c, input, i, rule, toggle)
  {
    FlatMapMembers(input.interfaces, InterfaceChecks(input), c);
    i :| i in input.interfaces && c in InterfaceChecks(input)(i);
    var samples := Select(input.samples, InterfaceOf(), i.id);
    FlatMapMembers(input.rules, RuleChecks(input, i, samples), c);
    rule :| rule in input.rules && c in RuleChecks(input, i, samples)(rule);
    toggle := RuleCheckHasOrigin(input, i, samples, rule, c);
  }

  lemma RuleCheckHasOrigin(input: MetricInput, i: Interface, samples: seq<Sample>, rule: Rule, c: Check)
    returns (toggle: Toggle)
    requires c in RuleChecks(input, i, samples)(rule)
    ensures Watches(rule, input, i) && toggle in RuleToggles(rule)
            && c == MetricCheck(input.deviceId, i, rule, toggle, samples)
  {
    FlatMapMembers(RuleToggles(rule), ToggleChecks(input.deviceId, i, rule, samples), c);
    toggle :| toggle in RuleToggles(rule) && c in ToggleChecks(input.deviceId, i, rule, samples)(toggle);
  }

  ghost predicate IsOpticalCheck(c: Check, input: OpticalInput, i: Interface, rule: Rule, series: OS.Series, now: int) {
    && i in input.interfaces && rule in input.rules && WatchesOptics(rule, input, i)
    && series in SeriesOf(input, i, rule.config.optical, now)
    && c == OpticalCheck(input.deviceId, i, rule, series.metricKey, AllCriteria(series, rule.config.optical))
  }

  lemma OpticalCheckHasOrigin(input: OpticalInput, c: Check, now: int)
    returns (i: Interface, rule: Rule, series: OS.Series)
    requires c in OpticalChecks(input, now)
    ensures IsOpticalCheck(c, input, i, rule, series, now)
  {
    FlatMapMembers(input.interfaces, OpticalInterfaceChecks(input, now), c);
    i :| i in input.interfaces && c in OpticalInterfaceChecks(input, now)(i);
    FlatMapMembers(input.rules, OpticalRuleChecks(input, i, now), c);
    rule :| rule in input.rules && c in OpticalRuleChecks(input, i, now)(rule);
    series := OpticalRuleCheckHasOrigin(input, i, rule, c, now);
  }

  lemma OpticalRuleCheckHasOrigin(input: OpticalInput, i: Interface, rule: Rule, c: Check, now: int)
    returns (series: OS.Series)
    requires c in OpticalRuleChecks(input, i, now)(rule)
    ensures WatchesOptics(rule, input, i) && series in SeriesOf(input, i, rule.config.optical, now)
    ensures c == OpticalCheck(input.deviceId, i, rule, series.metricKey, AllCriteria(series, rule.config.optical))
  {
    assert WatchesOptics(rule, input, i);
    var all := SeriesOf(input, i, rule.config.optical, now);
    FlatMapMembers(all, SeriesCheck(input.deviceId, i, rule), c);
    series :| series in all && c in SeriesCheck(input.deviceId, i, rule)(series);
  }

  // ----- safety

  lemma MetricChecksAreOk(input: MetricInput, deviceOf: string -> string)
    requires MetricInputOk(input, deviceOf)
    ensures forall c :: c in MetricChecks(input) ==> CheckOk(c, input.deviceId, deviceOf)
  {
    forall c | c in MetricChecks(input) ensures CheckOk(c, input.deviceId, deviceOf) {
      var i, rule, toggle := MetricCheckHasOrigin(input, c);
    }
  }

  lemma OpticalChecksAreOk(input: OpticalInput, now: int, deviceOf: string -> string)
    requires OpticalInputOk(input, deviceOf)
    ensures forall c :: c in OpticalChecks(input, now) ==> CheckOk(c, input.deviceId, deviceOf)
  {
    forall c | c in OpticalChecks(input, now) ensures CheckOk(c, input.deviceId, deviceOf) {
      var i, rule, series := OpticalCheckHasOrigin(input, c, now);
    }
  }

  lemma ExpiringIsSafe(s: Store, now: int, deviceOf: string -> string)
    requires Safe(s, now, deviceOf)
    ensures Safe(ExpireDue(s, now), now, deviceOf) && Extends(s, ExpireDue(s, now))
  {
    ClearingIsSafe(s, ExpireDue(s, now), now, deviceOf);
  }

  /** Whatever the samples and the rules, a counter pass keeps the store safe and rewrites no history. */
  lemma MetricPassIsSafe(s: Store, lastSweep: int, input: MetricInput, now: int, deviceOf: string -> string)
    requires Safe(s, now, deviceOf) && MetricInputOk(input, deviceOf)
    ensures var t := MetricPass(s, lastSweep, input, now).0; Safe(t, now, deviceOf) && Extends(s, t)
  {
    var swept := Housekeep(s, lastSweep, now).0;
    ExpiringIsSafe(s, now, deviceOf);
    MetricChecksAreOk(input, deviceOf);
    PassIsSafe(swept, input.deviceId, MetricChecks(input), now, deviceOf);
    ExtendsIsTransitive(s, swept, RunPass(swept, input.deviceId, MetricChecks(input), now));
  }

  lemma OpticalPassIsSafe(s: Store, input: OpticalInput, now: int, deviceOf: string -> string)
    requires Safe(s, now, deviceOf) && OpticalInputOk(input, deviceOf)
    ensures Safe(OpticalPass(s, input, now), now, deviceOf) && Extends(s, OpticalPass(s, input, now))
  {
    OpticalChecksAreOk(input, now, deviceOf);
    PassIsSafe(s, input.deviceId, OpticalChecks(input, now), now, deviceOf);
  }

  // ----- distinct interfaces, rules and series make the keys of a pass distinct

  /** What tells two checks of a pass apart. */
  datatype Tag = Tag(interfaceId: string, ruleId: string, metricKey: string)

  function TagOf(c: Check): Tag {
    Tag(c.interfaceId, c.ruleId, c.metricKey)
  }

  ghost predicate DistinctTags(checks: seq<Check>) {
    forall i, j :: 0 <= i < j < |checks| ==> TagOf(checks[i]) != TagOf(checks[j])
  }

  ghost predicate NoSharedTags(a: seq<Check>, b: seq<Check>) {
    forall c, d :: c in a && d in b ==> TagOf(c) != TagOf(d)
  }

  lemma DistinctConcat(a: seq<Check>, b: seq<Check>)
    requires DistinctTags(a) && DistinctTags(b) && NoSharedTags(a, b)
    ensures DistinctTags(a + b)
  {
    forall i, j | 0 <= i < j < |a + b| ensures TagOf((a + b)[i]) != TagOf((a + b)[j]) {
      if i < |a| <= j {
        assert a[i] in a && b[j - |a|] in b;
      }
    }
  }

  lemma {:induction false} DistinctFlatMap<A>(s: seq<A>, f: A -> seq<Check>)
    requires forall i :: 0 <= i < |s| ==> DistinctTags(f(s[i]))
    requires forall i, j :: 0 <= i < j < |s| ==> NoSharedTags(f(s[i]), f(s[j]))
    ensures DistinctTags(FlatMap(s, f))
  {
    if s == [] {
    } else {
      var last := |s| - 1;
      var before := s[..last];
      DistinctFlatMap(before, f);
      forall c, d | c in FlatMap(before, f) && d in f(s[last]) ensures TagOf(c) != TagOf(d) {
        FlatMapMembers(before, f, c);
        var x :| x in before && c in f(x);
        var i :| 0 <= i < |before| && before[i] == x;
        assert NoSharedTags(f(s[i]), f(s[last]));
      }
      DistinctConcat(FlatMap(before, f), f(s[last]));
    }
  }

  lemma TagsMakeKeys(checks: seq<Check>, deviceId: string, deviceOf: string -> string)
    requires DistinctTags(checks) && forall c :: c in checks ==> CheckOk(c, deviceId, deviceOf)
    ensures ChecksOk(checks, deviceId, deviceOf)
  {
    forall i, j | 0 <= i < j < |checks| ensures CheckKey(checks[i]) != CheckKey(checks[j]) {
      var c, d := checks[i], checks[j];
      assert c in checks && d in checks;
      IsExact(c.interfaceId, c.kind, Some(c.ruleId), Some(c.metricKey), d.interfaceId, d.kind, Some(d.ruleId),
              Some(d.metricKey));
    }
  }

  lemma OneToggleOneKey(rule: Rule, i: nat, j: nat)
    requires i < j < |RuleToggles(rule)|
    ensures MetricKey(RuleToggles(rule)[i]) != MetricKey(RuleToggles(rule)[j])
  {
  }

  lemma RuleChecksAreDistinct(input: MetricInput, i: Interface, rule: Rule, samples: seq<Sample>)
    ensures DistinctTags(RuleChecks(input, i, samples)(rule))
  {
    if Watches(rule, input, i) {
      var toggles, f := RuleToggles(rule), ToggleChecks(input.deviceId, i, rule, samples);
      forall p, q | 0 <= p < q < |toggles| ensures NoSharedTags(f(toggles[p]), f(toggles[q])) {
        OneToggleOneKey(rule, p, q);
      }
      DistinctFlatMap(toggles, f);
    }
  }

  lemma InterfaceChecksAreDistinct(input: MetricInput, i: Interface)
    requires DistinctRules(input.rules)
    ensures DistinctTags(InterfaceChecks(input)(i))
  {
    var samples := Select(input.samples, InterfaceOf(), i.id);
    var f := RuleChecks(input, i, samples);
    forall p | 0 <= p < |input.rules| ensures DistinctTags(f(input.rules[p])) {
      RuleChecksAreDistinct(input, i, input.rules[p], samples);
    }
    forall p, q | 0 <= p < q < |input.rules| ensures NoSharedTags(f(input.rules[p]), f(input.rules[q])) {
      forall c, d | c in f(input.rules[p]) && d in f(input.rules[q]) ensures TagOf(c) != TagOf(d) {
        var t := RuleCheckHasOrigin(input, i, samples, input.rules[p], c);
        var u := RuleCheckHasOrigin(input, i, samples, input.rules[q], d);
      }
    }
    DistinctFlatMap(input.rules, f);
  }

  lemma InterfaceOfCheck(input: MetricInput, i: Interface, c: Check)
    requires c in InterfaceChecks(input)(i)
    ensures c.interfaceId == i.id
  {
    var samples := Select(input.samples, InterfaceOf(), i.id);
    FlatMapMembers(input.rules, RuleChecks(input, i, samples), c);
    var rule :| rule in input.rules && c in RuleChecks(input, i, samples)(rule);
    var toggle := RuleCheckHasOrigin(input, i, samples, rule, c);
  }

  lemma MetricTagsAreDistinct(input: MetricInput)
    requires DistinctInterfaces(input.interfaces) && DistinctRules(input.rules)
    ensures DistinctTags(MetricChecks(input))
  {
    var f := InterfaceChecks(input);
    forall i | 0 <= i < |input.interfaces| ensures DistinctTags(f(input.interfaces[i])) {
      InterfaceChecksAreDistinct(input, input.interfaces[i]);
    }
    forall i, j | 0 <= i < j < |input.interfaces| ensures NoSharedTags(f(input.interfaces[i]), f(input.interfaces[j])) {
      forall c, d | c in f(input.interfaces[i]) && d in f(input.interfaces[j]) ensures TagOf(c) != TagOf(d) {
        InterfaceOfCheck(input, input.interfaces[i], c);
        InterfaceOfCheck(input, input.interfaces[j], d);
      }
    }
    DistinctFlatMap(input.interfaces, f);
  }

  /** No two interfaces and no two rules share an id. */
  ghost predicate DistinctMetricInput(input: MetricInput) {
    DistinctInterfaces(input.interfaces) && DistinctRules(input.rules)
  }

  /** Each rule looks at each counter of an interface once. */
  lemma MetricChecksAreDistinct(input: MetricInput, deviceOf: string -> string)
    requires MetricInputOk(input, deviceOf) && DistinctMetricInput(input)
    ensures ChecksOk(MetricChecks(input), input.deviceId, deviceOf)
  {
    MetricChecksAreOk(input, deviceOf);
    MetricTagsAreDistinct(input);
    TagsMakeKeys(MetricChecks(input), input.deviceId, deviceOf);
  }

  // ----- counter passes

  /** Of the rules that watch one counter, none recovers where another triggers. */
  ghost predicate CompatibleRules(input: MetricInput) {
    forall i, p, q, t ::
      i in input.interfaces && p in input.rules && q in input.rules && p.kind == q.kind
      && Watches(p, input, i) && Watches(q, input, i) && t in RuleToggles(p) && t in RuleToggles(q) ==>
        Separated(q.config.threshold, p.config.recovery)
  }

  lemma SameKeySameToggle(p: Rule, q: Rule, t: Toggle, u: Toggle)
    requires p.kind == q.kind && t in RuleToggles(p) && u in RuleToggles(q) && MetricKey(t) == MetricKey(u)
    ensures t == u
  {
  }

  lemma SameInterface(interfaces: seq<Interface>, i: Interface, j: Interface)
    requires DistinctInterfaces(interfaces) && i in interfaces && j in interfaces && i.id == j.id
    ensures i == j
  {
    var m :| 0 <= m < |interfaces| && interfaces[m] == i;
    var n :| 0 <= n < |interfaces| && interfaces[n] == j;
  }

  lemma MetricChecksDoNotClash(input: MetricInput)
    requires DistinctInterfaces(input.interfaces) && CompatibleRules(input)
    ensures NoClash(MetricChecks(input))
  {
    forall c, d | c in MetricChecks(input) && d in MetricChecks(input) ensures !Clash(c, d) {
      var i, p, t := MetricCheckHasOrigin(input, c);
      var j, q, u := MetricCheckHasOrigin(input, d);
      if SameSeries(c, d) {
        SameInterface(input.interfaces, i, j);
        SameKeySameToggle(p, q, t, u);
        assert Separated(q.config.threshold, p.config.recovery);
        NeverTriggeredAndRecovered(Evaluations(Select(input.samples, InterfaceOf(), i.id), t),
                                   q.config.threshold, p.config.recovery, q.config.triggerSamples,
                                       p.config.recoverySamples);
      }
    }
  }

  /**
   * When among the rules on one counter no recovery limit reaches a threshold, running
   * a counter pass again on the same samples and clock changes nothing: no alarm, no
   * suppression, no sweep time.
   */
  lemma MetricPassIsIdempotent(s: Store, lastSweep: int, input: MetricInput, now: int, deviceOf: string -> string)
    requires Safe(s, now, deviceOf) && MetricInputOk(input, deviceOf)
    requires DistinctMetricInput(input) && CompatibleRules(input)
    ensures var (t, sweep) := MetricPass(s, lastSweep, input, now);
            MetricPass(t, sweep, input, now) == (t, sweep)
  {
    if input.interfaces != [] {
      var (swept, sweep) := Housekeep(s, lastSweep, now);
      ExpiringIsSafe(s, now, deviceOf);
      MetricChecksAreDistinct(input, deviceOf);
      MetricChecksDoNotClash(input);
      PassIsIdempotent(swept, input.deviceId, MetricChecks(input), now, deviceOf);
    }
  }

  /** What a counter pass does to each counter of each rule, sweep included and whatever other rules watch it. */
  lemma MetricPassOutcome(s: Store, lastSweep: int, input: MetricInput, k: nat, now: int, deviceOf: string -> string)
    requires Safe(s, now, deviceOf) && MetricInputOk(input, deviceOf) && DistinctMetricInput(input)
    requires k < |MetricChecks(input)|
    ensures SharedOutcome(s, MetricPass(s, lastSweep, input, now).0, MetricChecks(input), k, now)
  {
    var swept := Housekeep(s, lastSweep, now).0;
    ExpiringIsSafe(s, now, deviceOf);
    MetricChecksAreDistinct(input, deviceOf);
    PassOutcome(swept, input.deviceId, MetricChecks(input), k, now, deviceOf);
    OutcomeIgnoresSweep(s, lastSweep, RunPass(swept, input.deviceId, MetricChecks(input), now), MetricChecks(input), k,
                        now);
  }

  lemma OutcomeIgnoresSweep(s: Store, lastSweep: int, t: Store, checks: seq<Check>, k: nat, now: int)
    requires k < |checks| && SharedOutcome(Housekeep(s, lastSweep, now).0, t, checks, k, now)
    ensures SharedOutcome(s, t, checks, k, now)
  {
    var swept := Housekeep(s, lastSweep, now).0;
    SweepIsInvisible(s, lastSweep, CheckKey(checks[k]), now);
    forall j | 0 <= j < |checks|
      ensures Resolves(swept, checks[j], checks[k]) <==> Resolves(s, checks[j], checks[k])
    {
      SweepIsInvisible(s, lastSweep, CheckKey(checks[j]), now);
    }
    assert EndedFrom(swept, checks, 0, checks[k]) <==> EndedFrom(s, checks, 0, checks[k]);
    assert EndedFrom(swept, checks, k + 1, checks[k]) <==> EndedFrom(s, checks, k + 1, checks[k]);
  }

  /** A counter that calmed down under a rule whose limits are apart is closed, whatever the other rules say. */
  lemma MetricRecoveredIsClosed(s: Store, lastSweep: int, input: MetricInput, c: Check, i: Interface, rule: Rule,
                                toggle: Toggle, now: int, deviceOf: string -> string)
    requires Safe(s, now, deviceOf) && MetricInputOk(input, deviceOf) && DistinctMetricInput(input)
    requires c in MetricChecks(input) && IsMetricCheck(c, input, i, rule, toggle) && c.recovered
    requires Separated(rule.config.threshold, rule.config.recovery)
    ensures var t := MetricPass(s, lastSweep, input, now).0;
            Outcome(s, t, c, now) && !HasOpen(t, CheckKey(c))
  {
    NeverTriggeredAndRecovered(Evaluations(Select(input.samples, InterfaceOf(), i.id), toggle), rule.config.threshold,
                               rule.config.recovery, rule.config.triggerSamples, rule.config.recoverySamples);
    var k :| 0 <= k < |MetricChecks(input)| && MetricChecks(input)[k] == c;
    MetricPassOutcome(s, lastSweep, input, k, now, deviceOf);
    UndisturbedOutcome(s, MetricPass(s, lastSweep, input, now).0, MetricChecks(input), k, now);
  }

  /** A counter alarm suppressed when a pass begins is not open when it ends, even if the pass released it. */
  lemma MetricSuppressedIsNotOpened(s: Store, lastSweep: int, input: MetricInput, c: Check, now: int,
                                    deviceOf: string -> string)
    requires Safe(s, now, deviceOf) && MetricInputOk(input, deviceOf) && DistinctMetricInput(input)
    requires c in MetricChecks(input) && HasActive(s, CheckKey(c), now)
    ensures !HasOpen(MetricPass(s, lastSweep, input, now).0, CheckKey(c))
  {
    var i, rule, toggle := MetricCheckHasOrigin(input, c);
    ExpiringIsSafe(s, now, deviceOf);
    MetricChecksAreDistinct(input, deviceOf);
    SweepIsInvisible(s, lastSweep, CheckKey(c), now);
    SuppressedIsNotOpened(Housekeep(s, lastSweep, now).0, input.deviceId, MetricChecks(input), c, now, deviceOf);
  }

  /** Sweeping only marks what is no longer active. */
  lemma SweepIsInvisible(s: Store, lastSweep: int, key: string, now: int)
    ensures var swept := Housekeep(s, lastSweep, now).0;
            && swept.alarms == s.alarms
            && (HasOpen(swept, key) <==> HasOpen(s, key))
            && (HasActive(swept, key, now) <==> HasActive(s, key, now))
            && (forall id: nat :: IsActiveRow(swept, id, key, now) <==> IsActiveRow(s, id, key, now))
            && (forall id: nat :: IsActiveRow(s, id, key, now) ==> swept.suppressions[id] == s.suppressions[id])
  {
    var swept := Housekeep(s, lastSweep, now).0;
    assert forall id: nat :: IsOpenRow(swept, id, key) <==> IsOpenRow(s, id, key);
    assert forall id: nat :: IsActiveRow(swept, id, key, now) <==> IsActiveRow(s, id, key, now);
  }

  // ----- optical series

  ghost predicate LanesAreDistinct(interfaces: seq<Interface>) {
    forall i :: i in interfaces ==> OS.DistinctLanes(i.port)
  }

  /** No two interfaces, rules, or lanes of one interface share an id. */
  ghost predicate DistinctOpticalInput(input: OpticalInput) {
    DistinctInterfaces(input.interfaces) && DistinctRules(input.rules) && LanesAreDistinct(input.interfaces)
  }

  lemma SeriesAreDistinct(input: OpticalInput, i: Interface, config: OpticalConfig, now: int)
    requires OS.DistinctLanes(i.port)
    ensures OS.DistinctKeys(SeriesOf(input, i, config, now))
  {
    OS.SeriesKeysAreDistinct(i.port, Select(input.samples, SampleOf(), i.id), RecordOf(input, i), config.manual, now,
                             input.aggregated);
  }

  lemma OpticalRuleChecksAreDistinct(input: OpticalInput, i: Interface, rule: Rule, now: int)
    requires OS.DistinctLanes(i.port)
    ensures DistinctTags(OpticalRuleChecks(input, i, now)(rule))
  {
    if WatchesOptics(rule, input, i) {
      SeriesAreDistinct(input, i, rule.config.optical, now);
      DistinctFlatMap(SeriesOf(input, i, rule.config.optical, now), SeriesCheck(input.deviceId, i, rule));
    }
  }

  lemma OpticalInterfaceChecksAreDistinct(input: OpticalInput, i: Interface, now: int)
    requires DistinctRules(input.rules) && OS.DistinctLanes(i.port)
    ensures DistinctTags(OpticalInterfaceChecks(input, now)(i))
  {
    var f := OpticalRuleChecks(input, i, now);
    forall p | 0 <= p < |input.rules| ensures DistinctTags(f(input.rules[p])) {
      OpticalRuleChecksAreDistinct(input, i, input.rules[p], now);
    }
    forall p, q | 0 <= p < q < |input.rules| ensures NoSharedTags(f(input.rules[p]), f(input.rules[q])) {
      forall c, d | c in f(input.rules[p]) && d in f(input.rules[q]) ensures TagOf(c) != TagOf(d) {
        var a := OpticalRuleCheckHasOrigin(input, i, input.rules[p], c, now);
        var b := OpticalRuleCheckHasOrigin(input, i, input.rules[q], d, now);
      }
    }
    DistinctFlatMap(input.rules, f);
  }

  lemma OpticalInterfaceOfCheck(input: OpticalInput, i: Interface, c: Check, now: int)
    requires c in OpticalInterfaceChecks(input, now)(i)
    ensures c.interfaceId == i.id
  {
    FlatMapMembers(input.rules, OpticalRuleChecks(input, i, now), c);
    var rule :| rule in input.rules && c in OpticalRuleChecks(input, i, now)(rule);
    var series := OpticalRuleCheckHasOrigin(input, i, rule, c, now);
  }

  lemma OpticalTagsAreDistinct(input: OpticalInput, now: int)
    requires DistinctOpticalInput(input)
    ensures DistinctTags(OpticalChecks(input, now))
  {
    var f := OpticalInterfaceChecks(input, now);
    forall i | 0 <= i < |input.interfaces| ensures DistinctTags(f(input.interfaces[i])) {
      assert input.interfaces[i] in input.interfaces;
      OpticalInterfaceChecksAreDistinct(input, input.interfaces[i], now);
    }
    forall i, j | 0 <= i < j < |input.interfaces| ensures NoSharedTags(f(input.interfaces[i]), f(input.interfaces[j])) {
      forall c, d | c in f(input.interfaces[i]) && d in f(input.interfaces[j]) ensures TagOf(c) != TagOf(d) {
        OpticalInterfaceOfCheck(input, input.interfaces[i], c, now);
        OpticalInterfaceOfCheck(input, input.interfaces[j], d, now);
      }
    }
    DistinctFlatMap(input.interfaces, f);
  }

  /** Each rule looks at each series of an interface once. */
  lemma OpticalChecksAreDistinct(input: OpticalInput, now: int, deviceOf: string -> string)
    requires OpticalInputOk(input, deviceOf) && DistinctOpticalInput(input)
    ensures ChecksOk(OpticalChecks(input, now), input.deviceId, deviceOf)
  {
    OpticalChecksAreOk(input, now, deviceOf);
    OpticalTagsAreDistinct(input, now);
    TagsMakeKeys(OpticalChecks(input, now), input.deviceId, deviceOf);
  }

  /** The series the pass judges are in time order, so every drop is over exactly the window that ends at its sample. */
  lemma SeriesDropIsOverTheWindow(input: OpticalInput, i: Interface, config: OpticalConfig, now: int, series: OS.Series,
                                  index: nat)
    requires series in SeriesOf(input, i, config, now) && index < |series.points|
    ensures OS.IsDropOverWindow(series, index, config.dropWindowMs)
  {
    SeriesAreSorted(input, i, config, now, series);
    OS.DropIsOverTheWindow(series, index, config.dropWindowMs);
  }

  lemma SeriesAreSorted(input: OpticalInput, i: Interface, config: OpticalConfig, now: int, series: OS.Series)
    requires series in SeriesOf(input, i, config, now)
    ensures OT.SortedByTime(series.points)
  {
    OS.PointsAreSorted(i.port, Select(input.samples, SampleOf(), i.id), RecordOf(input, i), config.manual, now,
                       input.aggregated, series);
  }

  // ----- recovery against reopening

  ghost predicate HasLatest(criteria: seq<Option<OL.Criteria>>) {
    criteria != [] && criteria[|criteria| - 1].Some?
  }

  /** The drop of a sample reaches one of the two drop limits. */
  ghost predicate Dropping(c: OL.Criteria) {
    c.drop >= c.dropLimit || c.drop >= c.majorDropLimit
  }

  /**
   * With coherent thresholds, the only optical series that recovers and triggers at
   * once is one whose latest sample dropped by a drop limit.
   */
  lemma OnlyADropReopens(deviceId: string, i: Interface, rule: Rule, metricKey: string,
                         criteria: seq<Option<OL.Criteria>>)
    requires rule.config.Optical?
    requires HasLatest(criteria) ==> OL.Coherent(criteria[|criteria| - 1].value)
    ensures var c := OpticalCheck(deviceId, i, rule, metricKey, criteria);
            c.recovered && c.opens.Some? ==> HasLatest(criteria) && Dropping(criteria[|criteria| - 1].value)
  {
    var c := OpticalCheck(deviceId, i, rule, metricKey, criteria);
    if c.recovered && c.opens.Some? {
      OL.TargetIsShownByTheLatest(Ladders(criteria), rule.config.optical.samples);
      OL.RecoveryIsShownByTheLatest(Recoveries(criteria), rule.config.optical.recoverySamples);
      OL.RecoveredLeavesOnlyTheDrop(criteria[|criteria| - 1].value);
    }
  }

  ghost predicate SameLimits(a: OL.Criteria, b: OL.Criteria) {
    a.lowAlarm == b.lowAlarm && a.highAlarm == b.highAlarm && a.lowWarning == b.lowWarning
    && a.highWarning == b.highWarning
  }

  /**
   * What recovers under `a` is on no rung under `b`: same limits of the transceiver, a
   * gap between the recovery limit of one rule and the warning limit of the other, and
   * a quiet trend. For one rule this is coherence and a quiet trend.
   */
  ghost predicate Compatible(a: OL.Criteria, b: OL.Criteria) {
    && SameLimits(a, b) && OL.Coherent(b.(recoveryProximity := a.recoveryProximity))
    && b.warningMargin <= a.warningMargin && !Dropping(b)
  }

  lemma RecoveredElsewhere(a: OL.Criteria, b: OL.Criteria)
    requires Compatible(a, b) && a.current == b.current && OL.Recovered(a)
    ensures OL.LadderFor(b) == OL.NONE
  {
    var mixed := b.(recoveryProximity := a.recoveryProximity);
    assert OL.ProximityWindow(mixed) == OL.ProximityWindow(a) == OL.ProximityWindow(b);
    assert OL.Recovered(mixed);
    OL.RecoveredLeavesOnlyTheDrop(mixed);
    assert OL.LadderFor(b) == OL.LadderFor(mixed);
  }

  ghost function LatestOf(series: OS.Series, config: OpticalConfig): Option<OL.Criteria> {
    var criteria := AllCriteria(series, config);
    if HasLatest(criteria) then criteria[|criteria| - 1] else None
  }

  /** Any two rules on one series of an interface are compatible at its latest sample, if one calls that recovered. */
  ghost predicate CompatibleOptics(input: OpticalInput, now: int) {
    forall i, p, q, a, b ::
      i in input.interfaces && p in input.rules && q in input.rules && WatchesOptics(p, input, i)
      && WatchesOptics(q, input, i)
      && a in SeriesOf(input, i, p.config.optical, now) && b in SeriesOf(input, i, q.config.optical, now)
      && a.metricKey == b.metricKey ==>
        LatestAreCompatible(LatestOf(a, p.config.optical), LatestOf(b, q.config.optical))
  }

  ghost predicate LatestAreCompatible(a: Option<OL.Criteria>, b: Option<OL.Criteria>) {
    a.Some? && b.Some? && OL.Recovered(a.value) ==> Compatible(a.value, b.value)
  }

  /** On the same points, what one rule calls recovered a compatible rule does not open. */
  lemma CompatibleRulesDoNotClash(a: OS.Series, p: OpticalConfig, b: OS.Series, q: OpticalConfig)
    requires a.points == b.points && LatestAreCompatible(LatestOf(a, p), LatestOf(b, q))
    requires OL.SustainedRecovery(Recoveries(AllCriteria(a, p)), p.recoverySamples)
    requires HasLatest(AllCriteria(b, q))
    ensures OL.Target(Ladders(AllCriteria(b, q)), q.samples).None?
  {
    var as', bs := AllCriteria(a, p), AllCriteria(b, q);
    OL.RecoveryIsShownByTheLatest(Recoveries(as'), p.recoverySamples);
    RecoveredElsewhere(as'[|as'| - 1].value, bs[|bs| - 1].value);
    OL.TargetIsShownByTheLatest(Ladders(bs), q.samples);
  }

  lemma OpticalChecksDoNotClash(input: OpticalInput, now: int)
    requires DistinctOpticalInput(input) && CompatibleOptics(input, now)
    ensures NoClash(OpticalChecks(input, now))
  {
    forall c, d | c in OpticalChecks(input, now) && d in OpticalChecks(input, now) ensures !Clash(c, d) {
      var i, p, a := OpticalCheckHasOrigin(input, c, now);
      var j, q, b := OpticalCheckHasOrigin(input, d, now);
      if Clash(c, d) {
        SameInterface(input.interfaces, i, j);
        TwoRulesOneSeries(input, i, p, a, q, b, now);
      }
    }
  }

  lemma TwoRulesOneSeries(input: OpticalInput, i: Interface, p: Rule, a: OS.Series, q: Rule, b: OS.Series, now: int)
    requires DistinctOpticalInput(input) && CompatibleOptics(input, now)
    requires i in input.interfaces && p in input.rules && q in input.rules && WatchesOptics(p, input, i)
             && WatchesOptics(q, input, i)
    requires a in SeriesOf(input, i, p.config.optical, now) && b in SeriesOf(input, i, q.config.optical, now)
             && a.metricKey == b.metricKey
    ensures var c := OpticalCheck(input.deviceId, i, p, a.metricKey, AllCriteria(a, p.config.optical));
            var d := OpticalCheck(input.deviceId, i, q, b.metricKey, AllCriteria(b, q.config.optical));
            !(c.recovered && d.opens.Some?)
  {
    OS.RulesShareThePoints(i.port, Select(input.samples, SampleOf(), i.id), RecordOf(input, i),
                           p.config.optical.manual, q.config.optical.manual, now, input.aggregated, a, b);
    assert LatestAreCompatible(LatestOf(a, p.config.optical), LatestOf(b, q.config.optical));
    if OL.SustainedRecovery(Recoveries(AllCriteria(a, p.config.optical)), p.config.optical.recoverySamples)
       && HasLatest(AllCriteria(b, q.config.optical)) {
      CompatibleRulesDoNotClash(a, p.config.optical, b, q.config.optical);
    }
  }

  lemma OpticalPassIsIdempotent(s: Store, input: OpticalInput, now: int, deviceOf: string -> string)
    requires Safe(s, now, deviceOf) && OpticalInputOk(input, deviceOf)
    requires DistinctOpticalInput(input) && CompatibleOptics(input, now)
    ensures OpticalPass(OpticalPass(s, input, now), input, now) == OpticalPass(s, input, now)
  {
    OpticalChecksAreDistinct(input, now, deviceOf);
    OpticalChecksDoNotClash(input, now);
    PassIsIdempotent(s, input.deviceId, OpticalChecks(input, now), now, deviceOf);
  }

  /** What an optical pass does to each series of each rule, escalation included, whatever other rules watch it. */
  lemma OpticalPassOutcome(s: Store, input: OpticalInput, k: nat, now: int, deviceOf: string -> string)
    requires Safe(s, now, deviceOf) && OpticalInputOk(input, deviceOf) && DistinctOpticalInput(input)
    requires k < |OpticalChecks(input, now)|
    ensures SharedOutcome(s, OpticalPass(s, input, now), OpticalChecks(input, now), k, now)
  {
    OpticalChecksAreDistinct(input, now, deviceOf);
    PassOutcome(s, input.deviceId, OpticalChecks(input, now), k, now, deviceOf);
  }

  /** An optical alarm suppressed when a pass begins is not open when it ends, even if the pass released it. */
  lemma OpticalSuppressedIsNotOpened(s: Store, input: OpticalInput, c: Check, now: int, deviceOf: string -> string)
    requires Safe(s, now, deviceOf) && OpticalInputOk(input, deviceOf) && DistinctOpticalInput(input)
    requires c in OpticalChecks(input, now) && HasActive(s, CheckKey(c), now)
    ensures !HasOpen(OpticalPass(s, input, now), CheckKey(c))
  {
    OpticalChecksAreDistinct(input, now, deviceOf);
    SuppressedIsNotOpened(s, input.deviceId, OpticalChecks(input, now), c, now, deviceOf);
  }

  // ----- quiet recovery

  /** The latest sample of the series is judged by coherent thresholds and no drop. */
  ghost predicate QuietAtLatest(series: OS.Series, config: OpticalConfig) {
    LatestOf(series, config).Some? ==>
      OL.Coherent(LatestOf(series, config).value) && !Dropping(LatestOf(series, config).value)
  }

  ghost predicate IsQuietRecovery(c: Check, input: OpticalInput, i: Interface, rule: Rule, series: OS.Series,
                                  now: int) {
    IsOpticalCheck(c, input, i, rule, series, now) && c.recovered && QuietAtLatest(series, rule.config.optical)
  }

  lemma QuietRecoveryOpensNothing(c: Check, input: OpticalInput, i: Interface, rule: Rule, series: OS.Series, now: int)
    requires IsQuietRecovery(c, input, i, rule, series, now)
    ensures c.opens.None?
  {
    var criteria := AllCriteria(series, rule.config.optical);
    if HasLatest(criteria) {
      OnlyADropReopens(input.deviceId, i, rule, series.metricKey, criteria);
    }
  }

  lemma OpticalCheckIsMade(c: Check, input: OpticalInput, i: Interface, rule: Rule, series: OS.Series, now: int)
    requires IsOpticalCheck(c, input, i, rule, series, now)
    ensures c in OpticalChecks(input, now)
  {
    var all := SeriesOf(input, i, rule.config.optical, now);
    assert c in SeriesCheck(input.deviceId, i, rule)(series);
    FlatMapMembers(all, SeriesCheck(input.deviceId, i, rule), c);
    assert c in OpticalRuleChecks(input, i, now)(rule);
    FlatMapMembers(input.rules, OpticalRuleChecks(input, i, now), c);
    assert c in OpticalInterfaceChecks(input, now)(i);
    FlatMapMembers(input.interfaces, OpticalInterfaceChecks(input, now), c);
  }

  /**
   * A pass in which a series has recovered quietly leaves it closed, whatever happens on
   * the other series of the device and whatever other rules say about this one.
   */
  lemma QuietRecoveryIsClosed(s: Store, input: OpticalInput, c: Check, i: Interface, rule: Rule, series: OS.Series,
                              now: int, deviceOf: string -> string)
    requires Safe(s, now, deviceOf) && OpticalInputOk(input, deviceOf) && DistinctOpticalInput(input)
    requires IsQuietRecovery(c, input, i, rule, series, now)
    ensures Outcome(s, OpticalPass(s, input, now), c, now) && !HasOpen(OpticalPass(s, input, now), CheckKey(c))
  {
    QuietRecoveryOpensNothing(c, input, i, rule, series, now);
    OpticalCheckIsMade(c, input, i, rule, series, now);
    OpticalChecksAreDistinct(input, now, deviceOf);
    RecoveredIsClosed(s, input.deviceId, OpticalChecks(input, now), c, now, deviceOf);
  }

  // ----- the explanation of what a series is in alarm for

  /** The Low Alarm, where there is one, is not above the Low Warning. */
  ghost predicate LowsInOrder(c: OL.Criteria) {
    c.lowAlarm.Some? && c.lowWarning.Some? ==> c.lowAlarm.value <= c.lowWarning.value
  }

  /**
   * Whatever severity a series sustains, the reason published with it is one its latest
   * sample meets, unless that is explained by the wrong window, which cannot be when the
   * limits are in order.
   */
  lemma SustainedSeverityIsExplained(series: OS.Series, config: OpticalConfig)
    requires config.warningProximity <= config.majorProximity
    requires OL.Target(Ladders(AllCriteria(series, config)), config.samples).Some?
    ensures LatestOf(series, config).Some?
    ensures var target, latest :=
              OL.Target(Ladders(AllCriteria(series, config)), config.samples).value, LatestOf(series, config).value;
            && (OL.Truthful(latest, OL.Explain(latest, target)) <==> !OL.ExplainedByTheWrongWindow(latest, target))
            && (LowsInOrder(latest) && config.majorProximity <= 100.0 && config.warningMargin >= 0.0 ==>
                  OL.Truthful(latest, OL.Explain(latest, target)))
  {
    var criteria := AllCriteria(series, config);
    var target := OL.Target(Ladders(criteria), config.samples).value;
    OL.TargetIsShownByTheLatest(Ladders(criteria), config.samples);
    assert HasLatest(criteria);
    var latest := criteria[|criteria| - 1].value;
    OL.ExplanationIsTrueExactly(latest, target);
    if LowsInOrder(latest) && config.majorProximity <= 100.0 && config.warningMargin >= 0.0 {
      OL.ExplanationIsTrue(latest, target);
    }
  }
}
