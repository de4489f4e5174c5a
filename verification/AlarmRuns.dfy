/** Whole runs: passes, batches, operator actions and restarts, in any order, under a clock that never goes back. */
module AlarmRuns {
  import opened Options
  import opened Fingerprint
  import opened AlarmStore
  import opened AlarmChecks
  import opened AlarmPassLaws
  import opened AlarmEngine
  import opened AlarmEngineLaws
  import OS = OpticalSeries
  import opened AlarmSuppression
  import opened InterfaceAlarms

  datatype Action =
    | Metrics(metrics: MetricInput)
    | Optics(optics: OpticalInput)
    | Batch(transitions: seq<Transition>, linked: set<string>)
    | Suppressing(request: Request)
    | Releasing(suppressionId: nat)
    | Acknowledging(alarmId: nat)
    | Expiring
    | Disabling(ruleId: string, deleted: bool)
    | Restarting

  datatype Event = Event(action: Action, now: int)

  datatype World = World(store: Store, lastSweep: int, clock: int)

  /** A disabled or deleted rule ends the alarms it opened. */
  function AfterDisabling(s: Store, ruleId: string, deleted: bool, now: int): Store {
    EndSelected(s, OfRule(ruleId), now, Some(if deleted then RULE_DELETED else RULE_DISABLED))
  }

  /** The open alarms that name the rule end now and say why; no other row changes. */
  lemma DisablingIsExact(s: Store, ruleId: string, deleted: bool, now: int, id: nat)
    requires id < |s.alarms|
    ensures var t, a := AfterDisabling(s, ruleId, deleted, now), s.alarms[id];
            && |t.alarms| == |s.alarms| && t.suppressions == s.suppressions
            && t.alarms[id] ==
               if a.endedAt.None? && a.ruleId == Some(ruleId) && a.kind != INTERFACE_DOWN then
                 a.(endedAt := Some(now), resolution := Some(if deleted then RULE_DELETED else RULE_DISABLED))
               else a
  {
  }

  ghost function Act(w: World, e: Event): World {
    var s := w.store;
    match e.action
    case Metrics(input) => var (t, sweep) := MetricPass(s, w.lastSweep, input, e.now); World(t, sweep, e.now)
    case Optics(input) => World(OpticalPass(s, input, e.now), w.lastSweep, e.now)
    case Batch(ts, linked) => World(AfterTransitions(s, ts, linked, e.now), w.lastSweep, e.now)
    case Suppressing(request) => World(Suppress(s, request, e.now).0, w.lastSweep, e.now)
    case Releasing(id) => World(Release(s, id, e.now).0, w.lastSweep, e.now)
    case Acknowledging(id) => World(Recognize(s, id, e.now).0, w.lastSweep, e.now)
    case Expiring => World(ExpireDue(s, e.now), w.lastSweep, e.now)
    case Disabling(ruleId, deleted) => World(AfterDisabling(s, ruleId, deleted, e.now), w.lastSweep, e.now)
    case Restarting => World(s, 0, e.now)
  }

  ghost function After(w: World, events: seq<Event>): World {
    if events == [] then w else Act(After(w, events[..|events| - 1]), events[|events| - 1])
  }

  /** Ids without separators, interfaces of the device they are passed with. */
  ghost predicate ActionOk(action: Action, deviceOf: string -> string) {
    match action
    case Metrics(input) => MetricInputOk(input, deviceOf)
    case Optics(input) => OpticalInputOk(input, deviceOf)
    case Batch(ts, linked) => TransitionsOk(ts, deviceOf)
    case _ => true
  }

  ghost predicate RunOk(w: World, events: seq<Event>, deviceOf: string -> string) {
    && (forall e :: e in events ==> ActionOk(e.action, deviceOf))
    && (forall k :: 0 <= k < |events| ==> TimeBefore(w, events, k) <= events[k].now)
  }

  ghost function TimeBefore(w: World, events: seq<Event>, k: nat): int
    requires k <= |events|
  {
    if k == 0 then w.clock else events[k - 1].now
  }

  lemma ActIsSafe(w: World, e: Event, deviceOf: string -> string)
    requires Safe(w.store, w.clock, deviceOf) && ActionOk(e.action, deviceOf) && w.clock <= e.now
    ensures Safe(Act(w, e).store, e.now, deviceOf) && Extends(w.store, Act(w, e).store)
  {
    TimePasses(w.store, w.clock, e.now, deviceOf);
    match e.action
    case Metrics(input) => MetricPassIsSafe(w.store, w.lastSweep, input, e.now, deviceOf);
    case Optics(input) => OpticalPassIsSafe(w.store, input, e.now, deviceOf);
    case Batch(ts, linked) => TransitionsAreSafe(w.store, ts, linked, e.now, deviceOf);
    case Suppressing(request) => SuppressIsSafe(w.store, request, e.now, deviceOf);
    case Releasing(id) => ReleaseIsSafe(w.store, id, e.now, deviceOf);
    case Acknowledging(id) => RecognizeIsSafe(w.store, id, e.now, deviceOf);
    case Expiring => ExpiringIsSafe(w.store, e.now, deviceOf);
    case Disabling(ruleId, deleted) =>
      var why := Some(if deleted then RULE_DELETED else RULE_DISABLED);
      EndingIsSafe(w.store, OfRule(ruleId), e.now, why, e.now, deviceOf);
      EndingExtends(w.store, OfRule(ruleId), e.now, why);
    case Restarting =>
  }

  lemma RunOkPrefix(w: World, events: seq<Event>, deviceOf: string -> string)
    requires RunOk(w, events, deviceOf) && events != []
    ensures RunOk(w, events[..|events| - 1], deviceOf)
    ensures ActionOk(events[|events| - 1].action, deviceOf)
    ensures TimeBefore(w, events, |events| - 1) <= events[|events| - 1].now
  {
    var before := events[..|events| - 1];
    forall k | 0 <= k < |before| ensures TimeBefore(w, before, k) <= before[k].now {
      assert TimeBefore(w, before, k) == TimeBefore(w, events, k) && before[k] == events[k];
    }
  }

  lemma {:induction false} ClockFollows(w: World, events: seq<Event>)
    ensures After(w, events).clock == TimeBefore(w, events, |events|)
  {
  }

  /**
   * In every reachable state no fingerprint has both an open alarm and an active
   * suppression, none has two open alarms or two active suppressions; and along
   * every run rows are only added, an alarm's severity never falls, and what has
   * ended stays as it ended.
   */
  lemma {:induction false} EveryRunIsSafe(w: World, events: seq<Event>, deviceOf: string -> string)
    requires Safe(w.store, w.clock, deviceOf) && RunOk(w, events, deviceOf)
    ensures Safe(After(w, events).store, After(w, events).clock, deviceOf)
    ensures Extends(w.store, After(w, events).store)
  {
    if events == [] {
    } else {
      var before := events[..|events| - 1];
      RunOkPrefix(w, events, deviceOf);
      EveryRunIsSafe(w, before, deviceOf);
      ClockFollows(w, before);
      OneMoreAct(w, After(w, before), events[|events| - 1], deviceOf);
    }
  }

  lemma OneMoreAct(w: World, v: World, e: Event, deviceOf: string -> string)
    requires Safe(v.store, v.clock, deviceOf) && Extends(w.store, v.store)
    requires ActionOk(e.action, deviceOf) && v.clock <= e.now
    ensures Safe(Act(v, e).store, Act(v, e).clock, deviceOf) && Extends(w.store, Act(v, e).store)
  {
    ActIsSafe(v, e, deviceOf);
    ExtendsIsTransitive(w.store, v.store, Act(v, e).store);
  }

  /** Nothing has happened yet. */
  function Beginning(clock: int): World {
    World(Store([], []), 0, clock)
  }

  /**
   * So in every state reachable from the empty store no fingerprint is open and suppressed
   * at once, and two open alarms, or two active suppressions, never share one.
   */
  lemma EveryReachableStateIsSafe(clock: int, events: seq<Event>, deviceOf: string -> string)
    requires RunOk(Beginning(clock), events, deviceOf)
    ensures var w := After(Beginning(clock), events);
            && (forall key :: !(HasOpen(w.store, key) && HasActive(w.store, key, w.clock)))
            && (forall key, i: nat, j: nat :: IsOpenRow(w.store, i, key) && IsOpenRow(w.store, j, key) ==> i == j)
            && (forall key, i: nat, j: nat ::
                  IsActiveRow(w.store, i, key, w.clock) && IsActiveRow(w.store, j, key, w.clock) ==> i == j)
  {
    EveryRunIsSafe(Beginning(clock), events, deviceOf);
  }

  // ----- a timed suppression holds until its end

  ghost predicate HeldUntil(s: Store, id: nat, end: int) {
    && id < |s.suppressions| && s.suppressions[id].clearedAt.None?
    && s.suppressions[id].mode == UNTIL_TIME && s.suppressions[id].expiresAt == Some(end)
  }

  lemma StepHolds(p: Pass, c: Check, now: int, id: nat, end: int)
    requires HeldUntil(p.store, id, end)
    ensures HeldUntil(Step(p, c, now).store, id, end)
    ensures Step(p, c, now).store.suppressions[id].fingerprint == p.store.suppressions[id].fingerprint
  {
  }

  lemma {:induction false} RunHolds(p: Pass, checks: seq<Check>, now: int, id: nat, end: int)
    requires HeldUntil(p.store, id, end)
    ensures HeldUntil(Run(p, checks, now).store, id, end)
  {
    if checks == [] {
    } else {
      RunHolds(p, checks[..|checks| - 1], now, id, end);
      StepHolds(Run(p, checks[..|checks| - 1], now), checks[|checks| - 1], now, id, end);
    }
  }

  lemma {:induction false} OpenAllKeepsSuppressions(s: Store, ts: seq<Transition>, now: int)
    ensures OpenAll(s, ts, now).suppressions == s.suppressions
  {
    if ts == [] {
    } else {
      OpenAllKeepsSuppressions(s, ts[..|ts| - 1], now);
    }
  }

  lemma ActHolds(w: World, e: Event, id: nat, end: int)
    requires HeldUntil(w.store, id, end) && e.now < end && e.action != Releasing(id)
    ensures HeldUntil(Act(w, e).store, id, end)
  {
    match e.action
    case Metrics(input) =>
      var swept := Housekeep(w.store, w.lastSweep, e.now).0;
      RunHolds(Start(swept, input.deviceId, e.now), MetricChecks(input), e.now, id, end);
    case Optics(input) => RunHolds(Start(w.store, input.deviceId, e.now), OpticalChecks(input, e.now), e.now, id, end);
    case Batch(ts, linked) => OpenAllKeepsSuppressions(w.store, Relevant(w.store, ts, linked, e.now), e.now);
    case _ =>
  }

  lemma {:induction false} RunKeepsHolding(w: World, events: seq<Event>, id: nat, end: int)
    requires HeldUntil(w.store, id, end)
    requires forall e :: e in events ==> e.now < end && e.action != Releasing(id)
    ensures HeldUntil(After(w, events).store, id, end)
  {
    if events == [] {
    } else {
      RunKeepsHolding(w, events[..|events| - 1], id, end);
      ActHolds(After(w, events[..|events| - 1]), events[|events| - 1], id, end);
    }
  }

  /**
   * Whatever happens after a suppression until a time was granted, its alarm is not
   * open at any moment before that time, unless the operator released it: recovery
   * of the condition does not lift it.
   */
  lemma TimedSuppressionHolds(w: World, events: seq<Event>, id: nat, end: int, deviceOf: string -> string)
    requires Safe(w.store, w.clock, deviceOf) && RunOk(w, events, deviceOf)
    requires HeldUntil(w.store, id, end) && w.clock < end
    requires forall e :: e in events ==> e.now < end && e.action != Releasing(id)
    ensures var v, key := After(w, events), w.store.suppressions[id].fingerprint;
            IsActiveRow(v.store, id, key, v.clock) && !HasOpen(v.store, key)
  {
    EveryRunIsSafe(w, events, deviceOf);
    RunKeepsHolding(w, events, id, end);
    ClockFollows(w, events);
    var v := After(w, events);
    assert events != [] ==> events[|events| - 1] in events;
    assert SameSuppressionLater(w.store.suppressions[id], v.store.suppressions[id]);
    assert IsActiveRow(v.store, id, w.store.suppressions[id].fingerprint, v.clock);
    OpenIsNotActive(v.store, w.store.suppressions[id].fingerprint, v.clock);
  }

  // ----- what has ended does not open again unless it triggers

  /** No evaluation of this fingerprint triggers. */
  ghost predicate Silent(e: Event, key: string) {
    match e.action
    case Metrics(input) => forall c :: c in MetricChecks(input) && CheckKey(c) == key ==> c.opens.None?
    case Optics(input) => forall c :: c in OpticalChecks(input, e.now) && CheckKey(c) == key ==> c.opens.None?
    case _ => true
  }

  lemma StepKeepsShut(p: Pass, c: Check, key: string, now: int)
    requires !HasOpen(p.store, key) && (CheckKey(c) == key ==> c.opens.None?)
    ensures !HasOpen(Step(p, c, now).store, key)
  {
    forall id: nat ensures !IsOpenRow(Step(p, c, now).store, id, key) {
      assert !IsOpenRow(p.store, id, key);
    }
  }

  lemma {:induction false} RunKeepsShut(p: Pass, checks: seq<Check>, key: string, now: int)
    requires !HasOpen(p.store, key) && forall c :: c in checks && CheckKey(c) == key ==> c.opens.None?
    ensures !HasOpen(Run(p, checks, now).store, key)
  {
    if checks == [] {
    } else {
      var before, c := checks[..|checks| - 1], checks[|checks| - 1];
      assert c in checks;
      RunKeepsShut(p, before, key, now);
      StepKeepsShut(Run(p, before, now), c, key, now);
    }
  }

  /** Link alarms never have the fingerprint of a rule's alarm. */
  lemma DropIsNoRuleAlarm(a: Alarm, ts: seq<Transition>, c: Check, now: int, deviceOf: string -> string)
    requires CheckOk(c, c.deviceId, deviceOf) && TransitionsOk(ts, deviceOf) && IsDropOf(a, ts, now)
    ensures KeyOf(a) != CheckKey(c)
  {
    IsExact(a.interfaceId, INTERFACE_DOWN, None, None, c.interfaceId, c.kind, Some(c.ruleId), Some(c.metricKey));
  }

  lemma OpeningKeepsShut(s: Store, drops: seq<Transition>, c: Check, now: int, deviceOf: string -> string)
    requires CheckOk(c, c.deviceId, deviceOf) && TransitionsOk(drops, deviceOf) && !HasOpen(s, CheckKey(c))
    ensures !HasOpen(OpenAll(s, drops, now), CheckKey(c))
  {
    var dropped := OpenAll(s, drops, now);
    OpenAllAdds(s, drops, now);
    forall id: nat ensures !IsOpenRow(dropped, id, CheckKey(c)) {
      assert !IsOpenRow(s, id, CheckKey(c));
      if |s.alarms| <= id < |dropped.alarms| {
        DropIsNoRuleAlarm(dropped.alarms[id], drops, c, now, deviceOf);
      }
    }
  }

  lemma BatchKeepsShut(s: Store, ts: seq<Transition>, linked: set<string>, c: Check, now: int,
                       deviceOf: string -> string)
    requires CheckOk(c, c.deviceId, deviceOf) && TransitionsOk(ts, deviceOf) && RowsOk(s, deviceOf)
    requires !HasOpen(s, CheckKey(c))
    ensures !HasOpen(AfterTransitions(s, ts, linked, now), CheckKey(c))
  {
    var drops := Relevant(s, ts, linked, now);
    forall t | t in drops ensures t in ts {
      RelevantIsExact(s, ts, linked, t, now, deviceOf);
    }
    OpeningKeepsShut(s, drops, c, now, deviceOf);
    var dropped, after := OpenAll(s, drops, now), AfterTransitions(s, ts, linked, now);
    forall id: nat ensures !IsOpenRow(after, id, CheckKey(c)) {
      assert !IsOpenRow(dropped, id, CheckKey(c));
    }
  }

  lemma ActKeepsShut(w: World, e: Event, c: Check, deviceOf: string -> string)
    requires Safe(w.store, w.clock, deviceOf) && ActionOk(e.action, deviceOf) && CheckOk(c, c.deviceId, deviceOf)
    requires Silent(e, CheckKey(c)) && !HasOpen(w.store, CheckKey(c))
    ensures !HasOpen(Act(w, e).store, CheckKey(c))
  {
    var key := CheckKey(c);
    match e.action
    case Metrics(input) =>
      var swept := Housekeep(w.store, w.lastSweep, e.now).0;
      SweepIsInvisible(w.store, w.lastSweep, key, e.now);
      RunKeepsShut(Start(swept, input.deviceId, e.now), MetricChecks(input), key, e.now);
    case Optics(input) =>
      RunKeepsShut(Start(w.store, input.deviceId, e.now), OpticalChecks(input, e.now), key, e.now);
    case Batch(ts, linked) => BatchKeepsShut(w.store, ts, linked, c, e.now, deviceOf);
    case _ => OperatorsKeepShut(w, e, key);
  }

  /** No operator and no sweep opens an alarm. */
  lemma OperatorsKeepShut(w: World, e: Event, key: string)
    requires !e.action.Metrics? && !e.action.Optics? && !e.action.Batch? && !HasOpen(w.store, key)
    ensures !HasOpen(Act(w, e).store, key)
  {
    forall id: nat ensures !IsOpenRow(Act(w, e).store, id, key) {
      assert !IsOpenRow(w.store, id, key);
    }
  }

  /** An alarm that is not open stays so over every run in which no evaluation of it triggers. */
  lemma {:induction false} ClosedStaysClosed(w: World, events: seq<Event>, c: Check, deviceOf: string -> string)
    requires Safe(w.store, w.clock, deviceOf) && RunOk(w, events, deviceOf) && CheckOk(c, c.deviceId, deviceOf)
    requires !HasOpen(w.store, CheckKey(c)) && forall e :: e in events ==> Silent(e, CheckKey(c))
    ensures !HasOpen(After(w, events).store, CheckKey(c))
  {
    if events == [] {
    } else {
      var before, e := events[..|events| - 1], events[|events| - 1];
      assert e in events;
      RunOkPrefix(w, events, deviceOf);
      ClosedStaysClosed(w, before, c, deviceOf);
      EveryRunIsSafe(w, before, deviceOf);
      ActKeepsShut(After(w, before), e, c, deviceOf);
    }
  }

  /** Wherever a pass looks at this fingerprint it finds the series recovered and quiet. */
  ghost predicate QuietFor(e: Event, key: string) {
    e.action.Optics? ==>
      forall c, i, rule, series :: IsOpticalCheck(c, e.action.optics, i, rule, series, e.now) && CheckKey(c) == key ==>
        IsQuietRecovery(c, e.action.optics, i, rule, series, e.now)
  }

  lemma QuietIsSilent(e: Event, c: Check, deviceOf: string -> string)
    requires ActionOk(e.action, deviceOf) && CheckOk(c, c.deviceId, deviceOf) && c.kind == OPTICAL_RX_DEGRADATION
    requires QuietFor(e, CheckKey(c))
    ensures Silent(e, CheckKey(c))
  {
    match e.action
    case Metrics(input) =>
      forall d | d in MetricChecks(input) ensures CheckKey(d) != CheckKey(c) {
        var i, rule, toggle := MetricCheckHasOrigin(input, d);
        MetricChecksAreOk(input, deviceOf);
        IsExact(d.interfaceId, d.kind, Some(d.ruleId), Some(d.metricKey),
                c.interfaceId, c.kind, Some(c.ruleId), Some(c.metricKey));
      }
    case Optics(input) =>
      forall d | d in OpticalChecks(input, e.now) && CheckKey(d) == CheckKey(c) ensures d.opens.None? {
        var i, rule, series := OpticalCheckHasOrigin(input, d, e.now);
        QuietRecoveryOpensNothing(d, input, i, rule, series, e.now);
      }
    case _ =>
  }

  /**
   * Quiet samples that resolve an optical alarm do not open it again: it is closed by the
   * pass that finds its series recovered and quiet, and stays closed over every run, new
   * samples, operators and restarts included, whose passes find it so.
   */
  lemma QuietRecoveryStaysResolved(w: World, now: int, input: OpticalInput, c: Check, i: Interface, rule: Rule,
                                   series: OS.Series, events: seq<Event>, deviceOf: string -> string)
    requires Safe(w.store, w.clock, deviceOf) && w.clock <= now
    requires OpticalInputOk(input, deviceOf) && DistinctOpticalInput(input)
    requires IsQuietRecovery(c, input, i, rule, series, now)
    requires RunOk(Act(w, Event(Optics(input), now)), events, deviceOf)
    requires forall e :: e in events ==> QuietFor(e, CheckKey(c))
    ensures !HasOpen(After(Act(w, Event(Optics(input), now)), events).store, CheckKey(c))
  {
    var v := Act(w, Event(Optics(input), now));
    TimePasses(w.store, w.clock, now, deviceOf);
    ActIsSafe(w, Event(Optics(input), now), deviceOf);
    QuietRecoveryIsClosed(w.store, input, c, i, rule, series, now, deviceOf);
    forall e | e in events ensures Silent(e, CheckKey(c)) {
      QuietIsSilent(e, c, deviceOf);
    }
    ClosedStaysClosed(v, events, c, deviceOf);
  }
}
