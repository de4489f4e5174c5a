/** What a pass does to the persisted rows, said of their columns. */
module AlarmRows {
  import opened Options
  import opened Fingerprint
  import opened AlarmStore
  import opened AlarmChecks
  import opened AlarmPassLaws
  import opened AlarmPassOutcome

  /** Which alarm of which rule a row is about. */
  datatype Series = Series(interfaceId: string, kind: AlarmType, ruleId: string, metricKey: string)

  /** An alarm row of the series that has not ended. */
  ghost predicate OpenRow(s: Store, id: nat, x: Series) {
    && id < |s.alarms| && s.alarms[id].endedAt.None?
    && s.alarms[id].interfaceId == x.interfaceId && s.alarms[id].kind == x.kind
    && s.alarms[id].ruleId == Some(x.ruleId) && s.alarms[id].metricKey == Some(x.metricKey)
  }

  ghost predicate InAlarm(s: Store, x: Series) {
    exists id: nat :: OpenRow(s, id, x)
  }

  /** A suppression row of the series that is neither cleared nor past its end. */
  ghost predicate HeldRow(s: Store, id: nat, x: Series, now: int) {
    && id < |s.suppressions| && s.suppressions[id].clearedAt.None?
    && (s.suppressions[id].expiresAt.Some? ==> s.suppressions[id].expiresAt.value > now)
    && s.suppressions[id].interfaceId == x.interfaceId && s.suppressions[id].kind == x.kind
    && s.suppressions[id].ruleId == Some(x.ruleId) && s.suppressions[id].metricKey == Some(x.metricKey)
  }

  ghost predicate Held(s: Store, x: Series, now: int) {
    exists id: nat :: HeldRow(s, id, x, now)
  }

  function SeriesFor(c: Check): Series {
    Series(c.interfaceId, c.kind, c.ruleId, c.metricKey)
  }

  // ----- rows and fingerprints

  lemma OpenRowIsKeyed(s: Store, id: nat, c: Check, deviceId: string, deviceOf: string -> string)
    requires RowsOk(s, deviceOf) && CheckOk(c, deviceId, deviceOf)
    ensures OpenRow(s, id, SeriesFor(c)) <==> IsOpenRow(s, id, CheckKey(c))
  {
    if IsOpenRow(s, id, CheckKey(c)) {
      AlarmIsOfDevice(s, id, c, deviceId, deviceOf);
    }
  }

  lemma HeldRowIsKeyed(s: Store, id: nat, c: Check, now: int, deviceId: string, deviceOf: string -> string)
    requires RowsOk(s, deviceOf) && CheckOk(c, deviceId, deviceOf)
    ensures HeldRow(s, id, SeriesFor(c), now) <==> IsActiveRow(s, id, CheckKey(c), now)
  {
    if id < |s.suppressions| {
      var x := s.suppressions[id];
      assert x in s.suppressions;
      IsExact(x.interfaceId, x.kind, x.ruleId, x.metricKey, c.interfaceId, c.kind, Some(c.ruleId), Some(c.metricKey));
    }
  }

  lemma RowsAreKeyed(s: Store, c: Check, now: int, deviceId: string, deviceOf: string -> string)
    requires RowsOk(s, deviceOf) && CheckOk(c, deviceId, deviceOf)
    ensures InAlarm(s, SeriesFor(c)) <==> HasOpen(s, CheckKey(c))
    ensures Held(s, SeriesFor(c), now) <==> HasActive(s, CheckKey(c), now)
  {
    forall id: nat ensures OpenRow(s, id, SeriesFor(c)) <==> IsOpenRow(s, id, CheckKey(c)) {
      OpenRowIsKeyed(s, id, c, deviceId, deviceOf);
    }
    forall id: nat ensures HeldRow(s, id, SeriesFor(c), now) <==> IsActiveRow(s, id, CheckKey(c), now) {
      HeldRowIsKeyed(s, id, c, now, deviceId, deviceOf);
    }
  }

  // ----- the outcome of a pass for any series at all

  /** A rule on the series' own interface, type and metric that was in alarm and has recovered. */
  ghost predicate Ends(s: Store, d: Check, x: Series) {
    && d.recovered && InAlarm(s, SeriesFor(d))
    && d.interfaceId == x.interfaceId && d.kind == x.kind && d.metricKey == x.metricKey
  }

  ghost predicate EndsAfter(s: Store, checks: seq<Check>, k: int, x: Series) {
    exists j :: k < j < |checks| && 0 <= j && Ends(s, checks[j], x)
  }

  ghost predicate Opens(s: Store, checks: seq<Check>, x: Series, now: int) {
    && !Held(s, x, now)
    && exists k ::
         0 <= k < |checks| && SeriesFor(checks[k]) == x && checks[k].opens.Some? && !EndsAfter(s, checks, k, x)
  }

  /** Whether the series is in alarm in the end. */
  ghost predicate AlarmOutcome(s: Store, t: Store, checks: seq<Check>, x: Series, now: int) {
    InAlarm(t, x) <==> if InAlarm(s, x) then !EndsAfter(s, checks, -1, x) else Opens(s, checks, x, now)
  }

  lemma EndsIsResolves(s: Store, checks: seq<Check>, c: Check, k: nat, now: int, deviceId: string,
                       deviceOf: string -> string)
    requires RowsOk(s, deviceOf) && forall d :: d in checks ==> CheckOk(d, deviceId, deviceOf)
    ensures EndsAfter(s, checks, k - 1, SeriesFor(c)) <==> EndedFrom(s, checks, k, c)
  {
    forall j | 0 <= j < |checks| ensures Ends(s, checks[j], SeriesFor(c)) <==> Resolves(s, checks[j], c) {
      assert checks[j] in checks;
      RowsAreKeyed(s, checks[j], now, deviceId, deviceOf);
    }
  }

  lemma OneCheckPerSeries(checks: seq<Check>, j: nat, k: nat, deviceId: string, deviceOf: string -> string)
    requires ChecksOk(checks, deviceId, deviceOf) && j < |checks| && k < |checks|
    requires SeriesFor(checks[j]) == SeriesFor(checks[k])
    ensures j == k
  {
    assert CheckKey(checks[j]) == CheckKey(checks[k]);
  }

  /** A series the pass evaluates. */
  lemma EvaluatedOutcome(s: Store, deviceId: string, checks: seq<Check>, i: nat, now: int, deviceOf: string -> string)
    requires Safe(s, now, deviceOf) && ChecksOk(checks, deviceId, deviceOf) && i < |checks|
    ensures AlarmOutcome(s, RunPass(s, deviceId, checks, now), checks, SeriesFor(checks[i]), now)
  {
    var c, t := checks[i], RunPass(s, deviceId, checks, now);
    assert c in checks;
    PassOutcome(s, deviceId, checks, i, now, deviceOf);
    PassIsSafe(s, deviceId, checks, now, deviceOf);
    RowsAreKeyed(s, c, now, deviceId, deviceOf);
    RowsAreKeyed(t, c, now, deviceId, deviceOf);
    EndsIsResolves(s, checks, c, 0, now, deviceId, deviceOf);
    EndsIsResolves(s, checks, c, i + 1, now, deviceId, deviceOf);
    forall k | 0 <= k < |checks| && SeriesFor(checks[k]) == SeriesFor(c) ensures k == i {
      OneCheckPerSeries(checks, k, i, deviceId, deviceOf);
    }
  }

  /** A series the pass does not evaluate: it can only be ended with another one. */
  lemma UnevaluatedOutcome(s: Store, deviceId: string, checks: seq<Check>, c: Check, now: int,
                           deviceOf: string -> string)
    requires Safe(s, now, deviceOf) && AreOthers(checks, c, deviceId, deviceOf) && CheckOk(c, deviceId, deviceOf)
    ensures var t := RunPass(s, deviceId, checks, now);
            && (HasOpen(t, CheckKey(c)) <==> HasOpen(s, CheckKey(c)) && !EndedFrom(s, checks, 0, c))
            && Kept(Start(s, deviceId, now), Run(Start(s, deviceId, now), checks, now), CheckKey(c),
                    EndedFrom(s, checks, 0, c), now)
  {
    var start := Start(s, deviceId, now);
    StartIsOk(s, deviceId, now, deviceOf);
    StartPointsRight(s, deviceId, now);
    OthersKeep(start, checks, c, deviceId, now, deviceOf);
    forall j | 0 <= j < |checks| ensures CheckKey(checks[j]) in start.open <==> HasOpen(s, CheckKey(checks[j])) {
      StartKnows(s, checks, j, deviceId, now, deviceOf);
    }
    ResolversMatch(s, start, checks, c);
  }

  /** The series as a check of its own, evaluated or not. */
  function Probe(x: Series, deviceId: string): Check {
    Check(deviceId, x.interfaceId, x.ruleId, x.kind, x.metricKey, false, None, false)
  }

  ghost predicate SeriesOk(x: Series, deviceId: string, deviceOf: string -> string) {
    x.kind != INTERFACE_DOWN && deviceOf(x.interfaceId) == deviceId && SEPARATOR !in x.interfaceId
    && SEPARATOR !in x.ruleId
  }

  /**
   * For every series of the device, evaluated or not: one in alarm ends exactly when some
   * rule on its interface, type and metric that was in alarm has recovered; one that is
   * not is in alarm in the end exactly when it is not suppressed, its rule triggers, and
   * no such rule comes after.
   */
  lemma PassAlarms(s: Store, deviceId: string, checks: seq<Check>, x: Series, now: int, deviceOf: string -> string)
    requires Safe(s, now, deviceOf) && ChecksOk(checks, deviceId, deviceOf) && SeriesOk(x, deviceId, deviceOf)
    ensures AlarmOutcome(s, RunPass(s, deviceId, checks, now), checks, x, now)
  {
    if k :| 0 <= k < |checks| && SeriesFor(checks[k]) == x {
      EvaluatedOutcome(s, deviceId, checks, k, now, deviceOf);
    } else {
      var c := Probe(x, deviceId);
      ProbeIsOther(checks, x, deviceId, deviceOf);
      UnevaluatedOutcome(s, deviceId, checks, c, now, deviceOf);
      PassIsSafe(s, deviceId, checks, now, deviceOf);
      RowsAreKeyed(s, c, now, deviceId, deviceOf);
      RowsAreKeyed(RunPass(s, deviceId, checks, now), c, now, deviceId, deviceOf);
      EndsIsResolves(s, checks, c, 0, now, deviceId, deviceOf);
    }
  }

  lemma ProbeIsOther(checks: seq<Check>, x: Series, deviceId: string, deviceOf: string -> string)
    requires ChecksOk(checks, deviceId, deviceOf) && SeriesOk(x, deviceId, deviceOf)
    requires forall k :: 0 <= k < |checks| ==> SeriesFor(checks[k]) != x
    ensures CheckOk(Probe(x, deviceId), deviceId, deviceOf)
    ensures AreOthers(checks, Probe(x, deviceId), deviceId, deviceOf)
  {
    forall d | d in checks ensures CheckKey(d) != CheckKey(Probe(x, deviceId)) {
      var k :| 0 <= k < |checks| && checks[k] == d;
      IsExact(d.interfaceId, d.kind, Some(d.ruleId), Some(d.metricKey),
              x.interfaceId, x.kind, Some(x.ruleId), Some(x.metricKey));
    }
  }

  // ----- the rows themselves

  /**
   * Where a series stays in alarm its row stays, at most more severe; where it comes
   * into alarm the row is new, of the device and begun now.
   */
  lemma PassOpenRows(s: Store, deviceId: string, checks: seq<Check>, i: nat, id: nat, now: int,
                     deviceOf: string -> string)
    requires Safe(s, now, deviceOf) && ChecksOk(checks, deviceId, deviceOf) && i < |checks|
    requires OpenRow(RunPass(s, deviceId, checks, now), id, SeriesFor(checks[i]))
    ensures var c, t := checks[i], RunPass(s, deviceId, checks, now);
            if InAlarm(s, SeriesFor(c)) then
              OpenRow(s, id, SeriesFor(c))
              && t.alarms[id] == s.alarms[id].(severity := Raised(c, s.alarms[id].severity))
            else
              c.opens.Some?
              && t.alarms[id] == Alarm(deviceId, c.interfaceId, c.kind, c.opens.value, Some(c.ruleId),
                                       Some(c.metricKey),
                                       now, None, None, None)
  {
    var c, t := checks[i], RunPass(s, deviceId, checks, now);
    assert c in checks;
    PassOutcome(s, deviceId, checks, i, now, deviceOf);
    PassIsSafe(s, deviceId, checks, now, deviceOf);
    RowsAreKeyed(s, c, now, deviceId, deviceOf);
    OpenRowIsKeyed(t, id, c, deviceId, deviceOf);
    if IsOpenRow(s, id, CheckKey(c)) {
      OpenRowIsKeyed(s, id, c, deviceId, deviceOf);
    }
  }

  /** A suppression is lifted exactly when it waits for recovery and the series has recovered. */
  lemma PassHeldRows(s: Store, deviceId: string, checks: seq<Check>, i: nat, id: nat, now: int,
                     deviceOf: string -> string)
    requires Safe(s, now, deviceOf) && ChecksOk(checks, deviceId, deviceOf) && i < |checks|
    ensures var c, t, x := checks[i], RunPass(s, deviceId, checks, now), SeriesFor(checks[i]);
            HeldRow(t, id, x, now) <==>
            HeldRow(s, id, x, now) && !(c.recovered && s.suppressions[id].mode == UNTIL_CLEAR)
  {
    var c, t := checks[i], RunPass(s, deviceId, checks, now);
    assert c in checks;
    PassOutcome(s, deviceId, checks, i, now, deviceOf);
    PassIsSafe(s, deviceId, checks, now, deviceOf);
    HeldRowIsKeyed(s, id, c, now, deviceId, deviceOf);
    HeldRowIsKeyed(t, id, c, now, deviceId, deviceOf);
  }

  /** A row there was: untouched, or still open and at most more severe, or ended now. */
  ghost predicate SameRowAfter(a: Alarm, b: Alarm, now: int) {
    b == a || (a.endedAt.None? && (b.endedAt.None? || b.endedAt == Some(now))
               && b == a.(severity := b.severity, endedAt := b.endedAt))
  }

  ghost predicate SameRowsAfter(s: Store, t: Store, now: int) {
    |s.alarms| <= |t.alarms| && forall id :: 0 <= id < |s.alarms| ==> SameRowAfter(s.alarms[id], t.alarms[id], now)
  }

  /** Rows are ended at the time of the pass and otherwise keep what they say. */
  lemma {:induction false} RunEndsNow(p: Pass, checks: seq<Check>, now: int)
    ensures SameRowsAfter(p.store, Run(p, checks, now).store, now)
  {
    if checks == [] {
    } else {
      var q := Run(p, checks[..|checks| - 1], now);
      RunEndsNow(p, checks[..|checks| - 1], now);
      StepEndsNow(q, checks[|checks| - 1], now);
      SameRowsOnwards(p.store, q.store, Run(p, checks, now).store, now);
    }
  }

  lemma StepEndsNow(p: Pass, c: Check, now: int)
    ensures SameRowsAfter(p.store, Step(p, c, now).store, now)
  {
  }

  lemma SameRowsOnwards(s: Store, t: Store, u: Store, now: int)
    requires SameRowsAfter(s, t, now) && SameRowsAfter(t, u, now)
    ensures SameRowsAfter(s, u, now)
  {
    forall id | 0 <= id < |s.alarms| ensures SameRowAfter(s.alarms[id], u.alarms[id], now) {
      assert SameRowAfter(s.alarms[id], t.alarms[id], now) && SameRowAfter(t.alarms[id], u.alarms[id], now);
    }
  }
}
