/**
 * What one evaluated series does to the store during a pass of the engine: the
 * decision shared by the counter and the optical alarms.
 */
module AlarmChecks {
  import opened Options
  import opened Fingerprint
  import opened AlarmStore

  /** An evaluated series: recovered or not, and the severity it would open with. */
  datatype Check = Check(
    deviceId: string, interfaceId: string, ruleId: string, kind: AlarmType, metricKey: string,
    recovered: bool, opens: Option<Severity>, escalates: bool)

  function CheckKey(c: Check): string {
    Of(c.interfaceId, c.kind, Some(c.ruleId), Some(c.metricKey))
  }

  function AlarmFor(c: Check, severity: Severity, now: int): Alarm {
    Alarm(c.deviceId, c.interfaceId, c.kind, severity, Some(c.ruleId), Some(c.metricKey), now, None, None, None)
  }

  /** The store, and the two maps a pass reads once and keeps up to date: fingerprint to row id. */
  datatype Pass = Pass(store: Store, open: map<string, nat>, suppressed: map<string, nat>)

  /** Open metric alarms of a device by fingerprint. */
  function OpenIndex(alarms: seq<Alarm>, deviceId: string): map<string, nat> {
    if alarms == [] then map[]
    else
      var last := |alarms| - 1;
      var earlier, a := OpenIndex(alarms[..last], deviceId), alarms[last];
      if a.deviceId == deviceId && Open(a) && a.kind != INTERFACE_DOWN then earlier[KeyOf(a) := last] else earlier
  }

  /** Active suppressions of a device by fingerprint. */
  function SuppressedIndex(suppressions: seq<Suppression>, deviceId: string, now: int): map<string, nat> {
    if suppressions == [] then map[]
    else
      var last := |suppressions| - 1;
      var earlier, x := SuppressedIndex(suppressions[..last], deviceId, now), suppressions[last];
      if x.deviceId == deviceId && ActiveAt(x, now) then earlier[x.fingerprint := last] else earlier
  }

  function Start(s: Store, deviceId: string, now: int): Pass {
    Pass(s, OpenIndex(s.alarms, deviceId), SuppressedIndex(s.suppressions, deviceId, now))
  }

  function ModeOf(s: Store, id: nat): Option<Mode> {
    if id < |s.suppressions| then Some(s.suppressions[id].mode) else None
  }

  function Step(p: Pass, c: Check, now: int): Pass {
    var key := CheckKey(c);
    if key in p.open then
      var id := p.open[key];
      if c.recovered then Resolve(p, c, now)
      else if c.escalates && c.opens.Some? && id < |p.store.alarms|
              && SeverityRank(c.opens.value) > SeverityRank(p.store.alarms[id].severity) then
        p.(store := Escalate(p.store, id, c.opens.value).0)
      else p
    else if key in p.suppressed then
      if c.recovered && ModeOf(p.store, p.suppressed[key]) == Some(UNTIL_CLEAR) then
        p.(store := Clear(p.store, p.suppressed[key], now, RECOVERED).0, suppressed := p.suppressed - {key})
      else p
    else if c.opens.Some? then
      var (store, id) := OpenAlarm(p.store, AlarmFor(c, c.opens.value, now));
      if id.Some? then p.(store := store, open := p.open[key := id.value]) else p
    else p
  }

  /** Resolution names interface, type and metric, not the rule. */
  function Resolve(p: Pass, c: Check, now: int): Pass {
    var sel := OfMetric(c.interfaceId, c.kind, c.metricKey);
    if SomeSelected(p.store, sel) then
      p.(store := EndSelected(p.store, sel, now, None), open := p.open - {CheckKey(c)})
    else p
  }

  function Run(p: Pass, checks: seq<Check>, now: int): Pass {
    if checks == [] then p else Step(Run(p, checks[..|checks| - 1], now), checks[|checks| - 1], now)
  }

  function RunPass(s: Store, deviceId: string, checks: seq<Check>, now: int): Store {
    Run(Start(s, deviceId, now), checks, now).store
  }

  lemma {:induction false} RunConcat(p: Pass, a: seq<Check>, b: seq<Check>, now: int)
    ensures Run(p, a + b, now) == Run(Run(p, a, now), b, now)
  {
    if b == [] {
      assert a + b == a;
    } else {
      var last := |b| - 1;
      assert (a + b)[..|a + b| - 1] == a + b[..last];
      RunConcat(p, a, b[..last], now);
    }
  }

  // ----- safety of a pass

  ghost predicate CheckOk(c: Check, deviceId: string, deviceOf: string -> string) {
    && c.kind != INTERFACE_DOWN && c.deviceId == deviceId == deviceOf(c.interfaceId)
    && SEPARATOR !in c.interfaceId && SEPARATOR !in c.ruleId
  }

  /** Every active suppression of the device is in the pass's map. */
  ghost predicate KnowsSuppressions(p: Pass, deviceId: string, now: int) {
    forall j :: 0 <= j < |p.store.suppressions| ==>
      var x := p.store.suppressions[j];
      (x.deviceId == deviceId && ActiveAt(x, now) ==> x.fingerprint in p.suppressed && p.suppressed[x.fingerprint] == j)
  }

  ghost predicate PassOk(p: Pass, deviceId: string, now: int, deviceOf: string -> string) {
    Safe(p.store, now, deviceOf) && KnowsSuppressions(p, deviceId, now)
  }

  lemma {:induction false} IndexKnows(s: Store, n: nat, deviceId: string, now: int)
    requires OneActive(s, now) && n <= |s.suppressions|
    ensures forall j :: 0 <= j < n && s.suppressions[j].deviceId == deviceId && ActiveAt(s.suppressions[j], now) ==>
              var m, f := SuppressedIndex(s.suppressions[..n], deviceId, now), s.suppressions[j].fingerprint;
              f in m && m[f] == j
  {
    if n == 0 {
    } else {
      IndexKnows(s, n - 1, deviceId, now);
      assert s.suppressions[..n][..n - 1] == s.suppressions[..n - 1];
    }
  }

  lemma StartIsOk(s: Store, deviceId: string, now: int, deviceOf: string -> string)
    requires Safe(s, now, deviceOf)
    ensures PassOk(Start(s, deviceId, now), deviceId, now, deviceOf)
  {
    IndexKnows(s, |s.suppressions|, deviceId, now);
    assert s.suppressions[..|s.suppressions|] == s.suppressions;
  }

  lemma StepIsSafe(p: Pass, c: Check, deviceId: string, now: int, deviceOf: string -> string)
    requires PassOk(p, deviceId, now, deviceOf) && CheckOk(c, deviceId, deviceOf)
    ensures PassOk(Step(p, c, now), deviceId, now, deviceOf)
    ensures Extends(p.store, Step(p, c, now).store)
  {
    var key := CheckKey(c);
    if key in p.open {
      if c.recovered {
        EndingIsSafe(p.store, OfMetric(c.interfaceId, c.kind, c.metricKey), now, None, now, deviceOf);
      } else if c.opens.Some? {
        EscalatingIsSafe(p.store, p.open[key], c.opens.value, now, deviceOf);
      }
    } else if key in p.suppressed {
      ClearStep(p, c, deviceId, now, deviceOf);
    } else if c.opens.Some? {
      OpenStep(p, c, deviceId, now, deviceOf);
    }
  }

  lemma ClearStep(p: Pass, c: Check, deviceId: string, now: int, deviceOf: string -> string)
    requires PassOk(p, deviceId, now, deviceOf) && CheckOk(c, deviceId, deviceOf)
    requires CheckKey(c) !in p.open && CheckKey(c) in p.suppressed
    ensures PassOk(Step(p, c, now), deviceId, now, deviceOf)
    ensures Extends(p.store, Step(p, c, now).store)
  {
    var id := p.suppressed[CheckKey(c)];
    var t := Clear(p.store, id, now, RECOVERED).0;
    ClearingIsSafe(p.store, t, now, deviceOf);
  }

  lemma OpenStep(p: Pass, c: Check, deviceId: string, now: int, deviceOf: string -> string)
    requires PassOk(p, deviceId, now, deviceOf) && CheckOk(c, deviceId, deviceOf)
    requires CheckKey(c) !in p.open && CheckKey(c) !in p.suppressed && c.opens.Some?
    ensures PassOk(Step(p, c, now), deviceId, now, deviceOf)
    ensures Extends(p.store, Step(p, c, now).store)
  {
    var a := AlarmFor(c, c.opens.value, now);
    forall j | 0 <= j < |p.store.suppressions| && p.store.suppressions[j].fingerprint == CheckKey(c)
      ensures !ActiveAt(p.store.suppressions[j], now)
    {
      SuppressionIsOfDevice(p.store, j, c, deviceId, deviceOf);
    }
    OpeningIsSafe(p.store, a, now, deviceOf);
  }

  /** A suppression with the fingerprint of a check belongs to the check's device. */
  lemma SuppressionIsOfDevice(s: Store, j: nat, c: Check, deviceId: string, deviceOf: string -> string)
    requires RowsOk(s, deviceOf) && CheckOk(c, deviceId, deviceOf)
    requires j < |s.suppressions| && s.suppressions[j].fingerprint == CheckKey(c)
    ensures s.suppressions[j].deviceId == deviceId
  {
    var x := s.suppressions[j];
    assert x in s.suppressions;
    IsExact(x.interfaceId, x.kind, x.ruleId, x.metricKey, c.interfaceId, c.kind, Some(c.ruleId), Some(c.metricKey));
  }

  lemma {:induction false} RunIsSafe(p: Pass, checks: seq<Check>, deviceId: string, now: int,
                                     deviceOf: string -> string)
    requires PassOk(p, deviceId, now, deviceOf)
    requires forall c :: c in checks ==> CheckOk(c, deviceId, deviceOf)
    ensures PassOk(Run(p, checks, now), deviceId, now, deviceOf)
    ensures Extends(p.store, Run(p, checks, now).store)
  {
    if checks == [] {
    } else {
      var last := |checks| - 1;
      RunIsSafe(p, checks[..last], deviceId, now, deviceOf);
      StepIsSafe(Run(p, checks[..last], now), checks[last], deviceId, now, deviceOf);
      ExtendsIsTransitive(p.store, Run(p, checks[..last], now).store, Run(p, checks, now).store);
    }
  }

  lemma PassIsSafe(s: Store, deviceId: string, checks: seq<Check>, now: int, deviceOf: string -> string)
    requires Safe(s, now, deviceOf)
    requires forall c :: c in checks ==> CheckOk(c, deviceId, deviceOf)
    ensures Safe(RunPass(s, deviceId, checks, now), now, deviceOf)
    ensures Extends(s, RunPass(s, deviceId, checks, now))
  {
    StartIsOk(s, deviceId, now, deviceOf);
    RunIsSafe(Start(s, deviceId, now), checks, deviceId, now, deviceOf);
  }
}
