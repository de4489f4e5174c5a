/**
 * The persisted alarms and suppressions, and what each repository call does to
 * them. Rows are never deleted; a row's id is its place in the sequence.
 */
module AlarmStore {
  import opened Options
  import opened Fingerprint

  datatype Severity = INFO | WARNING | MAJOR | CRITICAL

  function SeverityRank(s: Severity): nat {
    match s
    case INFO => 1
    case WARNING => 2
    case MAJOR => 3
    case CRITICAL => 4
  }

  function HighestSeverity(left: Severity, right: Severity): Severity {
    if SeverityRank(left) >= SeverityRank(right) then left else right
  }

  datatype Resolution =
    | RULE_DISABLED | RULE_DELETED | MANUAL_SUPPRESSION | INTENTIONAL_SHUTDOWN | MAINTENANCE | FALSE_POSITIVE

  datatype Alarm = Alarm(
    deviceId: string, interfaceId: string, kind: AlarmType, severity: Severity,
    ruleId: Option<string>, metricKey: Option<string>,
    startedAt: int, endedAt: Option<int>, acknowledgedAt: Option<int>, resolution: Option<Resolution>)

  datatype Mode = UNTIL_CLEAR | UNTIL_TIME

  datatype ClearReason = RECOVERED | MANUAL | EXPIRED

  datatype Suppression = Suppression(
    fingerprint: string,
    deviceId: string, interfaceId: string, kind: AlarmType,
    ruleId: Option<string>, metricKey: Option<string>,
    mode: Mode, suppressedAt: int, expiresAt: Option<int>,
    clearedAt: Option<int>, clearedReason: Option<ClearReason>)

  datatype Store = Store(alarms: seq<Alarm>, suppressions: seq<Suppression>)

  function KeyOf(a: Alarm): string {
    Of(a.interfaceId, a.kind, a.ruleId, a.metricKey)
  }

  predicate Open(a: Alarm) {
    a.endedAt.None?
  }

  /** Not cleared and, when it has an end, not past it. */
  predicate ActiveAt(s: Suppression, now: int) {
    s.clearedAt.None? && (s.expiresAt.None? || s.expiresAt.value > now)
  }

  // ----- alarm repository

  /** The row that stops a second alarm from being opened. */
  predicate SameTarget(a: Alarm, b: Alarm) {
    a.interfaceId == b.interfaceId && a.kind == b.kind &&
    (b.kind == INTERFACE_DOWN || (a.ruleId == b.ruleId && a.metricKey == b.metricKey))
  }

  predicate AlreadyOpen(alarms: seq<Alarm>, a: Alarm) {
    exists i :: 0 <= i < |alarms| && Open(alarms[i]) && SameTarget(alarms[i], a)
  }

  /** Opens unless one is open; returns the new row's id. */
  function OpenAlarm(s: Store, a: Alarm): (Store, Option<nat>) {
    if AlreadyOpen(s.alarms, a) then (s, None)
    else (s.(alarms := s.alarms + [a]), Some(|s.alarms|))
  }

  datatype Selector =
    | OfMetric(interfaceId: string, kind: AlarmType, metricKey: string)
    | OfTarget(interfaceId: string, kind: AlarmType, ruleId: Option<string>, metric: Option<string>)
    | OfInterfaces(interfaceIds: set<string>)
    | OfRule(watchedBy: string)

  predicate Selected(sel: Selector, a: Alarm) {
    match sel
    case OfMetric(interfaceId, kind, metricKey) =>
      a.interfaceId == interfaceId && a.kind == kind && a.metricKey == Some(metricKey)
    case OfTarget(interfaceId, kind, ruleId, metric) =>
      a.interfaceId == interfaceId && a.kind == kind
      && (ruleId.None? || a.ruleId == ruleId) && (metric.None? || a.metricKey == metric)
    case OfInterfaces(interfaceIds) =>
      a.interfaceId in interfaceIds && a.kind == INTERFACE_DOWN
    case OfRule(ruleId) =>
      a.ruleId == Some(ruleId) && a.kind != INTERFACE_DOWN
  }

  function Ended(a: Alarm, sel: Selector, now: int, resolution: Option<Resolution>): Alarm {
    if Open(a) && Selected(sel, a) then
      a.(endedAt := Some(now), resolution := if resolution.Some? then resolution else a.resolution)
    else a
  }

  /** Ends every selected open alarm. */
  function EndSelected(s: Store, sel: Selector, now: int, resolution: Option<Resolution>): Store {
    s.(alarms := seq(|s.alarms|, i requires 0 <= i < |s.alarms| => Ended(s.alarms[i], sel, now, resolution)))
  }

  predicate SomeSelected(s: Store, sel: Selector) {
    exists i :: 0 <= i < |s.alarms| && Open(s.alarms[i]) && Selected(sel, s.alarms[i])
  }

  /** Raises the severity of an alarm that is still open. */
  function Escalate(s: Store, id: nat, severity: Severity): (Store, bool) {
    if id < |s.alarms| && Open(s.alarms[id]) then
      (s.(alarms := s.alarms[id := s.alarms[id].(severity := severity)]), true)
    else (s, false)
  }

  /** The first acknowledgement is the one that stays. */
  function Acknowledge(s: Store, id: nat, now: int): Store {
    if id < |s.alarms| && s.alarms[id].acknowledgedAt.None? then
      s.(alarms := s.alarms[id := s.alarms[id].(acknowledgedAt := Some(now))])
    else s
  }

  // ----- suppression repository

  predicate AlreadyActive(suppressions: seq<Suppression>, fingerprint: string, now: int) {
    exists i :: 0 <= i < |suppressions| && suppressions[i].fingerprint == fingerprint && ActiveAt(suppressions[i], now)
  }

  function CreateSuppression(s: Store, x: Suppression): (Store, Option<nat>) {
    if AlreadyActive(s.suppressions, x.fingerprint, x.suppressedAt) then (s, None)
    else (s.(suppressions := s.suppressions + [x]), Some(|s.suppressions|))
  }

  function Clear(s: Store, id: nat, now: int, reason: ClearReason): (Store, bool) {
    if id < |s.suppressions| && s.suppressions[id].clearedAt.None? then
      var cleared := s.suppressions[id].(clearedAt := Some(now), clearedReason := Some(reason));
      (s.(suppressions := s.suppressions[id := cleared]), true)
    else (s, false)
  }

  function Recovered(x: Suppression, fingerprints: set<string>, now: int): Suppression {
    if x.fingerprint in fingerprints && x.clearedAt.None? && x.mode == UNTIL_CLEAR then
      x.(clearedAt := Some(now), clearedReason := Some(RECOVERED))
    else x
  }

  function ClearRecovered(s: Store, fingerprints: set<string>, now: int): Store {
    s.(suppressions := seq(|s.suppressions|, i requires 0 <= i < |s.suppressions| =>
                             Recovered(s.suppressions[i], fingerprints, now)))
  }

  function Expired(x: Suppression, now: int): Suppression {
    if x.clearedAt.None? && x.expiresAt.Some? && x.expiresAt.value <= now then
      x.(clearedAt := Some(now), clearedReason := Some(EXPIRED))
    else x
  }

  function ExpireDue(s: Store, now: int): Store {
    s.(suppressions := seq(|s.suppressions|, i requires 0 <= i < |s.suppressions| => Expired(s.suppressions[i], now)))
  }

  // ----- the invariant

  /** Rows carry a rule and a metric exactly when their type has them. */
  ghost predicate WellShaped(interfaceId: string, kind: AlarmType, ruleId: Option<string>, metricKey: Option<string>) {
    && SEPARATOR !in interfaceId
    && if kind == INTERFACE_DOWN then ruleId.None? && metricKey.None?
       else ruleId.Some? && metricKey.Some? && SEPARATOR !in ruleId.value
  }

  ghost predicate AlarmOk(a: Alarm, deviceOf: string -> string) {
    WellShaped(a.interfaceId, a.kind, a.ruleId, a.metricKey) && a.deviceId == deviceOf(a.interfaceId)
  }

  ghost predicate SuppressionOk(x: Suppression, deviceOf: string -> string) {
    && WellShaped(x.interfaceId, x.kind, x.ruleId, x.metricKey)
    && x.deviceId == deviceOf(x.interfaceId)
    && x.fingerprint == Of(x.interfaceId, x.kind, x.ruleId, x.metricKey)
  }

  ghost predicate RowsOk(s: Store, deviceOf: string -> string) {
    && (forall a :: a in s.alarms ==> AlarmOk(a, deviceOf))
    && (forall x :: x in s.suppressions ==> SuppressionOk(x, deviceOf))
  }

  ghost predicate OneOpen(s: Store) {
    forall i, j :: 0 <= i < j < |s.alarms| && Open(s.alarms[i]) && Open(s.alarms[j]) ==>
                     KeyOf(s.alarms[i]) != KeyOf(s.alarms[j])
  }

  ghost predicate OneActive(s: Store, now: int) {
    forall i, j :: 0 <= i < j < |s.suppressions| && ActiveAt(s.suppressions[i], now)
                    && ActiveAt(s.suppressions[j], now) ==>
                      s.suppressions[i].fingerprint != s.suppressions[j].fingerprint
  }

  /** No fingerprint has an open alarm and an active suppression. */
  ghost predicate NeverBoth(s: Store, now: int) {
    forall i, j :: 0 <= i < |s.alarms| && 0 <= j < |s.suppressions| && Open(s.alarms[i])
                    && ActiveAt(s.suppressions[j], now) ==>
                      KeyOf(s.alarms[i]) != s.suppressions[j].fingerprint
  }

  ghost predicate Safe(s: Store, now: int, deviceOf: string -> string) {
    RowsOk(s, deviceOf) && OneOpen(s) && OneActive(s, now) && NeverBoth(s, now)
  }

  lemma TimePasses(s: Store, now: int, later: int, deviceOf: string -> string)
    requires Safe(s, now, deviceOf) && now <= later
    ensures Safe(s, later, deviceOf)
  {
    assert forall x :: ActiveAt(x, later) ==> ActiveAt(x, now);
  }

  /** Two well-shaped alarms with the same key are the same alarm to the repository. */
  lemma KeyIsTarget(a: Alarm, b: Alarm, deviceOf: string -> string)
    requires AlarmOk(a, deviceOf) && AlarmOk(b, deviceOf)
    ensures KeyOf(a) == KeyOf(b) <==> SameTarget(a, b)
    ensures KeyOf(a) == KeyOf(b) ==>
              a.interfaceId == b.interfaceId && a.kind == b.kind && a.ruleId == b.ruleId && a.metricKey == b.metricKey
  {
    IsExact(a.interfaceId, a.kind, a.ruleId, a.metricKey, b.interfaceId, b.kind, b.ruleId, b.metricKey);
  }

  lemma OpeningIsSafe(s: Store, a: Alarm, now: int, deviceOf: string -> string)
    requires Safe(s, now, deviceOf) && AlarmOk(a, deviceOf)
    requires !AlreadyActive(s.suppressions, KeyOf(a), now)
    ensures Safe(OpenAlarm(s, a).0, now, deviceOf)
  {
    if !AlreadyOpen(s.alarms, a) {
      forall i | 0 <= i < |s.alarms| && Open(s.alarms[i]) ensures KeyOf(s.alarms[i]) != KeyOf(a) {
        KeyIsTarget(s.alarms[i], a, deviceOf);
      }
    }
  }

  lemma EndingIsSafe(s: Store, sel: Selector, now: int, resolution: Option<Resolution>, at: int,
                     deviceOf: string -> string)
    requires Safe(s, at, deviceOf)
    ensures Safe(EndSelected(s, sel, now, resolution), at, deviceOf)
  {
    var t := EndSelected(s, sel, now, resolution);
    forall i | 0 <= i < |t.alarms|
      ensures AlarmOk(t.alarms[i], deviceOf) && KeyOf(t.alarms[i]) == KeyOf(s.alarms[i])
      ensures Open(t.alarms[i]) ==> Open(s.alarms[i])
    {
      assert s.alarms[i] in s.alarms;
    }
  }

  lemma EscalatingIsSafe(s: Store, id: nat, severity: Severity, now: int, deviceOf: string -> string)
    requires Safe(s, now, deviceOf)
    ensures Safe(Escalate(s, id, severity).0, now, deviceOf)
  {
    var t := Escalate(s, id, severity).0;
    forall i | 0 <= i < |t.alarms|
      ensures AlarmOk(t.alarms[i], deviceOf) && KeyOf(t.alarms[i]) == KeyOf(s.alarms[i])
              && Open(t.alarms[i]) == Open(s.alarms[i])
    {
      assert s.alarms[i] in s.alarms;
    }
  }

  lemma AcknowledgingIsSafe(s: Store, id: nat, at: int, now: int, deviceOf: string -> string)
    requires Safe(s, now, deviceOf)
    ensures Safe(Acknowledge(s, id, at), now, deviceOf)
  {
    var t := Acknowledge(s, id, at);
    forall i | 0 <= i < |t.alarms|
      ensures AlarmOk(t.alarms[i], deviceOf) && KeyOf(t.alarms[i]) == KeyOf(s.alarms[i])
              && Open(t.alarms[i]) == Open(s.alarms[i])
    {
      assert s.alarms[i] in s.alarms;
    }
  }

  /** What the three ways of clearing suppressions have in common. */
  ghost predicate OnlyCleared(s: Store, t: Store) {
    && t.alarms == s.alarms && |t.suppressions| == |s.suppressions|
    && forall i :: 0 <= i < |s.suppressions| ==>
         t.suppressions[i] == s.suppressions[i]
         || (s.suppressions[i].clearedAt.None? && t.suppressions[i].clearedAt.Some?
             && t.suppressions[i] == s.suppressions[i].(clearedAt := t.suppressions[i].clearedAt,
                                                        clearedReason := t.suppressions[i].clearedReason))
  }

  lemma ClearingIsSafe(s: Store, t: Store, now: int, deviceOf: string -> string)
    requires Safe(s, now, deviceOf) && OnlyCleared(s, t)
    ensures Safe(t, now, deviceOf)
  {
    forall i | 0 <= i < |t.suppressions|
      ensures SuppressionOk(t.suppressions[i], deviceOf)
              && t.suppressions[i].fingerprint == s.suppressions[i].fingerprint
      ensures ActiveAt(t.suppressions[i], now) ==> ActiveAt(s.suppressions[i], now)
    {
      assert s.suppressions[i] in s.suppressions;
    }
  }

  /** Creating a suppression and ending what it covers, in this order, is safe. */
  lemma SuppressingIsSafe(s: Store, x: Suppression, now: int, resolution: Option<Resolution>,
                          deviceOf: string -> string)
    requires Safe(s, now, deviceOf) && SuppressionOk(x, deviceOf) && x.suppressedAt == now
    requires CreateSuppression(s, x).1.Some?
    ensures Safe(EndSelected(CreateSuppression(s, x).0, OfTarget(x.interfaceId, x.kind, x.ruleId, x.metricKey), now,
                             resolution),
                 now, deviceOf)
  {
    var sel := OfTarget(x.interfaceId, x.kind, x.ruleId, x.metricKey);
    var t := EndSelected(CreateSuppression(s, x).0, sel, now, resolution);
    var u := EndSelected(s, sel, now, resolution);
    EndingIsSafe(s, sel, now, resolution, now, deviceOf);
    assert t.alarms == u.alarms && t.suppressions == s.suppressions + [x];
    forall i | 0 <= i < |t.alarms| && Open(t.alarms[i]) ensures KeyOf(t.alarms[i]) != x.fingerprint {
      var a := s.alarms[i];
      assert a in s.alarms;
      IsExact(a.interfaceId, a.kind, a.ruleId, a.metricKey, x.interfaceId, x.kind, x.ruleId, x.metricKey);
    }
  }

  // ----- what never changes about a row

  /** The same alarm later: who it is about, when it began, when it ended; its severity only rises. */
  ghost predicate SameAlarmLater(a: Alarm, b: Alarm) {
    && a.deviceId == b.deviceId && a.interfaceId == b.interfaceId && a.kind == b.kind
    && a.ruleId == b.ruleId && a.metricKey == b.metricKey && a.startedAt == b.startedAt
    && SeverityRank(a.severity) <= SeverityRank(b.severity)
    && (a.endedAt.Some? ==> b == a.(acknowledgedAt := b.acknowledgedAt))
    && (a.acknowledgedAt.Some? ==> b.acknowledgedAt == a.acknowledgedAt)
  }

  ghost predicate SameSuppressionLater(x: Suppression, y: Suppression) {
    y == x || (x.clearedAt.None? && y == x.(clearedAt := y.clearedAt, clearedReason := y.clearedReason))
  }

  ghost predicate Extends(s: Store, t: Store) {
    && |s.alarms| <= |t.alarms| && |s.suppressions| <= |t.suppressions|
    && (forall i :: 0 <= i < |s.alarms| ==> SameAlarmLater(s.alarms[i], t.alarms[i]))
    && (forall i :: 0 <= i < |s.suppressions| ==> SameSuppressionLater(s.suppressions[i], t.suppressions[i]))
  }

  lemma ExtendsIsTransitive(s: Store, t: Store, u: Store)
    requires Extends(s, t) && Extends(t, u)
    ensures Extends(s, u)
  {
    forall i | 0 <= i < |s.alarms| ensures SameAlarmLater(s.alarms[i], u.alarms[i]) {
      assert SameAlarmLater(s.alarms[i], t.alarms[i]) && SameAlarmLater(t.alarms[i], u.alarms[i]);
    }
    forall i | 0 <= i < |s.suppressions| ensures SameSuppressionLater(s.suppressions[i], u.suppressions[i]) {
      assert SameSuppressionLater(s.suppressions[i], t.suppressions[i])
             && SameSuppressionLater(t.suppressions[i], u.suppressions[i]);
    }
  }
}
