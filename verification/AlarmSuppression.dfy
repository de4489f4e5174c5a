/** What an operator does to alarms: acknowledge, suppress, release; and the sweep of expired suppressions. */
module AlarmSuppression {
  import opened Options
  import opened Grouping
  import opened AlarmStore
  import opened AlarmPassLaws
  import opened AlarmEngine

  datatype Error = ALARM_NOT_FOUND | ALARM_NOT_ACTIVE | SUPPRESSION_CONFLICT | SUPPRESSION_NOT_FOUND | INVALID_WINDOW

  datatype Result<T> = Ok(value: T) | Err(error: Error)

  datatype Reason = INTENTIONAL_SHUTDOWN | MAINTENANCE | FALSE_POSITIVE | OTHER

  function ResolutionFor(reason: Reason): Resolution {
    match reason
    case INTENTIONAL_SHUTDOWN => Resolution.INTENTIONAL_SHUTDOWN
    case MAINTENANCE => Resolution.MAINTENANCE
    case FALSE_POSITIVE => Resolution.FALSE_POSITIVE
    case OTHER => MANUAL_SUPPRESSION
  }

  datatype Request = Request(alarmId: nat, mode: Mode, reason: Reason, expiresAt: Option<int>)

  datatype Receipt = Receipt(suppressionId: nat, closedAlarms: nat)

  function TargetOf(a: Alarm): Selector {
    OfTarget(a.interfaceId, a.kind, a.ruleId, a.metricKey)
  }

  function OpenAndSelected(sel: Selector): Alarm -> bool {
    (a: Alarm) => Open(a) && Selected(sel, a)
  }

  function SuppressionOf(a: Alarm, request: Request, now: int): Suppression {
    Suppression(KeyOf(a), a.deviceId, a.interfaceId, a.kind, a.ruleId, a.metricKey,
                request.mode, now, if request.mode == UNTIL_TIME then request.expiresAt else None, None, None)
  }

  /** UNTIL_TIME needs an end in the future; an unreadable date is no end at all. */
  predicate ValidWindow(request: Request, now: int) {
    request.mode == UNTIL_TIME ==> request.expiresAt.Some? && request.expiresAt.value > now
  }

  function Suppress(s: Store, request: Request, now: int): (Store, Result<Receipt>) {
    if request.alarmId >= |s.alarms| then (s, Err(ALARM_NOT_FOUND))
    else if !ValidWindow(request, now) then (s, Err(INVALID_WINDOW))
    else
      var a := s.alarms[request.alarmId];
      var (created, id) := CreateSuppression(s, SuppressionOf(a, request, now));
      if id.None? then (s, Err(SUPPRESSION_CONFLICT))
      else
        (EndSelected(created, TargetOf(a), now, Some(ResolutionFor(request.reason))),
         Ok(Receipt(id.value, Count(s.alarms, OpenAndSelected(TargetOf(a))))))
  }

  function Release(s: Store, id: nat, now: int): (Store, Result<nat>) {
    var (t, cleared) := Clear(s, id, now, MANUAL);
    if cleared then (t, Ok(id)) else (s, Err(SUPPRESSION_NOT_FOUND))
  }

  function Recognize(s: Store, id: nat, now: int): (Store, Result<Alarm>) {
    if id >= |s.alarms| then (s, Err(ALARM_NOT_FOUND))
    else if !Open(s.alarms[id]) then (s, Err(ALARM_NOT_ACTIVE))
    else (Acknowledge(s, id, now), Ok(Acknowledge(s, id, now).alarms[id]))
  }

  function Overdue(now: int): Suppression -> bool {
    (x: Suppression) => x.clearedAt.None? && x.expiresAt.Some? && x.expiresAt.value <= now
  }

  class AlarmSuppressionService {
    const db: Database

    constructor (database: Database)
      ensures db == database
    {
      db := database;
    }

    method AcknowledgeAlarm(id: nat, now: int) returns (result: Result<Alarm>)
      modifies db
      ensures (db.store, result) == Recognize(old(db.store), id, now)
    {
      if id >= |db.store.alarms| {
        return Err(ALARM_NOT_FOUND);
      }
      if db.store.alarms[id].endedAt.Some? {
        return Err(ALARM_NOT_ACTIVE);
      }
      db.store := Acknowledge(db.store, id, now);
      result := Ok(db.store.alarms[id]);
    }

    method SuppressAlarm(request: Request, now: int) returns (result: Result<Receipt>)
      modifies db
      ensures (db.store, result) == Suppress(old(db.store), request, now)
    {
      if request.alarmId >= |db.store.alarms| {
        return Err(ALARM_NOT_FOUND);
      }
      var alarm := db.store.alarms[request.alarmId];
      var expiresAt := if request.mode == UNTIL_TIME then request.expiresAt else None;
      if request.mode == UNTIL_TIME && (expiresAt.None? || expiresAt.value <= now) {
        return Err(INVALID_WINDOW);
      }
      var (created, id) := CreateSuppression(db.store,
        Suppression(KeyOf(alarm), alarm.deviceId, alarm.interfaceId, alarm.kind, alarm.ruleId, alarm.metricKey,
                    request.mode, now, expiresAt, None, None));
      if id.None? {
        return Err(SUPPRESSION_CONFLICT);
      }
      db.store := created;
      var target := TargetOf(alarm);
      var closed := Count(db.store.alarms, OpenAndSelected(target));
      db.store := EndSelected(db.store, target, now, Some(ResolutionFor(request.reason)));
      result := Ok(Receipt(id.value, closed));
    }

    method ReleaseSuppression(id: nat, now: int) returns (result: Result<nat>)
      modifies db
      ensures (db.store, result) == Release(old(db.store), id, now)
    {
      var (store, cleared) := Clear(db.store, id, now, MANUAL);
      if !cleared {
        return Err(SUPPRESSION_NOT_FOUND);
      }
      db.store := store;
      result := Ok(id);
    }

    method ExpireDueSuppressions(now: int) returns (expired: nat)
      modifies db
      ensures db.store == ExpireDue(old(db.store), now)
      ensures expired == Count(old(db.store).suppressions, Overdue(now))
    {
      expired := Count(db.store.suppressions, Overdue(now));
      db.store := ExpireDue(db.store, now);
    }
  }

  // ----- safety

  lemma SuppressionOfIsOk(s: Store, request: Request, now: int, deviceOf: string -> string)
    requires RowsOk(s, deviceOf) && request.alarmId < |s.alarms|
    ensures SuppressionOk(SuppressionOf(s.alarms[request.alarmId], request, now), deviceOf)
  {
    assert s.alarms[request.alarmId] in s.alarms;
  }

  lemma SuppressIsSafe(s: Store, request: Request, now: int, deviceOf: string -> string)
    requires Safe(s, now, deviceOf)
    ensures Safe(Suppress(s, request, now).0, now, deviceOf) && Extends(s, Suppress(s, request, now).0)
  {
    if Suppress(s, request, now).1.Ok? {
      var a := s.alarms[request.alarmId];
      var x := SuppressionOf(a, request, now);
      SuppressionOfIsOk(s, request, now, deviceOf);
      SuppressingIsSafe(s, x, now, Some(ResolutionFor(request.reason)), deviceOf);
    }
  }

  lemma ReleaseIsSafe(s: Store, id: nat, now: int, deviceOf: string -> string)
    requires Safe(s, now, deviceOf)
    ensures Safe(Release(s, id, now).0, now, deviceOf) && Extends(s, Release(s, id, now).0)
  {
    ClearingIsSafe(s, Clear(s, id, now, MANUAL).0, now, deviceOf);
  }

  lemma RecognizeIsSafe(s: Store, id: nat, now: int, deviceOf: string -> string)
    requires Safe(s, now, deviceOf)
    ensures Safe(Recognize(s, id, now).0, now, deviceOf) && Extends(s, Recognize(s, id, now).0)
  {
    AcknowledgingIsSafe(s, id, now, now, deviceOf);
  }

  // ----- what the operations achieve

  /**
   * A suppression is refused, and then changes nothing, exactly when the alarm does
   * not exist, or else the window does not end in the future, or else the fingerprint is
   * already suppressed; the error says which.
   */
  lemma SuppressRefusesExactly(s: Store, request: Request, now: int)
    ensures var (t, result) := Suppress(s, request, now);
            && (result.Err? ==> t == s)
            && (result == Err(ALARM_NOT_FOUND) <==> request.alarmId >= |s.alarms|)
            && (request.alarmId < |s.alarms| ==>
                  && (result == Err(INVALID_WINDOW) <==>
                      request.mode == UNTIL_TIME && (request.expiresAt.Some? ==> request.expiresAt.value <= now))
                  && (result == Err(SUPPRESSION_CONFLICT) <==>
                      result != Err(INVALID_WINDOW) && HasActive(s, KeyOf(s.alarms[request.alarmId]), now)))
            && (result.Err? ==> result.error in {ALARM_NOT_FOUND, INVALID_WINDOW, SUPPRESSION_CONFLICT})
  {
    if request.alarmId < |s.alarms| {
      ActiveTwice(s, KeyOf(s.alarms[request.alarmId]), now);
    }
  }

  lemma ActiveTwice(s: Store, key: string, now: int)
    ensures AlreadyActive(s.suppressions, key, now) <==> HasActive(s, key, now)
  {
    if AlreadyActive(s.suppressions, key, now) {
      var i :| 0 <= i < |s.suppressions| && s.suppressions[i].fingerprint == key && ActiveAt(s.suppressions[i], now);
      assert IsActiveRow(s, i, key, now);
    }
  }

  /** Rows picked by an alarm's own target are the rows with its fingerprint. */
  lemma TargetIsKey(s: Store, alarmId: nat, i: nat, deviceOf: string -> string)
    requires RowsOk(s, deviceOf) && alarmId < |s.alarms| && i < |s.alarms|
    ensures Selected(TargetOf(s.alarms[alarmId]), s.alarms[i]) <==> KeyOf(s.alarms[i]) == KeyOf(s.alarms[alarmId])
  {
    assert s.alarms[alarmId] in s.alarms && s.alarms[i] in s.alarms;
    KeyIsTarget(s.alarms[i], s.alarms[alarmId], deviceOf);
  }

  /** What an ended alarm says of the reason it was suppressed for. */
  ghost predicate SaysWhy(resolution: Option<Resolution>, reason: Reason) {
    && (resolution == Some(Resolution.INTENTIONAL_SHUTDOWN) <==> reason == Reason.INTENTIONAL_SHUTDOWN)
    && (resolution == Some(Resolution.MAINTENANCE) <==> reason == Reason.MAINTENANCE)
    && (resolution == Some(Resolution.FALSE_POSITIVE) <==> reason == Reason.FALSE_POSITIVE)
    && (resolution == Some(MANUAL_SUPPRESSION) <==> reason == OTHER)
  }

  /** The row of a suppression begun now: of the alarm's target, with an end only if it was asked for. */
  ghost predicate Covers(x: Suppression, a: Alarm, request: Request, now: int) {
    && x.fingerprint == KeyOf(a) && x.deviceId == a.deviceId && x.interfaceId == a.interfaceId && x.kind == a.kind
    && x.ruleId == a.ruleId && x.metricKey == a.metricKey && x.mode == request.mode && x.suppressedAt == now
    && (if x.mode == UNTIL_TIME then x.expiresAt == request.expiresAt else x.expiresAt == None)
    && x.clearedAt == None && x.clearedReason == None
  }

  /**
   * A granted suppression is one more row, active; its fingerprint is no longer open,
   * every other alarm is untouched, and the number of alarms it closed is one if the
   * fingerprint was open and zero otherwise.
   */
  lemma SuppressTakesEffect(s: Store, request: Request, now: int, deviceOf: string -> string)
    requires Safe(s, now, deviceOf) && Suppress(s, request, now).1.Ok?
    ensures var (t, result) := Suppress(s, request, now);
            var n, key := |s.suppressions|, KeyOf(s.alarms[request.alarmId]);
            && |t.suppressions| == n + 1 && t.suppressions[..n] == s.suppressions
            && result.value.suppressionId == n && Covers(t.suppressions[n], s.alarms[request.alarmId], request, now)
            && IsActiveRow(t, n, key, now) && !HasOpen(t, key)
            && result.value.closedAlarms == (if HasOpen(s, key) then 1 else 0)
            && |t.alarms| == |s.alarms|
            && (forall i: nat :: i < |s.alarms| && !IsOpenRow(s, i, key) ==> t.alarms[i] == s.alarms[i])
            && (forall i: nat :: IsOpenRow(s, i, key) ==>
                  t.alarms[i] == s.alarms[i].(endedAt := Some(now), resolution := t.alarms[i].resolution)
                  && SaysWhy(t.alarms[i].resolution, request.reason))
  {
    var (t, result) := Suppress(s, request, now);
    var a := s.alarms[request.alarmId];
    forall i: nat | i < |s.alarms| ensures Selected(TargetOf(a), s.alarms[i]) <==> KeyOf(s.alarms[i]) == KeyOf(a) {
      TargetIsKey(s, request.alarmId, i, deviceOf);
    }
    ClosedIsZeroOrOne(s, OpenAndSelected(TargetOf(a)), KeyOf(a), |s.alarms|);
    assert s.alarms[..|s.alarms|] == s.alarms;
    assert HasOpen(s, KeyOf(a)) <==> OpenBelow(s, KeyOf(a), |s.alarms|);
  }

  ghost predicate OpenBelow(s: Store, key: string, n: nat) {
    exists i: nat :: i < n && IsOpenRow(s, i, key)
  }

  lemma OpenBelowOneMore(s: Store, key: string, n: nat)
    requires OneOpen(s)
    ensures OpenBelow(s, key, n + 1) <==> OpenBelow(s, key, n) || IsOpenRow(s, n, key)
    ensures !(OpenBelow(s, key, n) && IsOpenRow(s, n, key))
  {
    if OpenBelow(s, key, n) {
      var i: nat :| i < n && IsOpenRow(s, i, key);
      assert i < n + 1;
    }
  }

  lemma {:induction false} ClosedIsZeroOrOne(s: Store, closed: Alarm -> bool, key: string, n: nat)
    requires OneOpen(s) && n <= |s.alarms|
    requires forall i: nat :: i < |s.alarms| ==> (closed(s.alarms[i]) <==> IsOpenRow(s, i, key))
    ensures Count(s.alarms[..n], closed) == if OpenBelow(s, key, n) then 1 else 0
  {
    if n == 0 {
    } else {
      ClosedIsZeroOrOne(s, closed, key, n - 1);
      OpenBelowOneMore(s, key, n - 1);
      CountOneMore(s.alarms[..n - 1], s.alarms[n - 1], closed);
      assert s.alarms[..n] == s.alarms[..n - 1] + [s.alarms[n - 1]];
    }
  }

  /** Releasing what was just granted leaves the fingerprint free: neither open nor suppressed. */
  lemma ReleaseFreesTheKey(s: Store, request: Request, now: int, deviceOf: string -> string)
    requires Safe(s, now, deviceOf) && Suppress(s, request, now).1.Ok?
    ensures var (t, granted) := Suppress(s, request, now);
            var (u, released) := Release(t, granted.value.suppressionId, now);
            var key := KeyOf(s.alarms[request.alarmId]);
            released.Ok? && u.alarms == t.alarms && !HasOpen(u, key) && !HasActive(u, key, now)
  {
    var (t, granted) := Suppress(s, request, now);
    var u := Release(t, granted.value.suppressionId, now).0;
    var key := KeyOf(s.alarms[request.alarmId]);
    SuppressTakesEffect(s, request, now, deviceOf);
    SuppressRefusesExactly(s, request, now);
    assert forall i: nat :: IsOpenRow(u, i, key) ==> IsOpenRow(t, i, key);
    assert forall j: nat :: IsActiveRow(u, j, key, now) ==> IsActiveRow(s, j, key, now);
  }

  /** Releasing clears a suppression that is not cleared yet, by hand and now, and nothing else. */
  lemma ReleaseIsExact(s: Store, id: nat, now: int)
    ensures var (t, result) := Release(s, id, now);
            if id < |s.suppressions| && s.suppressions[id].clearedAt.None? then
              && result == Ok(id) && t.alarms == s.alarms
              && t.suppressions ==
                 s.suppressions[id := s.suppressions[id].(clearedAt := Some(now), clearedReason := Some(MANUAL))]
            else result == Err(SUPPRESSION_NOT_FOUND) && t == s
  {
  }

  function Uncleared(): Suppression -> bool {
    (x: Suppression) => x.clearedAt.None?
  }

  /**
   * After the sweep exactly the active suppressions are uncleared, and it cleared as many
   * as it reports; no alarm and no suppression's activity, now or later, changes; and
   * sweeping again finds nothing.
   */
  lemma ExpiringIsExact(s: Store, now: int, later: int)
    requires now <= later
    ensures var t := ExpireDue(s, now);
            && t.alarms == s.alarms && |t.suppressions| == |s.suppressions|
            && (forall i :: 0 <= i < |s.suppressions| ==>
                  && (t.suppressions[i].clearedAt.None? <==> ActiveAt(s.suppressions[i], now))
                  && (ActiveAt(t.suppressions[i], later) <==> ActiveAt(s.suppressions[i], later))
                  && (t.suppressions[i] == s.suppressions[i]
                      || t.suppressions[i] ==
                         s.suppressions[i].(clearedAt := Some(now), clearedReason := Some(EXPIRED)))
                  && (s.suppressions[i].clearedAt.Some? ==> t.suppressions[i] == s.suppressions[i]))
            && Count(t.suppressions, Uncleared()) + Count(s.suppressions, Overdue(now))
                == Count(s.suppressions, Uncleared())
            && ExpireDue(t, now) == t && Count(t.suppressions, Overdue(now)) == 0
  {
    var t := ExpireDue(s, now);
    ExpiredAreCounted(s.suppressions, t.suppressions, now);
    ExpiredAreCounted(t.suppressions, t.suppressions, now);
  }

  lemma {:induction false} ExpiredAreCounted(xs: seq<Suppression>, ys: seq<Suppression>, now: int)
    requires |ys| == |xs| && forall i :: 0 <= i < |xs| ==> ys[i] == Expired(xs[i], now)
    ensures Count(ys, Uncleared()) + Count(xs, Overdue(now)) == Count(xs, Uncleared())
  {
    if xs == [] {
    } else {
      ExpiredAreCounted(xs[..|xs| - 1], ys[..|ys| - 1], now);
    }
  }

  /** An acknowledgement is refused exactly for unknown and ended alarms; repeating it keeps the first one. */
  lemma RecognizeIsIdempotent(s: Store, id: nat, now: int, later: int)
    ensures var (t, result) := Recognize(s, id, now);
            && (result == Err(ALARM_NOT_FOUND) <==> id >= |s.alarms|)
            && (result == Err(ALARM_NOT_ACTIVE) <==> id < |s.alarms| && s.alarms[id].endedAt.Some?)
            && (result.Ok? <==> id < |s.alarms| && s.alarms[id].endedAt.None?)
            && (result.Err? ==> t == s)
            && (result.Ok? ==>
                  && Recognize(t, id, later) == (t, result) && t.suppressions == s.suppressions
                  && t.alarms == s.alarms[id := result.value]
                  && result.value == s.alarms[id].(acknowledgedAt := result.value.acknowledgedAt)
                  && result.value.acknowledgedAt ==
                     if s.alarms[id].acknowledgedAt.Some? then s.alarms[id].acknowledgedAt else Some(now))
  {
  }
}
