/** Interface transitions become INTERFACE_DOWN alarms: one batch is one step over the store. */
module InterfaceAlarms {
  import opened Options
  import opened Fingerprint
  import opened AlarmStore
  import opened AlarmPassLaws
  import opened AlarmEngine

  datatype Status = UP | DOWN | WARNING | UNKNOWN | DISABLED

  datatype Transition = Transition(deviceId: string, interfaceId: string, previous: Status, next: Status)

  function DownKey(interfaceId: string): string {
    Of(interfaceId, INTERFACE_DOWN, None, None)
  }

  function DownAlarm(t: Transition, now: int): Alarm {
    Alarm(t.deviceId, t.interfaceId, INTERFACE_DOWN, Severity.CRITICAL, None, None, now, None, None, None)
  }

  predicate WentDown(t: Transition) {
    t.previous == UP && t.next == DOWN
  }

  predicate CameUp(t: Transition) {
    t.next == UP
  }

  function Filter<T(!new)>(s: seq<T>, p: T -> bool): (r: seq<T>)
    ensures forall x :: x in r <==> x in s && p(x)
  {
    if s == [] then []
    else if p(s[0]) then [s[0]] + Filter(s[1..], p)
    else Filter(s[1..], p)
  }

  function Interfaces(s: seq<Transition>): set<string> {
    set t | t in s :: t.interfaceId
  }

  /** Interfaces among the given ones with an active INTERFACE_DOWN suppression. */
  function SuppressedInterfaces(s: Store, interfaceIds: set<string>, now: int): set<string> {
    set x | x in s.suppressions && ActiveAt(x, now) && x.kind == INTERFACE_DOWN
            && (exists id :: id in interfaceIds && DownKey(id) == x.fingerprint) :: x.interfaceId
  }

  function OpenAll(s: Store, ts: seq<Transition>, now: int): Store {
    if ts == [] then s
    else OpenAlarm(OpenAll(s, ts[..|ts| - 1], now), DownAlarm(ts[|ts| - 1], now)).0
  }

  function Linked(linked: set<string>): Transition -> bool {
    (t: Transition) => t.interfaceId in linked
  }

  function NotIn(ids: set<string>): Transition -> bool {
    (t: Transition) => t.interfaceId !in ids
  }

  /** The drops that open an alarm: on a map link and not suppressed. */
  function Relevant(s: Store, ts: seq<Transition>, linked: set<string>, now: int): seq<Transition> {
    var onMap := Filter(Filter(ts, WentDown), Linked(linked));
    Filter(onMap, NotIn(SuppressedInterfaces(s, Interfaces(onMap), now)))
  }

  function Returned(ts: seq<Transition>): set<string> {
    Interfaces(Filter(ts, CameUp))
  }

  function DownKeys(ids: set<string>): set<string> {
    set id | id in ids :: DownKey(id)
  }

  function AfterTransitions(s: Store, ts: seq<Transition>, linked: set<string>, now: int): Store {
    var dropped := OpenAll(s, Relevant(s, ts, linked, now), now);
    var ended := EndSelected(dropped, OfInterfaces(Returned(ts)), now, None);
    ClearRecovered(ended, DownKeys(Returned(ts)), now)
  }

  class AlarmService {
    const db: Database

    constructor (database: Database)
      ensures db == database
    {
      db := database;
    }

    method OpenInterfaceDownAlarms(ts: seq<Transition>, now: int)
      modifies db
      ensures db.store == OpenAll(old(db.store), ts, now)
    {
      for n := 0 to |ts|
        invariant db.store == OpenAll(old(db.store), ts[..n], now)
      {
        assert ts[..n + 1][..n] == ts[..n];
        var alarm := DownAlarm(ts[n], now);
        if AlreadyOpen(db.store.alarms, alarm) {
          continue;
        }
        db.store := db.store.(alarms := db.store.alarms + [alarm]);
      }
      assert ts[..|ts|] == ts;
    }

    method ProcessTransitions(ts: seq<Transition>, linked: set<string>, now: int)
      modifies db
      ensures db.store == AfterTransitions(old(db.store), ts, linked, now)
    {
      if |ts| == 0 {
        NothingReturned(db.store, ts, now);
        return;
      }
      var dropped, resolved := Filter(ts, WentDown), Filter(ts, CameUp);
      if |dropped| > 0 {
        var relevant := Filter(dropped, Linked(linked));
        if |relevant| > 0 {
          var suppressed := SuppressedInterfaces(db.store, Interfaces(relevant), now);
          relevant := Filter(relevant, NotIn(suppressed));
        }
        if |relevant| > 0 {
          OpenInterfaceDownAlarms(relevant, now);
        }
      }
      if |resolved| > 0 {
        var ids := Interfaces(resolved);
        db.store := EndSelected(db.store, OfInterfaces(ids), now, None);
        db.store := ClearRecovered(db.store, DownKeys(ids), now);
      } else {
        NothingReturned(db.store, ts, now);
      }
    }
  }

  lemma NothingReturned(s: Store, ts: seq<Transition>, now: int)
    requires Filter(ts, CameUp) == []
    ensures ClearRecovered(EndSelected(s, OfInterfaces(Returned(ts)), now, None), DownKeys(Returned(ts)), now) == s
  {
    assert Returned(ts) == {};
    assert EndSelected(s, OfInterfaces({}), now, None).alarms == s.alarms;
    assert ClearRecovered(s, {}, now).suppressions == s.suppressions;
  }

  // ----- safety

  ghost predicate TransitionsOk(ts: seq<Transition>, deviceOf: string -> string) {
    forall t :: t in ts ==> SEPARATOR !in t.interfaceId && t.deviceId == deviceOf(t.interfaceId)
  }

  ghost predicate Unsuppressed(s: Store, ts: seq<Transition>, now: int) {
    forall t :: t in ts ==> !HasActive(s, DownKey(t.interfaceId), now)
  }

  /** An active suppression with an interface's key is one of its own. */
  lemma DownKeyIsExact(s: Store, j: nat, interfaceId: string, deviceOf: string -> string)
    requires RowsOk(s, deviceOf) && j < |s.suppressions| && SEPARATOR !in interfaceId
    ensures s.suppressions[j].fingerprint == DownKey(interfaceId) <==>
            s.suppressions[j].interfaceId == interfaceId && s.suppressions[j].kind == INTERFACE_DOWN
  {
    var x := s.suppressions[j];
    assert x in s.suppressions;
    IsExact(x.interfaceId, x.kind, x.ruleId, x.metricKey, interfaceId, INTERFACE_DOWN, None, None);
  }

  lemma RelevantIsExact(s: Store, ts: seq<Transition>, linked: set<string>, t: Transition, now: int,
                        deviceOf: string -> string)
    requires RowsOk(s, deviceOf) && TransitionsOk(ts, deviceOf)
    ensures t in Relevant(s, ts, linked, now) <==>
            t in ts && WentDown(t) && t.interfaceId in linked && !HasActive(s, DownKey(t.interfaceId), now)
  {
    var onMap := Filter(Filter(ts, WentDown), Linked(linked));
    var suppressed := SuppressedInterfaces(s, Interfaces(onMap), now);
    if t in onMap {
      var id := t.interfaceId;
      if HasActive(s, DownKey(id), now) {
        var j: nat :| IsActiveRow(s, j, DownKey(id), now);
        DownKeyIsExact(s, j, id, deviceOf);
        assert s.suppressions[j] in s.suppressions;
        assert id in Interfaces(onMap);
        assert id in suppressed;
      }
      if id in suppressed {
        var x :| x in s.suppressions && ActiveAt(x, now) && x.kind == INTERFACE_DOWN && x.interfaceId == id;
        var j :| 0 <= j < |s.suppressions| && s.suppressions[j] == x;
        DownKeyIsExact(s, j, id, deviceOf);
        assert IsActiveRow(s, j, DownKey(id), now);
      }
    }
  }

  lemma {:induction false} OpenAllIsSafe(s: Store, ts: seq<Transition>, now: int, deviceOf: string -> string)
    requires Safe(s, now, deviceOf) && TransitionsOk(ts, deviceOf) && Unsuppressed(s, ts, now)
    ensures Safe(OpenAll(s, ts, now), now, deviceOf) && Extends(s, OpenAll(s, ts, now))
    ensures OpenAll(s, ts, now).suppressions == s.suppressions
  {
    if ts == [] {
    } else {
      var last := ts[|ts| - 1];
      assert last in ts;
      OpenAllIsSafe(s, ts[..|ts| - 1], now, deviceOf);
      var before := OpenAll(s, ts[..|ts| - 1], now);
      assert !AlreadyActive(before.suppressions, KeyOf(DownAlarm(last, now)), now) by {
        forall j | 0 <= j < |s.suppressions| && s.suppressions[j].fingerprint == DownKey(last.interfaceId)
          ensures !ActiveAt(s.suppressions[j], now)
        {
          assert !IsActiveRow(s, j, DownKey(last.interfaceId), now);
        }
      }
      OpeningIsSafe(before, DownAlarm(last, now), now, deviceOf);
    }
  }

  lemma EndingExtends(s: Store, sel: Selector, now: int, resolution: Option<Resolution>)
    ensures Extends(s, EndSelected(s, sel, now, resolution))
  {
  }

  lemma ClearingExtends(s: Store, t: Store)
    requires OnlyCleared(s, t)
    ensures Extends(s, t)
  {
  }

  lemma TransitionsAreSafe(s: Store, ts: seq<Transition>, linked: set<string>, now: int, deviceOf: string -> string)
    requires Safe(s, now, deviceOf) && TransitionsOk(ts, deviceOf)
    ensures Safe(AfterTransitions(s, ts, linked, now), now, deviceOf)
    ensures Extends(s, AfterTransitions(s, ts, linked, now))
  {
    var relevant := Relevant(s, ts, linked, now);
    forall t | t in relevant ensures t in ts && !HasActive(s, DownKey(t.interfaceId), now) {
      RelevantIsExact(s, ts, linked, t, now, deviceOf);
    }
    OpenAllIsSafe(s, relevant, now, deviceOf);
    var dropped := OpenAll(s, relevant, now);
    var ended := EndSelected(dropped, OfInterfaces(Returned(ts)), now, None);
    EndingIsSafe(dropped, OfInterfaces(Returned(ts)), now, None, now, deviceOf);
    EndingExtends(dropped, OfInterfaces(Returned(ts)), now, None);
    ExtendsIsTransitive(s, dropped, ended);
    var cleared := ClearRecovered(ended, DownKeys(Returned(ts)), now);
    ClearingIsSafe(ended, cleared, now, deviceOf);
    ClearingExtends(ended, cleared);
    ExtendsIsTransitive(s, ended, cleared);
  }

  /** The row of a drop from UP to DOWN: CRITICAL, of the interface, without rule and metric, begun now. */
  ghost predicate IsDropOf(a: Alarm, ts: seq<Transition>, now: int) {
    exists t ::
      t in ts && a == Alarm(t.deviceId, t.interfaceId, INTERFACE_DOWN, Severity.CRITICAL, None, None, now, None, None,
                            None)
  }

  /** Opening keeps every row and adds only CRITICAL link alarms of the given drops, begun now. */
  lemma {:induction false} OpenAllAdds(s: Store, ts: seq<Transition>, now: int)
    ensures var u := OpenAll(s, ts, now);
            && s.alarms <= u.alarms
            && forall i :: |s.alarms| <= i < |u.alarms| ==> IsDropOf(u.alarms[i], ts, now)
  {
    if ts == [] {
    } else {
      var last := |ts| - 1;
      OpenAllAdds(s, ts[..last], now);
      var before, u := OpenAll(s, ts[..last], now), OpenAll(s, ts, now);
      forall i | |s.alarms| <= i < |u.alarms| ensures IsDropOf(u.alarms[i], ts, now) {
        if i < |before.alarms| {
          assert IsDropOf(before.alarms[i], ts[..last], now);
          var t :| t in ts[..last] && before.alarms[i] == DownAlarm(t, now);
          assert t in ts;
        } else {
          assert ts[last] in ts;
        }
      }
    }
  }

  // ----- what a batch does to one interface

  ghost predicate Drops(ts: seq<Transition>, interfaceId: string) {
    exists t :: t in ts && t.previous == UP && t.next == DOWN && t.interfaceId == interfaceId
  }

  ghost predicate Returns(ts: seq<Transition>, interfaceId: string) {
    exists t :: t in ts && t.next == UP && t.interfaceId == interfaceId
  }

  lemma ReturnedIsExact(ts: seq<Transition>, interfaceId: string)
    ensures interfaceId in Returned(ts) <==> Returns(ts, interfaceId)
  {
    if Returns(ts, interfaceId) {
      var t :| t in ts && CameUp(t) && t.interfaceId == interfaceId;
      assert t in Filter(ts, CameUp);
    }
  }

  lemma RowOfInterface(s: Store, id: nat, interfaceId: string, deviceOf: string -> string)
    requires RowsOk(s, deviceOf) && id < |s.alarms| && SEPARATOR !in interfaceId
    ensures KeyOf(s.alarms[id]) == DownKey(interfaceId) <==>
            s.alarms[id].interfaceId == interfaceId && s.alarms[id].kind == INTERFACE_DOWN
  {
    var a := s.alarms[id];
    assert a in s.alarms;
    IsExact(a.interfaceId, a.kind, a.ruleId, a.metricKey, interfaceId, INTERFACE_DOWN, None, None);
  }

  lemma {:induction false} OpenAllOpens(s: Store, ts: seq<Transition>, interfaceId: string, now: int,
                                        deviceOf: string -> string)
    requires Safe(s, now, deviceOf) && TransitionsOk(ts, deviceOf) && Unsuppressed(s, ts, now)
             && SEPARATOR !in interfaceId
    ensures HasOpen(OpenAll(s, ts, now), DownKey(interfaceId)) <==>
            HasOpen(s, DownKey(interfaceId)) || interfaceId in Interfaces(ts)
  {
    if ts == [] {
    } else {
      var before := ts[..|ts| - 1];
      OpenAllOpens(s, before, interfaceId, now, deviceOf);
      OpenAllIsSafe(s, before, now, deviceOf);
      assert ts == before + [ts[|ts| - 1]];
      assert Interfaces(ts) == Interfaces(before) + {ts[|ts| - 1].interfaceId};
      assert ts[|ts| - 1] in ts;
      OneMoreOpens(OpenAll(s, before, now), ts[|ts| - 1], interfaceId, now, deviceOf);
    }
  }

  lemma OneMoreOpens(s: Store, t: Transition, interfaceId: string, now: int, deviceOf: string -> string)
    requires RowsOk(s, deviceOf) && SEPARATOR !in t.interfaceId && SEPARATOR !in interfaceId
    ensures HasOpen(OpenAlarm(s, DownAlarm(t, now)).0, DownKey(interfaceId)) <==>
            HasOpen(s, DownKey(interfaceId)) || t.interfaceId == interfaceId
  {
    var a, key := DownAlarm(t, now), DownKey(interfaceId);
    IsExact(t.interfaceId, INTERFACE_DOWN, None, None, interfaceId, INTERFACE_DOWN, None, None);
    if AlreadyOpen(s.alarms, a) {
      var i :| 0 <= i < |s.alarms| && Open(s.alarms[i]) && SameTarget(s.alarms[i], a);
      RowOfInterface(s, i, t.interfaceId, deviceOf);
      assert t.interfaceId == interfaceId ==> IsOpenRow(s, i, key);
    } else {
      var u := OpenAlarm(s, a).0;
      assert t.interfaceId == interfaceId ==> IsOpenRow(u, |s.alarms|, key);
      assert forall i: nat :: IsOpenRow(s, i, key) ==> IsOpenRow(u, i, key);
      assert forall i: nat :: IsOpenRow(u, i, key) ==> IsOpenRow(s, i, key) || t.interfaceId == interfaceId;
    }
  }

  /** The same, said of keys. */
  lemma KeyOutcome(s: Store, ts: seq<Transition>, linked: set<string>, interfaceId: string, now: int,
                   deviceOf: string -> string)
    requires Safe(s, now, deviceOf) && TransitionsOk(ts, deviceOf) && SEPARATOR !in interfaceId
    ensures var t, key := AfterTransitions(s, ts, linked, now), DownKey(interfaceId);
            && (HasOpen(t, key) <==>
                !Returns(ts, interfaceId)
                && (HasOpen(s, key) || (Drops(ts, interfaceId) && interfaceId in linked && !HasActive(s, key, now))))
            && (forall j: nat :: IsActiveRow(t, j, key, now) <==>
                  IsActiveRow(s, j, key, now) && !(Returns(ts, interfaceId) && s.suppressions[j].mode == UNTIL_CLEAR))
  {
    var key, relevant := DownKey(interfaceId), Relevant(s, ts, linked, now);
    forall t | t in relevant ensures t in ts && !HasActive(s, DownKey(t.interfaceId), now) {
      RelevantIsExact(s, ts, linked, t, now, deviceOf);
    }
    OpenAllOpens(s, relevant, interfaceId, now, deviceOf);
    OpenAllIsSafe(s, relevant, now, deviceOf);
    RelevantInterfaces(s, ts, linked, interfaceId, now, deviceOf);
    ReturnedIsExact(ts, interfaceId);
    ReturnOutcome(OpenAll(s, relevant, now), Returned(ts), interfaceId, now, deviceOf);
  }

  lemma RelevantInterfaces(s: Store, ts: seq<Transition>, linked: set<string>, interfaceId: string, now: int,
                           deviceOf: string -> string)
    requires RowsOk(s, deviceOf) && TransitionsOk(ts, deviceOf)
    ensures interfaceId in Interfaces(Relevant(s, ts, linked, now)) <==>
            Drops(ts, interfaceId) && interfaceId in linked && !HasActive(s, DownKey(interfaceId), now)
  {
    var relevant := Relevant(s, ts, linked, now);
    if interfaceId in Interfaces(relevant) {
      var t :| t in relevant && t.interfaceId == interfaceId;
      RelevantIsExact(s, ts, linked, t, now, deviceOf);
    }
    if Drops(ts, interfaceId) {
      var t :| t in ts && WentDown(t) && t.interfaceId == interfaceId;
      RelevantIsExact(s, ts, linked, t, now, deviceOf);
    }
  }

  lemma ReturnOutcome(s: Store, returned: set<string>, interfaceId: string, now: int, deviceOf: string -> string)
    requires RowsOk(s, deviceOf) && SEPARATOR !in interfaceId && forall id :: id in returned ==> SEPARATOR !in id
    ensures var t := ClearRecovered(EndSelected(s, OfInterfaces(returned), now, None), DownKeys(returned), now);
            var key := DownKey(interfaceId);
            && (HasOpen(t, key) <==> HasOpen(s, key) && interfaceId !in returned)
            && (forall j: nat :: IsActiveRow(t, j, key, now) <==>
                  IsActiveRow(s, j, key, now) && !(interfaceId in returned && s.suppressions[j].mode == UNTIL_CLEAR))
  {
    var t := ClearRecovered(EndSelected(s, OfInterfaces(returned), now, None), DownKeys(returned), now);
    var key := DownKey(interfaceId);
    forall i: nat ensures IsOpenRow(t, i, key) <==> IsOpenRow(s, i, key) && interfaceId !in returned {
      if i < |s.alarms| {
        RowOfInterface(s, i, interfaceId, deviceOf);
      }
    }
    assert key in DownKeys(returned) <==> interfaceId in returned by {
      DownKeysAreExact(returned, interfaceId);
    }
  }

  lemma DownKeysAreExact(ids: set<string>, interfaceId: string)
    requires SEPARATOR !in interfaceId && forall id :: id in ids ==> SEPARATOR !in id
    ensures DownKey(interfaceId) in DownKeys(ids) <==> interfaceId in ids
  {
    if DownKey(interfaceId) in DownKeys(ids) {
      var id :| id in ids && DownKey(id) == DownKey(interfaceId);
      IsExact(id, INTERFACE_DOWN, None, None, interfaceId, INTERFACE_DOWN, None, None);
    }
  }

  // ----- the same, said of rows

  ghost predicate IsDownRow(s: Store, id: nat, interfaceId: string) {
    && id < |s.alarms| && s.alarms[id].endedAt.None?
    && s.alarms[id].interfaceId == interfaceId && s.alarms[id].kind == INTERFACE_DOWN
  }

  ghost predicate IsDown(s: Store, interfaceId: string) {
    exists id: nat :: IsDownRow(s, id, interfaceId)
  }

  ghost predicate IsHeldRow(s: Store, id: nat, interfaceId: string, now: int) {
    && id < |s.suppressions| && s.suppressions[id].clearedAt.None?
    && (s.suppressions[id].expiresAt.Some? ==> s.suppressions[id].expiresAt.value > now)
    && s.suppressions[id].interfaceId == interfaceId && s.suppressions[id].kind == INTERFACE_DOWN
  }

  ghost predicate IsHeld(s: Store, interfaceId: string, now: int) {
    exists id: nat :: IsHeldRow(s, id, interfaceId, now)
  }

  lemma KeysAreRows(s: Store, interfaceId: string, now: int, deviceOf: string -> string)
    requires RowsOk(s, deviceOf) && SEPARATOR !in interfaceId
    ensures HasOpen(s, DownKey(interfaceId)) <==> IsDown(s, interfaceId)
    ensures HasActive(s, DownKey(interfaceId), now) <==> IsHeld(s, interfaceId, now)
  {
    forall id: nat ensures IsOpenRow(s, id, DownKey(interfaceId)) <==> IsDownRow(s, id, interfaceId) {
      if id < |s.alarms| {
        RowOfInterface(s, id, interfaceId, deviceOf);
      }
    }
    forall id: nat ensures IsActiveRow(s, id, DownKey(interfaceId), now) <==> IsHeldRow(s, id, interfaceId, now) {
      if id < |s.suppressions| {
        DownKeyIsExact(s, id, interfaceId, deviceOf);
      }
    }
  }

  /**
   * After a batch an interface is in alarm exactly when it did not return and was in alarm
   * before, or dropped from UP to DOWN on a map link while not suppressed.
   */
  lemma TransitionOutcome(s: Store, ts: seq<Transition>, linked: set<string>, interfaceId: string, now: int,
                          deviceOf: string -> string)
    requires Safe(s, now, deviceOf) && TransitionsOk(ts, deviceOf) && SEPARATOR !in interfaceId
    ensures IsDown(AfterTransitions(s, ts, linked, now), interfaceId) <==>
            !Returns(ts, interfaceId)
            && (IsDown(s, interfaceId)
                || (Drops(ts, interfaceId) && interfaceId in linked && !IsHeld(s, interfaceId, now)))
  {
    TransitionsAreSafe(s, ts, linked, now, deviceOf);
    KeyOutcome(s, ts, linked, interfaceId, now, deviceOf);
    KeysAreRows(s, interfaceId, now, deviceOf);
    KeysAreRows(AfterTransitions(s, ts, linked, now), interfaceId, now, deviceOf);
  }

  /** What the return of interfaces does to a row: an open link alarm of one of them is ended now. */
  ghost predicate IsReturned(a: Alarm, b: Alarm, ts: seq<Transition>, now: int) {
    b == if a.endedAt.None? && a.kind == INTERFACE_DOWN && Returns(ts, a.interfaceId)
         then a.(endedAt := Some(now)) else a
  }

  lemma ReturnsEndRows(s: Store, ts: seq<Transition>, id: nat, now: int)
    requires id < |s.alarms|
    ensures IsReturned(s.alarms[id], EndSelected(s, OfInterfaces(Returned(ts)), now, None).alarms[id], ts, now)
  {
    ReturnedIsExact(ts, s.alarms[id].interfaceId);
  }

  lemma DropIsRelevant(s: Store, ts: seq<Transition>, linked: set<string>, a: Alarm, now: int)
    requires IsDropOf(a, Relevant(s, ts, linked, now), now)
    ensures IsDropOf(a, ts, now) && Drops(ts, a.interfaceId) && a.interfaceId in linked
  {
  }

  /**
   * Row by row: a new row is that of a drop on a map link, the others were there before, and
   * each is as it was unless its interface returned.
   */
  lemma TransitionRows(s: Store, ts: seq<Transition>, linked: set<string>, id: nat, now: int) returns (a: Alarm)
    requires id < |AfterTransitions(s, ts, linked, now).alarms|
    ensures IsReturned(a, AfterTransitions(s, ts, linked, now).alarms[id], ts, now)
    ensures if id < |s.alarms| then a == s.alarms[id]
            else IsDropOf(a, ts, now) && Drops(ts, a.interfaceId) && a.interfaceId in linked
  {
    var relevant := Relevant(s, ts, linked, now);
    OpenAllAdds(s, relevant, now);
    var dropped := OpenAll(s, relevant, now);
    a := dropped.alarms[id];
    ReturnsEndRows(dropped, ts, id, now);
    if id >= |s.alarms| {
      DropIsRelevant(s, ts, linked, a, now);
    }
  }

  /** A suppression of an interface that returned is cleared if it waits for recovery; no other changes. */
  lemma TransitionSuppressions(s: Store, ts: seq<Transition>, linked: set<string>, id: nat, now: int,
                               deviceOf: string -> string)
    requires Safe(s, now, deviceOf) && TransitionsOk(ts, deviceOf) && id < |s.suppressions|
    ensures var t, x := AfterTransitions(s, ts, linked, now), s.suppressions[id];
            && |t.suppressions| == |s.suppressions|
            && t.suppressions[id] ==
               if x.clearedAt.None? && x.mode == UNTIL_CLEAR && x.kind == INTERFACE_DOWN && Returns(ts, x.interfaceId)
               then x.(clearedAt := Some(now), clearedReason := Some(RECOVERED)) else x
  {
    var relevant := Relevant(s, ts, linked, now);
    forall t | t in relevant ensures t in ts && !HasActive(s, DownKey(t.interfaceId), now) {
      RelevantIsExact(s, ts, linked, t, now, deviceOf);
    }
    OpenAllIsSafe(s, relevant, now, deviceOf);
    var x := s.suppressions[id];
    assert x in s.suppressions;
    ReturnedIsExact(ts, x.interfaceId);
    if x.fingerprint in DownKeys(Returned(ts)) {
      var returned :| returned in Returned(ts) && DownKey(returned) == x.fingerprint;
      DownKeyIsExact(s, id, returned, deviceOf);
    }
    if x.kind == INTERFACE_DOWN {
      DownKeyIsExact(s, id, x.interfaceId, deviceOf);
    }
  }
}
