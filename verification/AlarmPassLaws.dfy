/** What a pass does to each of its series, and that nothing suppressed is opened. */
module AlarmPassLaws {
  import opened Options
  import opened Fingerprint
  import opened AlarmStore
  import opened AlarmChecks

  ghost predicate SameSeries(c: Check, d: Check) {
    c.interfaceId == d.interfaceId && c.kind == d.kind && c.metricKey == d.metricKey
  }

  /** No rule looks at one series twice. */
  ghost predicate DistinctKeys(checks: seq<Check>) {
    forall i, j :: 0 <= i < j < |checks| ==> CheckKey(checks[i]) != CheckKey(checks[j])
  }

  /** The samples do not say triggered and recovered at once. */
  ghost predicate Decided(c: Check) {
    !(c.recovered && c.opens.Some?)
  }

  ghost predicate IsOpenRow(s: Store, id: nat, key: string) {
    id < |s.alarms| && Open(s.alarms[id]) && KeyOf(s.alarms[id]) == key
  }

  ghost predicate IsActiveRow(s: Store, id: nat, key: string, now: int) {
    id < |s.suppressions| && s.suppressions[id].fingerprint == key && ActiveAt(s.suppressions[id], now)
  }

  ghost predicate HasOpen(s: Store, key: string) {
    exists id: nat :: IsOpenRow(s, id, key)
  }

  ghost predicate HasActive(s: Store, key: string, now: int) {
    exists id: nat :: IsActiveRow(s, id, key, now)
  }

  /** For this key the pass's maps say what the store says. */
  ghost predicate Mirrors(p: Pass, key: string, now: int) {
    && (key in p.open ==> IsOpenRow(p.store, p.open[key], key))
    && (HasOpen(p.store, key) ==> key in p.open)
    && (key in p.suppressed ==> IsActiveRow(p.store, p.suppressed[key], key, now))
    && (HasActive(p.store, key, now) ==> key in p.suppressed)
  }

  /** The map holds open rows only, and every open metric alarm of the device. */
  ghost predicate IndexesOpen(alarms: seq<Alarm>, deviceId: string, m: map<string, nat>) {
    && (forall f :: f in m ==> m[f] < |alarms| && Open(alarms[m[f]]) && KeyOf(alarms[m[f]]) == f)
    && (forall i :: 0 <= i < |alarms| && alarms[i].deviceId == deviceId && Open(alarms[i])
                     && alarms[i].kind != INTERFACE_DOWN ==>
          KeyOf(alarms[i]) in m)
  }

  ghost predicate IndexesActive(suppressions: seq<Suppression>, deviceId: string, now: int, m: map<string, nat>) {
    && (forall f :: f in m ==>
          m[f] < |suppressions| && suppressions[m[f]].fingerprint == f && ActiveAt(suppressions[m[f]], now))
    && (forall i :: 0 <= i < |suppressions| && suppressions[i].deviceId == deviceId
                     && ActiveAt(suppressions[i], now) ==>
          suppressions[i].fingerprint in m)
  }

  lemma IndexesOneMoreOpen(earlier: seq<Alarm>, a: Alarm, deviceId: string, m: map<string, nat>)
    requires IndexesOpen(earlier, deviceId, m)
    ensures IndexesOpen(earlier + [a], deviceId,
                        if a.deviceId == deviceId && Open(a) && a.kind != INTERFACE_DOWN
                        then m[KeyOf(a) := |earlier|] else m)
  {
  }

  lemma IndexesOneMoreActive(earlier: seq<Suppression>, x: Suppression, deviceId: string, now: int, m: map<string, nat>)
    requires IndexesActive(earlier, deviceId, now, m)
    ensures IndexesActive(earlier + [x], deviceId, now,
                          if x.deviceId == deviceId && ActiveAt(x, now) then m[x.fingerprint := |earlier|] else m)
  {
  }

  lemma {:induction false} OpenIndexIsExact(alarms: seq<Alarm>, deviceId: string)
    ensures IndexesOpen(alarms, deviceId, OpenIndex(alarms, deviceId))
  {
    if alarms == [] {
    } else {
      var last := |alarms| - 1;
      OpenIndexIsExact(alarms[..last], deviceId);
      IndexesOneMoreOpen(alarms[..last], alarms[last], deviceId, OpenIndex(alarms[..last], deviceId));
      assert alarms[..last] + [alarms[last]] == alarms;
    }
  }

  lemma {:induction false} SuppressedIndexIsExact(suppressions: seq<Suppression>, deviceId: string, now: int)
    ensures IndexesActive(suppressions, deviceId, now, SuppressedIndex(suppressions, deviceId, now))
  {
    if suppressions == [] {
    } else {
      var last := |suppressions| - 1;
      SuppressedIndexIsExact(suppressions[..last], deviceId, now);
      IndexesOneMoreActive(suppressions[..last], suppressions[last], deviceId, now,
                           SuppressedIndex(suppressions[..last], deviceId, now));
      assert suppressions[..last] + [suppressions[last]] == suppressions;
    }
  }

  lemma StartMirrors(s: Store, c: Check, deviceId: string, now: int, deviceOf: string -> string)
    requires Safe(s, now, deviceOf) && CheckOk(c, deviceId, deviceOf)
    ensures Mirrors(Start(s, deviceId, now), CheckKey(c), now)
  {
    OpenIndexIsExact(s.alarms, deviceId);
    SuppressedIndexIsExact(s.suppressions, deviceId, now);
    ExactMapsMirror(Start(s, deviceId, now), c, deviceId, now, deviceOf);
  }

  lemma ExactMapsMirror(p: Pass, c: Check, deviceId: string, now: int, deviceOf: string -> string)
    requires Safe(p.store, now, deviceOf) && CheckOk(c, deviceId, deviceOf)
    requires IndexesOpen(p.store.alarms, deviceId, p.open)
             && IndexesActive(p.store.suppressions, deviceId, now, p.suppressed)
    ensures Mirrors(p, CheckKey(c), now)
  {
    var key := CheckKey(c);
    forall id: nat | IsOpenRow(p.store, id, key) ensures key in p.open {
      AlarmIsOfDevice(p.store, id, c, deviceId, deviceOf);
    }
    forall id: nat | IsActiveRow(p.store, id, key, now) ensures key in p.suppressed {
      SuppressionIsOfDevice(p.store, id, c, deviceId, deviceOf);
    }
  }

  lemma AlarmIsOfDevice(s: Store, id: nat, c: Check, deviceId: string, deviceOf: string -> string)
    requires RowsOk(s, deviceOf) && CheckOk(c, deviceId, deviceOf) && id < |s.alarms|
             && KeyOf(s.alarms[id]) == CheckKey(c)
    ensures s.alarms[id].deviceId == deviceId && s.alarms[id].kind != INTERFACE_DOWN
    ensures s.alarms[id].interfaceId == c.interfaceId && s.alarms[id].kind == c.kind
            && s.alarms[id].metricKey == Some(c.metricKey)
    ensures s.alarms[id].ruleId == Some(c.ruleId)
  {
    var a := s.alarms[id];
    assert a in s.alarms;
    IsExact(a.interfaceId, a.kind, a.ruleId, a.metricKey, c.interfaceId, c.kind, Some(c.ruleId), Some(c.metricKey));
  }

  lemma KeysDiffer(checks: seq<Check>, c: Check, d: Check)
    requires DistinctKeys(checks) && c in checks && d in checks
    ensures c == d || CheckKey(c) != CheckKey(d)
  {
    var i :| 0 <= i < |checks| && checks[i] == c;
    var j :| 0 <= j < |checks| && checks[j] == d;
  }

  // ----- a step concerns its own series only

  /** Nothing that concerns this key differs between two states of a pass. */
  ghost predicate Untouched(p: Pass, q: Pass, key: string, now: int) {
    && (key in p.open <==> key in q.open) && (key in p.open ==> p.open[key] == q.open[key])
    && (key in p.suppressed <==> key in q.suppressed)
    && (key in p.suppressed ==> p.suppressed[key] == q.suppressed[key])
    && (forall id: nat :: IsOpenRow(p.store, id, key) <==> IsOpenRow(q.store, id, key))
    && (forall id: nat :: IsActiveRow(p.store, id, key, now) <==> IsActiveRow(q.store, id, key, now))
    && (forall id: nat :: IsOpenRow(p.store, id, key) ==> p.store.alarms[id] == q.store.alarms[id])
    && (forall id: nat :: IsActiveRow(p.store, id, key, now) ==> p.store.suppressions[id] == q.store.suppressions[id])
  }

  /** Map entries point at rows of their own key, open or not. */
  ghost predicate PointsRight(p: Pass) {
    && (forall f :: f in p.open ==> p.open[f] < |p.store.alarms| && KeyOf(p.store.alarms[p.open[f]]) == f)
    && (forall f :: f in p.suppressed ==>
          p.suppressed[f] < |p.store.suppressions| && p.store.suppressions[p.suppressed[f]].fingerprint == f)
  }

  lemma StartPointsRight(s: Store, deviceId: string, now: int)
    ensures PointsRight(Start(s, deviceId, now))
  {
    OpenIndexIsExact(s.alarms, deviceId);
    SuppressedIndexIsExact(s.suppressions, deviceId, now);
  }

  /** Rows keep their keys, and no entry is made up. */
  ghost predicate KeepsKeys(p: Pass, q: Pass) {
    && |p.store.alarms| <= |q.store.alarms| && |p.store.suppressions| == |q.store.suppressions|
    && (forall id: nat :: id < |p.store.alarms| ==> KeyOf(q.store.alarms[id]) == KeyOf(p.store.alarms[id]))
    && (forall id: nat :: id < |p.store.suppressions| ==>
        q.store.suppressions[id].fingerprint == p.store.suppressions[id].fingerprint)
    && (forall f :: f in q.suppressed ==> f in p.suppressed && q.suppressed[f] == p.suppressed[f])
  }

  lemma StepKeepsKeys(p: Pass, c: Check, now: int)
    ensures KeepsKeys(p, Step(p, c, now))
  {
  }

  lemma StepMakesOneEntry(p: Pass, c: Check, now: int)
    ensures var q := Step(p, c, now);
            forall f :: f in q.open ==>
              (f in p.open && q.open[f] == p.open[f])
              || (f == CheckKey(c) && q.open[f] < |q.store.alarms| && KeyOf(q.store.alarms[q.open[f]]) == f)
  {
  }

  lemma StepPointsRight(p: Pass, c: Check, now: int)
    requires PointsRight(p)
    ensures PointsRight(Step(p, c, now))
  {
    StepKeepsKeys(p, c, now);
    StepMakesOneEntry(p, c, now);
    EntriesPointRight(p, Step(p, c, now), CheckKey(c));
  }

  lemma EntriesPointRight(p: Pass, q: Pass, key: string)
    requires PointsRight(p) && KeepsKeys(p, q)
    requires forall f :: f in q.open ==>
               (f in p.open && q.open[f] == p.open[f])
               || (f == key && q.open[f] < |q.store.alarms| && KeyOf(q.store.alarms[q.open[f]]) == f)
    ensures PointsRight(q)
  {
  }

  /** A step leaves every other key alone, unless it resolves the series that key belongs to. */
  lemma StepLeavesOthers(p: Pass, c: Check, d: Check, deviceId: string, now: int, deviceOf: string -> string)
    requires PassOk(p, deviceId, now, deviceOf) && CheckOk(d, deviceId, deviceOf)
    requires PointsRight(p) && CheckKey(c) != CheckKey(d)
    requires CheckKey(c) in p.open && c.recovered ==> !SameSeries(c, d)
    ensures Untouched(p, Step(p, c, now), CheckKey(d), now)
  {
    if CheckKey(c) in p.open {
      if c.recovered {
        ResolveLeavesOthers(p, c, d, deviceId, now, deviceOf);
      } else {
        EscalatingLeavesOthers(p, c, CheckKey(d), now);
      }
    } else if CheckKey(c) in p.suppressed {
      ClearingLeavesOthers(p, c, CheckKey(d), now);
    } else if c.opens.Some? {
      OpeningLeavesOthers(p, c, d, now);
    }
  }

  lemma EscalatingLeavesOthers(p: Pass, c: Check, key: string, now: int)
    requires PointsRight(p) && CheckKey(c) != key && CheckKey(c) in p.open && !c.recovered
    ensures Untouched(p, Step(p, c, now), key, now)
  {
    assert KeyOf(p.store.alarms[p.open[CheckKey(c)]]) == CheckKey(c);
  }

  lemma ClearingLeavesOthers(p: Pass, c: Check, key: string, now: int)
    requires PointsRight(p) && CheckKey(c) != key && CheckKey(c) !in p.open && CheckKey(c) in p.suppressed
    ensures Untouched(p, Step(p, c, now), key, now)
  {
    assert p.store.suppressions[p.suppressed[CheckKey(c)]].fingerprint == CheckKey(c);
  }

  lemma OpeningLeavesOthers(p: Pass, c: Check, d: Check, now: int)
    requires CheckKey(c) != CheckKey(d)
    requires CheckKey(c) !in p.open && CheckKey(c) !in p.suppressed && c.opens.Some?
    ensures Untouched(p, Step(p, c, now), CheckKey(d), now)
  {
  }

  lemma ResolveLeavesOthers(p: Pass, c: Check, d: Check, deviceId: string, now: int, deviceOf: string -> string)
    requires PassOk(p, deviceId, now, deviceOf) && CheckOk(d, deviceId, deviceOf)
    requires !SameSeries(c, d) && CheckKey(c) != CheckKey(d)
    ensures Untouched(p, Resolve(p, c, now), CheckKey(d), now)
  {
    var key, q := CheckKey(d), Resolve(p, c, now);
    var sel := OfMetric(c.interfaceId, c.kind, c.metricKey);
    forall id: nat | id < |p.store.alarms| && KeyOf(p.store.alarms[id]) == key
      ensures q.store.alarms[id] == p.store.alarms[id]
    {
      AlarmIsOfDevice(p.store, id, d, deviceId, deviceOf);
      assert !Selected(sel, p.store.alarms[id]);
    }
  }

  lemma OnlyOneActive(s: Store, i: nat, j: nat, key: string, now: int)
    requires OneActive(s, now)
    ensures IsActiveRow(s, i, key, now) && IsActiveRow(s, j, key, now) ==> i == j
  {
  }

  lemma OnlyOneOpen(s: Store, i: nat, j: nat, key: string)
    requires OneOpen(s) && IsOpenRow(s, i, key) && IsOpenRow(s, j, key)
    ensures i == j
  {
  }

  // ----- what a pass does to one series

  function Raised(c: Check, severity: Severity): Severity {
    if c.escalates && c.opens.Some? then HighestSeverity(severity, c.opens.value) else severity
  }

  /**
   * The rows of a series from `s` to `t`. An open alarm that stays open keeps its row,
   * with the severity raised; one that opens is a new row. A suppression is lifted
   * exactly when it waits for recovery and the series has recovered.
   */
  ghost predicate RowsFollow(s: Store, t: Store, c: Check, now: int) {
    var key := CheckKey(c);
    && (forall id: nat :: IsOpenRow(t, id, key) ==>
          if HasOpen(s, key) then
            IsOpenRow(s, id, key) && t.alarms[id] == s.alarms[id].(severity := Raised(c, s.alarms[id].severity))
          else c.opens.Some? && t.alarms[id] == AlarmFor(c, c.opens.value, now))
    && (forall id: nat :: IsActiveRow(t, id, key, now) <==>
          IsActiveRow(s, id, key, now) && !(c.recovered && s.suppressions[id].mode == UNTIL_CLEAR))
  }

  /**
   * The series' own story: an open alarm ends exactly when the series has recovered, and
   * a series neither open nor suppressed opens exactly when it triggers.
   */
  ghost predicate Outcome(s: Store, t: Store, c: Check, now: int) {
    var key := CheckKey(c);
    && (HasOpen(t, key) <==> if HasOpen(s, key) then !c.recovered else !HasActive(s, key, now) && c.opens.Some?)
    && RowsFollow(s, t, c, now)
  }

  lemma OpenIsNotActive(s: Store, key: string, now: int)
    requires NeverBoth(s, now)
    ensures !(HasOpen(s, key) && HasActive(s, key, now))
  {
  }

  lemma StepOutcome(p: Pass, c: Check, deviceId: string, now: int, deviceOf: string -> string)
    requires PassOk(p, deviceId, now, deviceOf) && CheckOk(c, deviceId, deviceOf) && Mirrors(p, CheckKey(c), now)
    ensures Outcome(p.store, Step(p, c, now).store, c, now)
  {
    OpenIsNotActive(p.store, CheckKey(c), now);
    if CheckKey(c) in p.open {
      OutcomeOnOpen(p, c, deviceId, now, deviceOf);
    } else if CheckKey(c) in p.suppressed {
      OutcomeOnSuppressed(p, c, now);
    } else {
      OutcomeOnIdle(p, c, deviceId, now, deviceOf);
    }
  }

  lemma OutcomeOnOpen(p: Pass, c: Check, deviceId: string, now: int, deviceOf: string -> string)
    requires PassOk(p, deviceId, now, deviceOf) && CheckOk(c, deviceId, deviceOf) && Mirrors(p, CheckKey(c), now)
    requires CheckKey(c) in p.open && !HasActive(p.store, CheckKey(c), now)
    ensures Outcome(p.store, Step(p, c, now).store, c, now)
  {
    var key, s := CheckKey(c), p.store;
    var id, t := p.open[key], Step(p, c, now).store;
    assert IsOpenRow(s, id, key);
    AlarmIsOfDevice(s, id, c, deviceId, deviceOf);
    assert forall j: nat :: IsActiveRow(t, j, key, now) ==> IsActiveRow(s, j, key, now);
    if c.recovered {
      assert SomeSelected(s, OfMetric(c.interfaceId, c.kind, c.metricKey));
      forall i: nat | i < |t.alarms| && KeyOf(t.alarms[i]) == key ensures !Open(t.alarms[i]) {
        AlarmIsOfDevice(s, i, c, deviceId, deviceOf);
      }
    } else {
      forall i: nat | IsOpenRow(t, i, key) ensures i == id {
        OnlyOneOpen(s, i, id, key);
      }
      assert IsOpenRow(t, id, key);
    }
  }

  lemma OutcomeOnSuppressed(p: Pass, c: Check, now: int)
    requires OneActive(p.store, now) && Mirrors(p, CheckKey(c), now)
    requires CheckKey(c) !in p.open && CheckKey(c) in p.suppressed
    ensures Outcome(p.store, Step(p, c, now).store, c, now)
  {
    var key, s := CheckKey(c), p.store;
    var id, t := p.suppressed[key], Step(p, c, now).store;
    assert IsActiveRow(s, id, key, now);
    forall j: nat
      ensures IsActiveRow(t, j, key, now) <==>
              IsActiveRow(s, j, key, now) && !(c.recovered && s.suppressions[j].mode == UNTIL_CLEAR)
    {
      OnlyOneActive(s, id, j, key, now);
    }
    assert forall i: nat :: IsOpenRow(t, i, key) ==> IsOpenRow(s, i, key);
  }

  lemma OutcomeOnIdle(p: Pass, c: Check, deviceId: string, now: int, deviceOf: string -> string)
    requires PassOk(p, deviceId, now, deviceOf) && CheckOk(c, deviceId, deviceOf) && Mirrors(p, CheckKey(c), now)
    requires CheckKey(c) !in p.open && CheckKey(c) !in p.suppressed
    ensures Outcome(p.store, Step(p, c, now).store, c, now)
  {
    var key, s := CheckKey(c), p.store;
    var t := Step(p, c, now).store;
    assert forall j: nat :: IsActiveRow(t, j, key, now) ==> IsActiveRow(s, j, key, now);
    if c.opens.Some? {
      var a := AlarmFor(c, c.opens.value, now);
      if AlreadyOpen(s.alarms, a) {
        var i :| 0 <= i < |s.alarms| && Open(s.alarms[i]) && SameTarget(s.alarms[i], a);
        assert IsOpenRow(s, i, key);
        assert false;
      }
      assert IsOpenRow(t, |s.alarms|, key);
      assert forall i: nat :: IsOpenRow(t, i, key) ==> i == |s.alarms| || IsOpenRow(s, i, key);
    }
  }

  lemma RunOneFurther(p: Pass, checks: seq<Check>, k: nat, now: int)
    requires k < |checks|
    ensures Run(p, checks[..k + 1], now) == Step(Run(p, checks[..k], now), checks[k], now)
  {
    assert checks[..k + 1][..k] == checks[..k];
  }

  lemma RunSplits(p: Pass, checks: seq<Check>, k: nat, now: int)
    requires k < |checks|
    ensures Run(p, checks, now) == Run(Step(Run(p, checks[..k], now), checks[k], now), checks[k + 1..], now)
  {
    RunOneFurther(p, checks, k, now);
    assert checks[..k + 1] + checks[k + 1..] == checks;
    RunConcat(p, checks[..k + 1], checks[k + 1..], now);
  }

  // ----- a suppressed series is not opened

  ghost predicate Closed(p: Pass, key: string) {
    key !in p.open && !HasOpen(p.store, key)
  }

  lemma StepKeepsClosed(p: Pass, d: Check, key: string, now: int)
    requires Closed(p, key) && (CheckKey(d) == key ==> key in p.suppressed)
    ensures Closed(Step(p, d, now), key)
    ensures CheckKey(d) != key && key in p.suppressed ==> key in Step(p, d, now).suppressed
  {
    var q := Step(p, d, now);
    assert forall id: nat :: IsOpenRow(q.store, id, key) ==> IsOpenRow(p.store, id, key);
  }

  lemma SuppressedBeginsClosed(s: Store, c: Check, deviceId: string, now: int, deviceOf: string -> string)
    requires Safe(s, now, deviceOf) && CheckOk(c, deviceId, deviceOf) && HasActive(s, CheckKey(c), now)
    ensures var p := Start(s, deviceId, now); Closed(p, CheckKey(c)) && CheckKey(c) in p.suppressed
  {
    StartMirrors(s, c, deviceId, now, deviceOf);
    OpenIsNotActive(s, CheckKey(c), now);
  }

  lemma {:induction false} SuppressedStaysClosed(p: Pass, checks: seq<Check>, i: nat, k: nat, now: int)
    requires DistinctKeys(checks) && i < |checks| && k <= |checks|
    requires Closed(p, CheckKey(checks[i])) && CheckKey(checks[i]) in p.suppressed
    ensures var q, key := Run(p, checks[..k], now), CheckKey(checks[i]);
            Closed(q, key) && (k <= i ==> key in q.suppressed)
  {
    if k == 0 {
      assert checks[..0] == [];
    } else {
      SuppressedStaysClosed(p, checks, i, k - 1, now);
      RunOneFurther(p, checks, k - 1, now);
      StepKeepsClosed(Run(p, checks[..k - 1], now), checks[k - 1], CheckKey(checks[i]), now);
    }
  }

  /**
   * A series that was suppressed when the pass began is not open when it ends,
   * whether or not the pass released the suppression on the way, and whatever other
   * rules watch the same series.
   */
  lemma SuppressedIsNotOpened(s: Store, deviceId: string, checks: seq<Check>, c: Check, now: int,
                              deviceOf: string -> string)
    requires Safe(s, now, deviceOf) && DistinctKeys(checks) && c in checks
    requires CheckOk(c, deviceId, deviceOf)
    requires HasActive(s, CheckKey(c), now)
    ensures !HasOpen(RunPass(s, deviceId, checks, now), CheckKey(c))
  {
    var i :| 0 <= i < |checks| && checks[i] == c;
    SuppressedBeginsClosed(s, c, deviceId, now, deviceOf);
    SuppressedStaysClosed(Start(s, deviceId, now), checks, i, |checks|, now);
    assert checks[..|checks|] == checks;
  }

  // ----- two rules on one series

  /**
   * With two rules on one series a pass can undo what the next one redoes. A rate
   * of 20 has recovered for the lax rule and still triggers the strict one:
   * resolving the lax rule's alarm ends the strict rule's alarm too, and only the
   * next pass opens that again.
   */
  lemma TwoRulesAreNotIdempotent()
    ensures var lax := Check("d", "i", "lax", INTERFACE_ERRORS, "RX", true, None, false);
            var strict := Check("d", "i", "strict", INTERFACE_ERRORS, "RX", false, Some(MAJOR), false);
            var s := Store([AlarmFor(lax, MAJOR, 1), AlarmFor(strict, MAJOR, 1)], []);
            var once := RunPass(s, "d", [lax, strict], 5);
            && Decided(lax) && Decided(strict) && SameSeries(lax, strict)
            && !HasOpen(once, CheckKey(strict))
            && HasOpen(RunPass(once, "d", [lax, strict], 5), CheckKey(strict))
  {
    var lax := Check("d", "i", "lax", INTERFACE_ERRORS, "RX", true, None, false);
    var strict := Check("d", "i", "strict", INTERFACE_ERRORS, "RX", false, Some(MAJOR), false);
    var a, b := AlarmFor(lax, MAJOR, 1), AlarmFor(strict, MAJOR, 1);
    var s := Store([a, b], []);
    IsExact("i", INTERFACE_ERRORS, Some("lax"), Some("RX"), "i", INTERFACE_ERRORS, Some("strict"), Some("RX"));
    assert CheckKey(lax) != CheckKey(strict);
    FirstPass(lax, strict, a, b);
    var once := RunPass(s, "d", [lax, strict], 5);
    SecondPass(lax, strict, once);
  }

  lemma RunTwo(p: Pass, c: Check, d: Check, now: int)
    ensures Run(p, [c, d], now) == Step(Step(p, c, now), d, now)
  {
    assert [c, d][..1] == [c] && [c][..0] == [];
    assert Run(p, [c], now) == Step(p, c, now);
  }

  lemma FirstPass(lax: Check, strict: Check, a: Alarm, b: Alarm)
    requires SameSeries(lax, strict) && CheckKey(lax) != CheckKey(strict)
    requires lax.recovered && !strict.recovered && !strict.escalates
    requires lax.deviceId == strict.deviceId == "d" && lax.kind != INTERFACE_DOWN
    requires a == AlarmFor(lax, MAJOR, 1) && b == AlarmFor(strict, MAJOR, 1)
    ensures var once := RunPass(Store([a, b], []), "d", [lax, strict], 5);
            once.suppressions == [] && |once.alarms| == 2 && !Open(once.alarms[0]) && !Open(once.alarms[1])
  {
    var s := Store([a, b], []);
    var p := Start(s, "d", 5);
    assert [a, b][..1] == [a] && [a][..0] == [];
    assert OpenIndex([a], "d") == map[CheckKey(lax) := 0];
    assert p.open == map[CheckKey(lax) := 0, CheckKey(strict) := 1];
    RunTwo(p, lax, strict, 5);
    assert Open(s.alarms[0]) && Selected(OfMetric(lax.interfaceId, lax.kind, lax.metricKey), s.alarms[0]);
    var q := Step(p, lax, 5);
    assert q == Resolve(p, lax, 5);
    assert CheckKey(strict) in q.open;
    assert Step(q, strict, 5) == q;
  }

  lemma SecondPass(lax: Check, strict: Check, once: Store)
    requires CheckKey(lax) != CheckKey(strict)
    requires lax.recovered && lax.opens.None? && strict.opens == Some(MAJOR)
    requires once.suppressions == [] && |once.alarms| == 2 && !Open(once.alarms[0]) && !Open(once.alarms[1])
    ensures !HasOpen(once, CheckKey(strict))
    ensures HasOpen(RunPass(once, "d", [lax, strict], 5), CheckKey(strict))
  {
    var p := Start(once, "d", 5);
    assert once.alarms[..1][..0] == [] && once.alarms[..1][0] == once.alarms[0];
    assert OpenIndex(once.alarms[..1], "d") == map[];
    assert p.open == map[] && p.suppressed == map[];
    RunTwo(p, lax, strict, 5);
    assert Step(p, lax, 5) == p;
    var q := Step(p, strict, 5);
    assert IsOpenRow(q.store, 2, CheckKey(strict));
  }
}
