/** What a pass does to each of its series, whatever other rules watch the same series. */
module AlarmPassOutcome {
  import opened AlarmStore
  import opened AlarmChecks
  import opened AlarmPassLaws

  ghost predicate ChecksOk(checks: seq<Check>, deviceId: string, deviceOf: string -> string) {
    DistinctKeys(checks) && forall c :: c in checks ==> CheckOk(c, deviceId, deviceOf)
  }

  /** The rule of `d` had an alarm to resolve when the pass began, and resolves the whole series of `c` with it. */
  ghost predicate Resolves(s: Store, d: Check, c: Check) {
    SameSeries(d, c) && d.recovered && HasOpen(s, CheckKey(d))
  }

  ghost predicate EndedFrom(s: Store, checks: seq<Check>, k: nat, c: Check) {
    exists j :: k <= j < |checks| && Resolves(s, checks[j], c)
  }

  /**
   * The story of a series among the other rules on it. An open alarm ends exactly when
   * some rule of the series whose alarm was open has recovered. A series neither open nor
   * suppressed is open in the end exactly when it triggers and no such rule comes after.
   */
  ghost predicate SharedOutcome(s: Store, t: Store, checks: seq<Check>, i: nat, now: int)
    requires i < |checks|
  {
    var c := checks[i];
    var key := CheckKey(c);
    && (HasOpen(t, key) <==>
        if HasOpen(s, key) then !EndedFrom(s, checks, 0, c)
        else !HasActive(s, key, now) && c.opens.Some? && !EndedFrom(s, checks, i + 1, c))
    && RowsFollow(s, t, c, now)
  }

  // ----- the steps of the other rules

  /** For this key nothing differs between two states of a pass, except that its alarm may have been ended. */
  ghost predicate Kept(p: Pass, q: Pass, key: string, ended: bool, now: int) {
    && (key in p.open <==> key in q.open) && (key in p.open ==> p.open[key] == q.open[key])
    && (key in p.suppressed <==> key in q.suppressed)
    && (key in p.suppressed ==> p.suppressed[key] == q.suppressed[key])
    && (forall id: nat :: IsOpenRow(q.store, id, key) <==> IsOpenRow(p.store, id, key) && !ended)
    && (forall id: nat :: IsActiveRow(q.store, id, key, now) <==> IsActiveRow(p.store, id, key, now))
    && (forall id: nat :: IsOpenRow(q.store, id, key) ==> p.store.alarms[id] == q.store.alarms[id])
    && (forall id: nat :: IsActiveRow(p.store, id, key, now) ==> p.store.suppressions[id] == q.store.suppressions[id])
  }

  lemma KeptOnwards(p: Pass, q: Pass, r: Pass, key: string, first: bool, second: bool, now: int)
    requires Kept(p, q, key, first, now) && Kept(q, r, key, second, now)
    ensures Kept(p, r, key, first || second, now)
  {
  }

  /** What `Resolves` says, in terms of the map a pass goes by. */
  ghost predicate WouldResolve(p: Pass, d: Check, c: Check) {
    SameSeries(d, c) && d.recovered && CheckKey(d) in p.open
  }

  ghost predicate SomeWouldResolve(p: Pass, checks: seq<Check>, c: Check) {
    exists j :: 0 <= j < |checks| && WouldResolve(p, checks[j], c)
  }

  lemma ResolveEndsTheSeries(p: Pass, d: Check, c: Check, deviceId: string, now: int, deviceOf: string -> string)
    requires PassOk(p, deviceId, now, deviceOf) && CheckOk(c, deviceId, deviceOf) && WouldResolve(p, d, c)
    ensures !HasOpen(Step(p, d, now).store, CheckKey(c))
  {
    var sel := OfMetric(d.interfaceId, d.kind, d.metricKey);
    forall id: nat ensures !IsOpenRow(Step(p, d, now).store, id, CheckKey(c)) {
      if id < |p.store.alarms| && KeyOf(p.store.alarms[id]) == CheckKey(c) {
        AlarmIsOfDevice(p.store, id, c, deviceId, deviceOf);
        assert Selected(sel, p.store.alarms[id]);
        assert Open(p.store.alarms[id]) ==> SomeSelected(p.store, sel);
      }
    }
  }

  lemma OtherStepKeeps(p: Pass, d: Check, c: Check, deviceId: string, now: int, deviceOf: string -> string)
    requires PassOk(p, deviceId, now, deviceOf) && PointsRight(p) && CheckOk(c, deviceId, deviceOf)
    requires CheckKey(d) != CheckKey(c)
    ensures Kept(p, Step(p, d, now), CheckKey(c), WouldResolve(p, d, c), now)
  {
    if WouldResolve(p, d, c) {
      ResolveEndsTheSeries(p, d, c, deviceId, now, deviceOf);
      ResolvingKeeps(p, d, CheckKey(c), now);
    } else {
      StepLeavesOthers(p, d, c, deviceId, now, deviceOf);
    }
  }

  lemma ResolvingKeeps(p: Pass, d: Check, key: string, now: int)
    requires CheckKey(d) != key && CheckKey(d) in p.open && d.recovered && !HasOpen(Step(p, d, now).store, key)
    ensures Kept(p, Step(p, d, now), key, true, now)
  {
  }

  lemma StepLeavesEntries(p: Pass, d: Check, key: string, now: int)
    requires CheckKey(d) != key
    ensures key in Step(p, d, now).open <==> key in p.open
  {
  }

  /** Only a check's own step touches the map entry under its key. */
  lemma {:induction false} EntryWaits(p: Pass, checks: seq<Check>, key: string, now: int)
    requires forall d :: d in checks ==> CheckKey(d) != key
    ensures key in Run(p, checks, now).open <==> key in p.open
  {
    if checks == [] {
    } else {
      var before, d := checks[..|checks| - 1], checks[|checks| - 1];
      EntryWaits(p, before, key, now);
      assert d in checks;
      StepLeavesEntries(Run(p, before, now), d, key, now);
    }
  }

  /** Checks of a pass beside `c`. */
  ghost predicate AreOthers(checks: seq<Check>, c: Check, deviceId: string, deviceOf: string -> string) {
    ChecksOk(checks, deviceId, deviceOf) && forall d :: d in checks ==> CheckKey(d) != CheckKey(c)
  }

  lemma {:induction false} OthersKeep(p: Pass, checks: seq<Check>, c: Check, deviceId: string, now: int,
                                      deviceOf: string -> string)
    requires PassOk(p, deviceId, now, deviceOf) && PointsRight(p) && CheckOk(c, deviceId, deviceOf)
    requires AreOthers(checks, c, deviceId, deviceOf)
    ensures Kept(p, Run(p, checks, now), CheckKey(c), SomeWouldResolve(p, checks, c), now)
    ensures PassOk(Run(p, checks, now), deviceId, now, deviceOf) && PointsRight(Run(p, checks, now))
  {
    if checks == [] {
    } else {
      var before, d := checks[..|checks| - 1], checks[|checks| - 1];
      assert before + [d] == checks;
      LastIsApart(checks, c, deviceId, deviceOf);
      OthersKeep(p, before, c, deviceId, now, deviceOf);
      EntryWaits(p, before, CheckKey(d), now);
      var q := Run(p, before, now);
      OneMoreKeeps(p, q, before, d, c, deviceId, now, deviceOf);
      assert Run(p, checks, now) == Step(q, d, now);
    }
  }

  lemma LastIsApart(checks: seq<Check>, c: Check, deviceId: string, deviceOf: string -> string)
    requires AreOthers(checks, c, deviceId, deviceOf) && checks != []
    ensures var before, d := checks[..|checks| - 1], checks[|checks| - 1];
            && AreOthers(before, c, deviceId, deviceOf) && AreOthers(before, d, deviceId, deviceOf)
            && CheckOk(d, deviceId, deviceOf) && CheckKey(d) != CheckKey(c)
  {
    assert checks[|checks| - 1] in checks;
  }

  lemma OneMoreKeeps(p: Pass, q: Pass, before: seq<Check>, d: Check, c: Check, deviceId: string, now: int,
                     deviceOf: string -> string)
    requires PassOk(q, deviceId, now, deviceOf) && PointsRight(q)
    requires CheckOk(c, deviceId, deviceOf) && CheckOk(d, deviceId, deviceOf) && CheckKey(d) != CheckKey(c)
    requires Kept(p, q, CheckKey(c), SomeWouldResolve(p, before, c), now)
    requires CheckKey(d) in q.open <==> CheckKey(d) in p.open
    ensures Kept(p, Step(q, d, now), CheckKey(c), SomeWouldResolve(p, before + [d], c), now)
    ensures PassOk(Step(q, d, now), deviceId, now, deviceOf) && PointsRight(Step(q, d, now))
  {
    StepIsSafe(q, d, deviceId, now, deviceOf);
    StepPointsRight(q, d, now);
    OtherStepKeeps(q, d, c, deviceId, now, deviceOf);
    KeptOnwards(p, q, Step(q, d, now), CheckKey(c), SomeWouldResolve(p, before, c), WouldResolve(q, d, c), now);
    OneMoreResolver(p, before, d, c);
  }

  lemma OneMoreResolver(p: Pass, before: seq<Check>, d: Check, c: Check)
    ensures SomeWouldResolve(p, before + [d], c) <==> SomeWouldResolve(p, before, c) || WouldResolve(p, d, c)
  {
    var all := before + [d];
    assert all[|before|] == d;
    if SomeWouldResolve(p, before, c) {
      var j :| 0 <= j < |before| && WouldResolve(p, before[j], c);
      assert all[j] == before[j];
    }
  }

  // ----- the step of the rule itself

  /** From the beginning of a pass to just after the own step, `ended` telling whether another rule came first. */
  ghost predicate OutcomeSoFar(s: Store, t: Store, c: Check, ended: bool, now: int) {
    var key := CheckKey(c);
    && (HasOpen(t, key) <==>
        if HasOpen(s, key) then !c.recovered && !ended else !HasActive(s, key, now) && c.opens.Some?)
    && RowsFollow(s, t, c, now)
  }

  lemma OwnStepOutcome(start: Pass, p: Pass, c: Check, ended: bool, deviceId: string, now: int,
                       deviceOf: string -> string)
    requires PassOk(p, deviceId, now, deviceOf) && CheckOk(c, deviceId, deviceOf) && NeverBoth(start.store, now)
    requires Mirrors(start, CheckKey(c), now) && Kept(start, p, CheckKey(c), ended, now)
    ensures OutcomeSoFar(start.store, Step(p, c, now).store, c, ended, now)
  {
    var key := CheckKey(c);
    OpenIsNotActive(start.store, key, now);
    if key in p.open && ended {
      EndedStaysEnded(p, c, now);
    } else {
      KeptMirrors(start, p, key, ended, now);
      StepOutcome(p, c, deviceId, now, deviceOf);
      OutcomeCarries(start, p, Step(p, c, now).store, c, ended, now);
    }
  }

  /** Another rule ended the alarm: the map still holds it, and the check can only forget it. */
  lemma EndedStaysEnded(p: Pass, c: Check, now: int)
    requires CheckKey(c) in p.open && !HasOpen(p.store, CheckKey(c)) && !HasActive(p.store, CheckKey(c), now)
    ensures var t := Step(p, c, now).store; !HasOpen(t, CheckKey(c)) && !HasActive(t, CheckKey(c), now)
  {
    var key, t := CheckKey(c), Step(p, c, now).store;
    assert forall id: nat :: IsOpenRow(t, id, key) ==> IsOpenRow(p.store, id, key);
    assert forall id: nat :: IsActiveRow(t, id, key, now) ==> IsActiveRow(p.store, id, key, now);
  }

  lemma KeptMirrors(p: Pass, q: Pass, key: string, ended: bool, now: int)
    requires Mirrors(p, key, now) && Kept(p, q, key, ended, now) && (key in p.open ==> !ended)
    ensures Mirrors(q, key, now)
  {
    if HasOpen(q.store, key) {
      var id: nat :| IsOpenRow(q.store, id, key);
      assert IsOpenRow(p.store, id, key);
    }
    if HasActive(q.store, key, now) {
      var id: nat :| IsActiveRow(q.store, id, key, now);
      assert IsActiveRow(p.store, id, key, now);
    }
  }

  lemma OutcomeCarries(start: Pass, p: Pass, t: Store, c: Check, ended: bool, now: int)
    requires Mirrors(start, CheckKey(c), now) && Kept(start, p, CheckKey(c), ended, now)
    requires (CheckKey(c) in p.open ==> !ended) && Outcome(p.store, t, c, now)
    ensures OutcomeSoFar(start.store, t, c, ended, now)
  {
    var key := CheckKey(c);
    assert HasOpen(start.store, key) <==> HasOpen(p.store, key);
    assert HasActive(start.store, key, now) <==> HasActive(p.store, key, now);
  }

  // ----- the whole pass

  lemma StartKnows(s: Store, checks: seq<Check>, j: nat, deviceId: string, now: int, deviceOf: string -> string)
    requires Safe(s, now, deviceOf) && ChecksOk(checks, deviceId, deviceOf) && j < |checks|
    ensures CheckKey(checks[j]) in Start(s, deviceId, now).open <==> HasOpen(s, CheckKey(checks[j]))
  {
    var start := Start(s, deviceId, now);
    assert checks[j] in checks;
    StartMirrors(s, checks[j], deviceId, now, deviceOf);
    assert CheckKey(checks[j]) in start.open ==> IsOpenRow(s, start.open[CheckKey(checks[j])], CheckKey(checks[j]));
  }

  /** From its own step back to the beginning nothing changes whether a check finds its alarm in the map. */
  lemma EntryIsKnown(s: Store, checks: seq<Check>, from: nat, j: nat, deviceId: string, now: int,
                     deviceOf: string -> string)
    requires Safe(s, now, deviceOf) && ChecksOk(checks, deviceId, deviceOf) && from <= j < |checks|
    ensures CheckKey(checks[j]) in Run(Start(s, deviceId, now), checks[..from], now).open <==>
            HasOpen(s, CheckKey(checks[j]))
  {
    StartKnows(s, checks, j, deviceId, now, deviceOf);
    EntryWaits(Start(s, deviceId, now), checks[..from], CheckKey(checks[j]), now);
  }

  lemma ResolversMatch(s: Store, p: Pass, part: seq<Check>, c: Check)
    requires forall j :: 0 <= j < |part| ==> (CheckKey(part[j]) in p.open <==> HasOpen(s, CheckKey(part[j])))
    ensures SomeWouldResolve(p, part, c) <==> EndedFrom(s, part, 0, c)
  {
    forall j | 0 <= j < |part| ensures WouldResolve(p, part[j], c) <==> Resolves(s, part[j], c) {
    }
  }

  lemma EndedSplits(s: Store, checks: seq<Check>, i: nat, c: Check)
    requires i < |checks|
    ensures EndedFrom(s, checks[i + 1..], 0, c) <==> EndedFrom(s, checks, i + 1, c)
    ensures EndedFrom(s, checks, 0, c) <==>
            EndedFrom(s, checks[..i], 0, c) || Resolves(s, checks[i], c) || EndedFrom(s, checks, i + 1, c)
  {
    EndedBefore(s, checks, i, c);
    EndedAfter(s, checks, i + 1, c);
  }

  lemma EndedBefore(s: Store, checks: seq<Check>, i: nat, c: Check)
    requires i < |checks|
    ensures EndedFrom(s, checks, 0, c) <==>
            EndedFrom(s, checks[..i], 0, c) || Resolves(s, checks[i], c) || EndedFrom(s, checks, i + 1, c)
  {
    assert forall j :: 0 <= j < i ==> checks[..i][j] == checks[j];
  }

  lemma EndedAfter(s: Store, checks: seq<Check>, k: nat, c: Check)
    requires k <= |checks|
    ensures EndedFrom(s, checks[k..], 0, c) <==> EndedFrom(s, checks, k, c)
  {
    if EndedFrom(s, checks, k, c) {
      var j :| k <= j < |checks| && Resolves(s, checks[j], c);
      assert checks[k..][j - k] == checks[j];
    }
  }

  /**
   * What a pass does to each of its series, in terms of that series' samples and of the
   * rules on it that had an open alarm and have recovered.
   */
  lemma PassOutcome(s: Store, deviceId: string, checks: seq<Check>, i: nat, now: int, deviceOf: string -> string)
    requires Safe(s, now, deviceOf) && ChecksOk(checks, deviceId, deviceOf) && i < |checks|
    ensures SharedOutcome(s, RunPass(s, deviceId, checks, now), checks, i, now)
  {
    var start, c := Start(s, deviceId, now), checks[i];
    var before := Run(start, checks[..i], now);
    var after := Step(before, c, now);
    assert c in checks;
    StartIsOk(s, deviceId, now, deviceOf);
    StartPointsRight(s, deviceId, now);
    StartMirrors(s, c, deviceId, now, deviceOf);
    PartsAreOk(checks, i, deviceId, deviceOf);
    OthersKeep(start, checks[..i], c, deviceId, now, deviceOf);
    OwnStepOutcome(start, before, c, SomeWouldResolve(start, checks[..i], c), deviceId, now, deviceOf);
    StepIsSafe(before, c, deviceId, now, deviceOf);
    StepPointsRight(before, c, now);
    OthersKeep(after, checks[i + 1..], c, deviceId, now, deviceOf);
    RunSplits(start, checks, i, now);
    RunOneFurther(start, checks, i, now);
    ResolversBefore(s, checks, i, c, deviceId, now, deviceOf);
    ResolversAfter(s, checks, i, c, deviceId, now, deviceOf);
    EndedSplits(s, checks, i, c);
    OutcomeEnds(s, after, Run(after, checks[i + 1..], now), checks, i, SomeWouldResolve(start, checks[..i], c),
                SomeWouldResolve(after, checks[i + 1..], c), now);
  }

  lemma PartsAreOk(checks: seq<Check>, i: nat, deviceId: string, deviceOf: string -> string)
    requires ChecksOk(checks, deviceId, deviceOf) && i < |checks|
    ensures AreOthers(checks[..i], checks[i], deviceId, deviceOf)
    ensures AreOthers(checks[i + 1..], checks[i], deviceId, deviceOf)
  {
  }

  lemma ResolversBefore(s: Store, checks: seq<Check>, i: nat, c: Check, deviceId: string, now: int,
                        deviceOf: string -> string)
    requires Safe(s, now, deviceOf) && ChecksOk(checks, deviceId, deviceOf) && i < |checks|
    ensures SomeWouldResolve(Start(s, deviceId, now), checks[..i], c) <==> EndedFrom(s, checks[..i], 0, c)
  {
    var start, part := Start(s, deviceId, now), checks[..i];
    forall j | 0 <= j < i ensures CheckKey(part[j]) in start.open <==> HasOpen(s, CheckKey(part[j])) {
      StartKnows(s, checks, j, deviceId, now, deviceOf);
    }
    ResolversMatch(s, start, part, c);
  }

  lemma ResolversAfter(s: Store, checks: seq<Check>, i: nat, c: Check, deviceId: string, now: int,
                       deviceOf: string -> string)
    requires Safe(s, now, deviceOf) && ChecksOk(checks, deviceId, deviceOf) && i < |checks|
    ensures SomeWouldResolve(Run(Start(s, deviceId, now), checks[..i + 1], now), checks[i + 1..], c) <==>
            EndedFrom(s, checks[i + 1..], 0, c)
  {
    var after, part := Run(Start(s, deviceId, now), checks[..i + 1], now), checks[i + 1..];
    forall j | 0 <= j < |part| ensures CheckKey(part[j]) in after.open <==> HasOpen(s, CheckKey(part[j])) {
      EntryIsKnown(s, checks, i + 1, i + 1 + j, deviceId, now, deviceOf);
    }
    ResolversMatch(s, after, part, c);
  }

  lemma OutcomeEnds(s: Store, after: Pass, end: Pass, checks: seq<Check>, i: nat, first: bool, second: bool, now: int)
    requires i < |checks| && OutcomeSoFar(s, after.store, checks[i], first, now)
    requires Kept(after, end, CheckKey(checks[i]), second, now)
    requires second <==> EndedFrom(s, checks, i + 1, checks[i])
    requires EndedFrom(s, checks, 0, checks[i]) <==> first || Resolves(s, checks[i], checks[i]) || second
    ensures SharedOutcome(s, end.store, checks, i, now)
  {
    var key := CheckKey(checks[i]);
    assert HasOpen(end.store, key) <==> HasOpen(after.store, key) && !second;
  }

  // ----- when the other rules make no difference

  /**
   * No other rule on the series has recovered, or the check has recovered too and either
   * opens nothing or comes later.
   */
  ghost predicate Undisturbed(checks: seq<Check>, i: nat)
    requires i < |checks|
  {
    var c := checks[i];
    forall j :: 0 <= j < |checks| && j != i && SameSeries(checks[j], c) && checks[j].recovered ==>
      c.recovered && (c.opens.None? || j < i)
  }

  lemma EndsItself(s: Store, checks: seq<Check>, i: nat)
    requires i < |checks|
    ensures HasOpen(s, CheckKey(checks[i])) && checks[i].recovered ==> EndedFrom(s, checks, 0, checks[i])
  {
    assert Resolves(s, checks[i], checks[i]) <==> HasOpen(s, CheckKey(checks[i])) && checks[i].recovered;
  }

  lemma UndisturbedOutcome(s: Store, t: Store, checks: seq<Check>, i: nat, now: int)
    requires i < |checks| && Undisturbed(checks, i) && SharedOutcome(s, t, checks, i, now)
    ensures Outcome(s, t, checks[i], now)
  {
    EndsItself(s, checks, i);
  }

  /** Rows open on every given check. */
  function AllOpen(checks: seq<Check>, now: int): Store {
    Store(seq(|checks|, i requires 0 <= i < |checks| => AlarmFor(checks[i], INFO, now)), [])
  }

  lemma AllOpenIsSafe(checks: seq<Check>, deviceId: string, now: int, deviceOf: string -> string)
    requires ChecksOk(checks, deviceId, deviceOf)
    ensures Safe(AllOpen(checks, now), now, deviceOf)
    ensures forall c :: c in checks ==> HasOpen(AllOpen(checks, now), CheckKey(c))
    ensures forall key :: !HasActive(AllOpen(checks, now), key, now)
  {
    forall c | c in checks ensures HasOpen(AllOpen(checks, now), CheckKey(c)) {
      var i :| 0 <= i < |checks| && checks[i] == c;
      assert IsOpenRow(AllOpen(checks, now), i, CheckKey(c));
    }
  }

  lemma OnlyTheseAreOpen(checks: seq<Check>, key: string, now: int)
    requires forall c :: c in checks ==> CheckKey(c) != key
    ensures !HasOpen(AllOpen(checks, now), key)
  {
    forall id: nat | id < |checks| ensures !IsOpenRow(AllOpen(checks, now), id, key) {
      assert checks[id] in checks;
    }
  }

  /** A rule that recovers where it should not: a store on which the pass does not do what the samples alone decide. */
  lemma DisturbedShows(checks: seq<Check>, i: nat, j: nat, deviceId: string, now: int, deviceOf: string -> string)
    requires ChecksOk(checks, deviceId, deviceOf) && i < |checks| && j < |checks| && j != i
    requires SameSeries(checks[j], checks[i]) && checks[j].recovered
    requires !checks[i].recovered || (checks[i].opens.Some? && i < j)
    ensures var s := AllOpen(if checks[i].recovered then [checks[j]] else [checks[i], checks[j]], now);
            Safe(s, now, deviceOf) && !Outcome(s, RunPass(s, deviceId, checks, now), checks[i], now)
  {
    var c, d := checks[i], checks[j];
    assert c in checks && d in checks && CheckKey(c) != CheckKey(d);
    var open := if c.recovered then [d] else [c, d];
    var s := AllOpen(open, now);
    AllOpenIsSafe(open, deviceId, now, deviceOf);
    assert d in open;
    PassOutcome(s, deviceId, checks, i, now, deviceOf);
    assert Resolves(s, checks[j], c);
    if c.recovered {
      OnlyTheseAreOpen(open, CheckKey(c), now);
    } else {
      assert c in open;
    }
  }

  /**
   * On every safe store a pass does to a series what that series' samples alone decide
   * exactly when the other rules on it leave it undisturbed.
   */
  lemma OutcomeExactly(checks: seq<Check>, i: nat, deviceId: string, now: int, deviceOf: string -> string)
    requires ChecksOk(checks, deviceId, deviceOf) && i < |checks|
    ensures (forall s :: Safe(s, now, deviceOf) ==> Outcome(s, RunPass(s, deviceId, checks, now), checks[i], now)) <==>
            Undisturbed(checks, i)
  {
    if Undisturbed(checks, i) {
      forall s | Safe(s, now, deviceOf) ensures Outcome(s, RunPass(s, deviceId, checks, now), checks[i], now) {
        PassOutcome(s, deviceId, checks, i, now, deviceOf);
        UndisturbedOutcome(s, RunPass(s, deviceId, checks, now), checks, i, now);
      }
    } else {
      var j :| 0 <= j < |checks| && j != i && SameSeries(checks[j], checks[i]) && checks[j].recovered
               && !(checks[i].recovered && (checks[i].opens.None? || j < i));
      DisturbedShows(checks, i, j, deviceId, now, deviceOf);
    }
  }

  /** A recovered series that does not trigger is closed by any pass, and stays suppressed only until a time. */
  lemma RecoveredIsClosed(s: Store, deviceId: string, checks: seq<Check>, c: Check, now: int,
                          deviceOf: string -> string)
    requires Safe(s, now, deviceOf) && ChecksOk(checks, deviceId, deviceOf) && c in checks
    requires c.recovered && c.opens.None?
    ensures Outcome(s, RunPass(s, deviceId, checks, now), c, now)
            && !HasOpen(RunPass(s, deviceId, checks, now), CheckKey(c))
  {
    var i :| 0 <= i < |checks| && checks[i] == c;
    PassOutcome(s, deviceId, checks, i, now, deviceOf);
    UndisturbedOutcome(s, RunPass(s, deviceId, checks, now), checks, i, now);
  }

  /**
   * Samples that say triggered and recovered at once make the alarm flap from pass to
   * pass, as long as no rule that ends it comes after.
   */
  lemma UndecidedSeriesFlaps(s: Store, deviceId: string, checks: seq<Check>, i: nat, now: int,
                             deviceOf: string -> string)
    requires Safe(s, now, deviceOf) && ChecksOk(checks, deviceId, deviceOf) && i < |checks| && !Decided(checks[i])
    requires !HasOpen(s, CheckKey(checks[i])) && !HasActive(s, CheckKey(checks[i]), now)
    requires !EndedFrom(s, checks, i + 1, checks[i])
    ensures var once, key := RunPass(s, deviceId, checks, now), CheckKey(checks[i]);
            HasOpen(once, key) && !HasOpen(RunPass(once, deviceId, checks, now), key)
  {
    var once := RunPass(s, deviceId, checks, now);
    PassOutcome(s, deviceId, checks, i, now, deviceOf);
    PassIsSafe(s, deviceId, checks, now, deviceOf);
    PassOutcome(once, deviceId, checks, i, now, deviceOf);
    EndsItself(once, checks, i);
  }
}
