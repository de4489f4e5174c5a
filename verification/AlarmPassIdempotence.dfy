/** When a second pass over the same samples changes nothing: exactly when no two decisions about a series clash. */
module AlarmPassIdempotence {
  import opened AlarmStore
  import opened AlarmChecks
  import opened AlarmPassLaws
  import opened AlarmPassOutcome

  /** One rule calls the series recovered while a rule on the same series, itself perhaps, would open it. */
  ghost predicate Clash(c: Check, d: Check) {
    SameSeries(c, d) && c.recovered && d.opens.Some?
  }

  ghost predicate NoClash(checks: seq<Check>) {
    forall c, d :: c in checks && d in checks ==> !Clash(c, d)
  }

  /** No rule on the series of `c` recovers while `c` would open. */
  ghost predicate NoClashWith(checks: seq<Check>, c: Check) {
    forall d :: d in checks ==> !Clash(d, c)
  }

  ghost predicate IsStable(s: Store, deviceId: string, checks: seq<Check>, now: int) {
    var once := RunPass(s, deviceId, checks, now);
    RunPass(once, deviceId, checks, now) == once
  }

  // ----- what a pass leaves decided

  /** A recovered series is not open, and one that triggers is open or suppressed. */
  ghost predicate LeftDecided(t: Store, c: Check, now: int) {
    && (c.recovered ==> !HasOpen(t, CheckKey(c)))
    && (c.opens.Some? ==> HasOpen(t, CheckKey(c)) || HasActive(t, CheckKey(c), now))
  }

  lemma PassDecides(s: Store, deviceId: string, checks: seq<Check>, c: Check, now: int, deviceOf: string -> string)
    requires Safe(s, now, deviceOf) && ChecksOk(checks, deviceId, deviceOf) && c in checks && NoClashWith(checks, c)
    ensures LeftDecided(RunPass(s, deviceId, checks, now), c, now)
  {
    var i :| 0 <= i < |checks| && checks[i] == c;
    PassOutcome(s, deviceId, checks, i, now, deviceOf);
    OutcomeDecides(s, RunPass(s, deviceId, checks, now), checks, i, now);
  }

  lemma OutcomeDecides(s: Store, t: Store, checks: seq<Check>, i: nat, now: int)
    requires i < |checks| && NoClashWith(checks, checks[i]) && SharedOutcome(s, t, checks, i, now)
    ensures LeftDecided(t, checks[i], now)
  {
    var c := checks[i];
    assert c in checks;
    if c.recovered {
      EndsItself(s, checks, i);
    } else if c.opens.Some? {
      forall j | 0 <= j < |checks| ensures !Resolves(s, checks[j], c) {
        assert checks[j] in checks && !Clash(checks[j], c);
      }
      if HasActive(s, CheckKey(c), now) {
        var id: nat :| IsActiveRow(s, id, CheckKey(c), now);
        assert IsActiveRow(t, id, CheckKey(c), now);
      }
    }
  }

  /** The alarms of two clashing rules; none where the later passes flap by themselves. */
  function ClashStore(d: Check, c: Check, now: int): Store {
    AllOpen(if c.recovered then [] else [c, d], now)
  }

  lemma ClashShows(checks: seq<Check>, d: Check, c: Check, deviceId: string, now: int, deviceOf: string -> string)
    requires ChecksOk(checks, deviceId, deviceOf) && c in checks && d in checks && Clash(d, c)
    ensures var s := ClashStore(d, c, now);
            Safe(s, now, deviceOf) && !LeftDecided(RunPass(s, deviceId, checks, now), c, now)
  {
    var i :| 0 <= i < |checks| && checks[i] == c;
    if c.recovered {
      OpensFromNothing(checks, i, deviceId, now, deviceOf);
    } else {
      var j :| 0 <= j < |checks| && checks[j] == d;
      BothAreEnded(checks, i, j, deviceId, now, deviceOf);
    }
  }

  lemma OpensFromNothing(checks: seq<Check>, i: nat, deviceId: string, now: int, deviceOf: string -> string)
    requires ChecksOk(checks, deviceId, deviceOf) && i < |checks| && checks[i].opens.Some?
    ensures var s := AllOpen([], now);
            Safe(s, now, deviceOf) && HasOpen(RunPass(s, deviceId, checks, now), CheckKey(checks[i]))
  {
    var s := AllOpen([], now);
    AllOpenIsSafe([], deviceId, now, deviceOf);
    PassOutcome(s, deviceId, checks, i, now, deviceOf);
    forall key ensures !HasOpen(s, key) {
      OnlyTheseAreOpen([], key, now);
    }
  }

  lemma BothAreEnded(checks: seq<Check>, i: nat, j: nat, deviceId: string, now: int, deviceOf: string -> string)
    requires ChecksOk(checks, deviceId, deviceOf) && i < |checks| && j < |checks|
    requires Clash(checks[j], checks[i]) && !checks[i].recovered
    ensures var s, key := AllOpen([checks[i], checks[j]], now), CheckKey(checks[i]);
            var t := RunPass(s, deviceId, checks, now);
            Safe(s, now, deviceOf) && !HasOpen(t, key) && !HasActive(t, key, now)
  {
    var c, d := checks[i], checks[j];
    assert c in checks && d in checks && c in [c, d] && d in [c, d];
    KeysDiffer(checks, c, d);
    AllOpenIsSafe([c, d], deviceId, now, deviceOf);
    PassOutcome(AllOpen([c, d], now), deviceId, checks, i, now, deviceOf);
    assert Resolves(AllOpen([c, d], now), checks[j], c);
  }

  /** Over all safe stores a pass leaves a series decided exactly when no rule on it clashes with it. */
  lemma DecidedExactly(checks: seq<Check>, c: Check, deviceId: string, now: int, deviceOf: string -> string)
    requires ChecksOk(checks, deviceId, deviceOf) && c in checks
    ensures (forall s :: Safe(s, now, deviceOf) ==> LeftDecided(RunPass(s, deviceId, checks, now), c, now)) <==>
            NoClashWith(checks, c)
  {
    if NoClashWith(checks, c) {
      forall s | Safe(s, now, deviceOf) ensures LeftDecided(RunPass(s, deviceId, checks, now), c, now) {
        PassDecides(s, deviceId, checks, c, now, deviceOf);
      }
    } else {
      var d :| d in checks && Clash(d, c);
      ClashShows(checks, d, c, deviceId, now, deviceOf);
    }
  }

  // ----- settled: nothing left to do for a check

  ghost predicate Settled(s: Store, c: Check, now: int) {
    var key := CheckKey(c);
    && (forall id: nat :: IsOpenRow(s, id, key) ==>
          !c.recovered
          && !(c.escalates && c.opens.Some? && SeverityRank(c.opens.value) > SeverityRank(s.alarms[id].severity)))
    && (forall id: nat :: IsActiveRow(s, id, key, now) ==> !(c.recovered && s.suppressions[id].mode == UNTIL_CLEAR))
    && (c.opens.Some? ==> HasOpen(s, key) || HasActive(s, key, now))
  }

  lemma SettledStepDoesNothing(p: Pass, c: Check, now: int)
    requires Mirrors(p, CheckKey(c), now) && Settled(p.store, c, now)
    ensures Step(p, c, now) == p
  {
    var key := CheckKey(c);
    assert key in p.open ==> IsOpenRow(p.store, p.open[key], key);
    assert key in p.suppressed ==> IsActiveRow(p.store, p.suppressed[key], key, now);
  }

  lemma {:induction false} SettledRunDoesNothing(p: Pass, checks: seq<Check>, now: int)
    requires forall c :: c in checks ==> Mirrors(p, CheckKey(c), now) && Settled(p.store, c, now)
    ensures Run(p, checks, now) == p
  {
    if checks == [] {
    } else {
      var last := |checks| - 1;
      SettledRunDoesNothing(p, checks[..last], now);
      assert checks[last] in checks;
      SettledStepDoesNothing(p, checks[last], now);
    }
  }

  lemma OutcomeSettles(s: Store, t: Store, checks: seq<Check>, i: nat, now: int, deviceOf: string -> string)
    requires i < |checks| && NoClashWith(checks, checks[i]) && SharedOutcome(s, t, checks, i, now)
    requires Safe(s, now, deviceOf) && Extends(s, t)
    ensures Settled(t, checks[i], now)
  {
    var c, key := checks[i], CheckKey(checks[i]);
    OutcomeDecides(s, t, checks, i, now);
    forall id: nat | IsOpenRow(t, id, key)
      ensures !(c.escalates && c.opens.Some? && SeverityRank(c.opens.value) > SeverityRank(t.alarms[id].severity))
    {
    }
    forall id: nat | IsActiveRow(t, id, key, now) ensures !(c.recovered && t.suppressions[id].mode == UNTIL_CLEAR) {
      assert IsActiveRow(s, id, key, now) && SameSuppressionLater(s.suppressions[id], t.suppressions[id]);
    }
  }

  /** The same pass again, on the same samples and clock, changes no row, however many rules watch a series. */
  lemma PassIsIdempotent(s: Store, deviceId: string, checks: seq<Check>, now: int, deviceOf: string -> string)
    requires Safe(s, now, deviceOf) && ChecksOk(checks, deviceId, deviceOf) && NoClash(checks)
    ensures IsStable(s, deviceId, checks, now)
  {
    var once := RunPass(s, deviceId, checks, now);
    PassIsSafe(s, deviceId, checks, now, deviceOf);
    forall c | c in checks
      ensures Mirrors(Start(once, deviceId, now), CheckKey(c), now) && Settled(once, c, now)
    {
      var i :| 0 <= i < |checks| && checks[i] == c;
      StartMirrors(once, c, deviceId, now, deviceOf);
      PassOutcome(s, deviceId, checks, i, now, deviceOf);
      OutcomeSettles(s, once, checks, i, now, deviceOf);
    }
    SettledRunDoesNothing(Start(once, deviceId, now), checks, now);
  }

  // ----- a clash always has a store that shows it

  /** Whatever rules watch a series, a pass that changes nothing leaves it decided. */
  lemma FixpointIsDecided(t: Store, checks: seq<Check>, i: nat, deviceId: string, now: int, deviceOf: string -> string)
    requires Safe(t, now, deviceOf) && ChecksOk(checks, deviceId, deviceOf) && i < |checks|
    requires RunPass(t, deviceId, checks, now) == t
    ensures LeftDecided(t, checks[i], now)
  {
    var c := checks[i];
    PassOutcome(t, deviceId, checks, i, now, deviceOf);
    EndsItself(t, checks, i);
    if EndedFrom(t, checks, i + 1, c) {
      var j :| i + 1 <= j < |checks| && Resolves(t, checks[j], c);
      PassOutcome(t, deviceId, checks, j, now, deviceOf);
      EndsItself(t, checks, j);
    }
  }

  lemma ClashIsNotStable(checks: seq<Check>, d: Check, c: Check, deviceId: string, now: int, deviceOf: string -> string)
    requires ChecksOk(checks, deviceId, deviceOf) && d in checks && c in checks && Clash(d, c)
    ensures var s := ClashStore(d, c, now); Safe(s, now, deviceOf) && !IsStable(s, deviceId, checks, now)
  {
    var s := ClashStore(d, c, now);
    var i :| 0 <= i < |checks| && checks[i] == c;
    ClashShows(checks, d, c, deviceId, now, deviceOf);
    PassIsSafe(s, deviceId, checks, now, deviceOf);
    if IsStable(s, deviceId, checks, now) {
      FixpointIsDecided(RunPass(s, deviceId, checks, now), checks, i, deviceId, now, deviceOf);
    }
  }

  /**
   * A pass is idempotent on every safe store exactly when no rule calls a series
   * recovered that a rule on the same series, itself included, would open.
   */
  lemma IdempotentExactly(deviceId: string, checks: seq<Check>, now: int, deviceOf: string -> string)
    requires ChecksOk(checks, deviceId, deviceOf)
    ensures (forall s :: Safe(s, now, deviceOf) ==> IsStable(s, deviceId, checks, now)) <==> NoClash(checks)
  {
    if NoClash(checks) {
      forall s | Safe(s, now, deviceOf) ensures IsStable(s, deviceId, checks, now) {
        PassIsIdempotent(s, deviceId, checks, now, deviceOf);
      }
    } else {
      var d, c :| d in checks && c in checks && Clash(d, c);
      ClashIsNotStable(checks, d, c, deviceId, now, deviceOf);
    }
  }
}
