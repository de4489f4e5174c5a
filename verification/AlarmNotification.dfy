/** Media notifications of alarms: marks kept with the alarm, retries held back by a cooldown. */
module AlarmNotification {
  import opened Options
  import opened Grouping
  import opened AlarmStore

  /** The part of a persisted alarm that notification reads and marks. */
  datatype Row = Row(
    severity: Severity, ended: bool,
    notifiedAt: Option<int>, notifiedSeverity: Option<Severity>, resolutionNotifiedAt: Option<int>)

  datatype Kind = OPENED | ESCALATED | RESOLVED

  datatype Key = Key(id: nat, kind: Kind, severity: Severity)

  datatype State = State(rows: seq<Row>, nextAttemptAt: map<Key, int>)

  /** What became of one dispatched event; MUTED is media switched off by the rule, RAISED a transport that threw. */
  datatype Outcome = SENT | SKIPPED | FAILED | RAISED | MUTED

  datatype Attempt = Attempt(key: Key, now: int, outcome: Outcome)

  predicate Handled(a: Attempt) {
    a.outcome == SENT || a.outcome == SKIPPED || a.outcome == MUTED
  }

  function Marked(row: Row, kind: Kind, now: int): Row {
    if kind == RESOLVED then row.(resolutionNotifiedAt := Some(now))
    else row.(notifiedSeverity := Some(row.severity), notifiedAt := Some(now))
  }

  function Mark(st: State, id: nat, kind: Kind, now: int): State
    requires id < |st.rows|
  {
    st.(rows := st.rows[id := Marked(st.rows[id], kind, now)])
  }

  function NextAttempt(st: State, key: Key): int {
    if key in st.nextAttemptAt then st.nextAttemptAt[key] else 0
  }

  /** `published` is what the transport answers if it is asked. */
  function Dispatch(st: State, kind: Kind, id: nat, media: bool, now: int, published: Outcome,
                    cooldown: nat): (State, seq<Attempt>)
    requires id < |st.rows|
  {
    var key := Key(id, kind, st.rows[id].severity);
    if !media then (Mark(st, id, kind, now), [Attempt(key, now, MUTED)])
    else if NextAttempt(st, key) > now then (st, [])
    else
      match published
      case SENT => (Mark(st, id, kind, now).(nextAttemptAt := st.nextAttemptAt - {key}), [Attempt(key, now, SENT)])
      case SKIPPED => (Mark(st, id, kind, now).(nextAttemptAt := st.nextAttemptAt - {key}),
                       [Attempt(key, now, SKIPPED)])
      case FAILED => (st.(nextAttemptAt := st.nextAttemptAt[key := now + cooldown]), [Attempt(key, now, FAILED)])
      case _ => (st, [Attempt(key, now, RAISED)])
  }

  function Notify(st: State, kind: Kind, id: nat, media: bool, now: int, published: Outcome,
                  cooldown: nat): (State, seq<Attempt>)
    requires id < |st.rows|
    decreases if kind == ESCALATED then 1 else 0
  {
    var row := st.rows[id];
    match kind
    case OPENED =>
      if row.notifiedAt.Some? then (st, []) else Dispatch(st, OPENED, id, media, now, published, cooldown)
    case ESCALATED =>
      if row.ended then (st, [])
      else if row.notifiedSeverity.None? then Notify(st, OPENED, id, media, now, published, cooldown)
      else if SeverityRank(row.severity) <= SeverityRank(row.notifiedSeverity.value) then (st, [])
      else Dispatch(st, ESCALATED, id, media, now, published, cooldown)
    case RESOLVED =>
      if row.resolutionNotifiedAt.Some? then (st, []) else Dispatch(st, RESOLVED, id, media, now, published, cooldown)
  }

  class AlarmTable {
    var rows: seq<Row>

    constructor (initial: seq<Row>)
      ensures rows == initial
    {
      rows := initial;
    }
  }

  const DEFAULT_RETRY_COOLDOWN_MS: nat := 5 * 60_000

  class AlarmNotificationService {
    const alarms: AlarmTable
    const retryCooldownMs: nat
    var nextAttemptAt: map<Key, int>

    constructor (table: AlarmTable, cooldown: Option<nat>)
      ensures alarms == table && nextAttemptAt == map[]
      ensures retryCooldownMs == if cooldown.Some? then cooldown.value else 300000
    {
      alarms := table;
      retryCooldownMs := if cooldown.Some? then cooldown.value else DEFAULT_RETRY_COOLDOWN_MS;
      nextAttemptAt := map[];
    }

    ghost function Now(): State
      reads this, alarms
    {
      State(alarms.rows, nextAttemptAt)
    }

    method NotifyOpened(id: nat, media: bool, now: int, published: Outcome) returns (attempts: seq<Attempt>)
      requires id < |alarms.rows|
      modifies this, alarms
      ensures (Now(), attempts) == Notify(old(Now()), OPENED, id, media, now, published, retryCooldownMs)
    {
      if alarms.rows[id].notifiedAt.Some? {
        return [];
      }
      attempts := DispatchEvent(OPENED, id, media, now, published);
    }

    method NotifyEscalated(id: nat, media: bool, now: int, published: Outcome) returns (attempts: seq<Attempt>)
      requires id < |alarms.rows|
      modifies this, alarms
      ensures (Now(), attempts) == Notify(old(Now()), ESCALATED, id, media, now, published, retryCooldownMs)
    {
      var alarm := alarms.rows[id];
      if alarm.ended {
        return [];
      }
      if alarm.notifiedSeverity.None? {
        attempts := NotifyOpened(id, media, now, published);
        return;
      }
      if SeverityRank(alarm.severity) <= SeverityRank(alarm.notifiedSeverity.value) {
        return [];
      }
      attempts := DispatchEvent(ESCALATED, id, media, now, published);
    }

    method NotifyResolved(id: nat, media: bool, now: int, published: Outcome) returns (attempts: seq<Attempt>)
      requires id < |alarms.rows|
      modifies this, alarms
      ensures (Now(), attempts) == Notify(old(Now()), RESOLVED, id, media, now, published, retryCooldownMs)
    {
      if alarms.rows[id].resolutionNotifiedAt.Some? {
        return [];
      }
      attempts := DispatchEvent(RESOLVED, id, media, now, published);
    }

    method DispatchEvent(kind: Kind, id: nat, media: bool, now: int, published: Outcome)
      returns (attempts: seq<Attempt>)
      requires id < |alarms.rows|
      modifies this, alarms
      ensures (Now(), attempts) == Dispatch(old(Now()), kind, id, media, now, published, retryCooldownMs)
    {
      var key := Key(id, kind, alarms.rows[id].severity);
      if !media {
        MarkHandled(id, kind, now);
        return [Attempt(key, now, MUTED)];
      }
      if (if key in nextAttemptAt then nextAttemptAt[key] else 0) > now {
        return [];
      }
      if published == SENT || published == SKIPPED {
        MarkHandled(id, kind, now);
        nextAttemptAt := nextAttemptAt - {key};
        return [Attempt(key, now, published)];
      }
      if published == FAILED {
        nextAttemptAt := nextAttemptAt[key := now + retryCooldownMs];
        return [Attempt(key, now, FAILED)];
      }
      attempts := [Attempt(key, now, RAISED)];
    }

    method MarkHandled(id: nat, kind: Kind, now: int)
      requires id < |alarms.rows|
      modifies alarms
      ensures alarms.rows == old(alarms.rows)[id := Marked(old(alarms.rows)[id], kind, now)]
    {
      var alarm := alarms.rows[id];
      if kind == RESOLVED {
        alarms.rows := alarms.rows[id := alarm.(resolutionNotifiedAt := Some(now))];
        return;
      }
      alarms.rows := alarms.rows[id := alarm.(notifiedSeverity := Some(alarm.severity), notifiedAt := Some(now))];
    }
  }

  // ----- any run of calls, with the alarms changing in between and the process restarting

  datatype Event =
    | Call(kind: Kind, id: nat, media: bool, now: int, published: Outcome)
    | Opening(severity: Severity)
    | Change(id: nat, severity: Severity, ended: bool)
    | Restart

  function React(st: State, e: Event, cooldown: nat): (State, seq<Attempt>) {
    match e
    case Call(kind, id, media, now, published) =>
      if id < |st.rows| then Notify(st, kind, id, media, now, published, cooldown) else (st, [])
    case Opening(severity) => (st.(rows := st.rows + [Row(severity, false, None, None, None)]), [])
    case Change(id, severity, ended) =>
      if id < |st.rows| then (st.(rows := st.rows[id := st.rows[id].(severity := severity, ended := ended)]), [])
      else (st, [])
    case Restart => (st.(nextAttemptAt := map[]), [])
  }

  /** The state after a run, every attempt made during it, and for each the number of restarts before it. */
  datatype Story = Story(st: State, log: seq<Attempt>, life: seq<nat>, restarts: nat)

  function Tell(before: Story, e: Event, cooldown: nat): (after: Story)
    ensures |before.life| == |before.log| ==> |after.life| == |after.log|
  {
    var (next, made) := React(before.st, e, cooldown);
    Story(next, before.log + made, before.life + seq(|made|, _ => before.restarts),
          before.restarts + if e.Restart? then 1 else 0)
  }

  function Told(events: seq<Event>, cooldown: nat): (story: Story)
    ensures |story.life| == |story.log|
  {
    if events == [] then Story(State([], map[]), [], [], 0)
    else Tell(Told(events[..|events| - 1], cooldown), events[|events| - 1], cooldown)
  }

  /** The marks say that nothing is left to send under this key. */
  ghost predicate Done(st: State, key: Key) {
    key.id < |st.rows| &&
    var row := st.rows[key.id];
    if key.kind == RESOLVED then row.resolutionNotifiedAt.Some?
    else row.notifiedSeverity.Some? && SeverityRank(row.notifiedSeverity.value) >= SeverityRank(key.severity)
  }

  ghost predicate RowOk(row: Row) {
    row.notifiedAt.Some? <==> row.notifiedSeverity.Some?
  }

  ghost predicate Cooling(st: State, a: Attempt, cooldown: nat) {
    a.outcome == FAILED ==> Done(st, a.key) || NextAttempt(st, a.key) >= a.now + cooldown
  }

  /** What an earlier attempt rules out for a later one, restarts or not. */
  ghost predicate Announced(a: Attempt, b: Attempt) {
    && (Handled(a) && a.key.id == b.key.id && a.key.kind == RESOLVED ==> b.key.kind != RESOLVED)
    && (Handled(a) && a.key.id == b.key.id && a.key.kind != RESOLVED && b.key.kind != RESOLVED ==>
          b.key.kind == ESCALATED && SeverityRank(b.key.severity) > SeverityRank(a.key.severity))
  }

  /** What it rules out as long as the process lives. */
  ghost predicate HeldBack(a: Attempt, b: Attempt, cooldown: nat) {
    a.outcome == FAILED && a.key == b.key && b.outcome != MUTED ==> b.now >= a.now + cooldown
  }

  ghost predicate Remembered(st: State, a: Attempt) {
    Handled(a) ==> Done(st, a.key)
  }

  ghost predicate Consistent(story: Story, cooldown: nat) {
    && |story.life| == |story.log|
    && (forall row :: row in story.st.rows ==> RowOk(row))
    && (forall i :: 0 <= i < |story.log| ==> Remembered(story.st, story.log[i]) && story.life[i] <= story.restarts)
    && (forall i :: 0 <= i < |story.log| && story.life[i] == story.restarts ==>
        Cooling(story.st, story.log[i], cooldown))
  }

  ghost predicate Lawful(story: Story, cooldown: nat)
    requires |story.life| == |story.log|
  {
    forall i, j :: 0 <= i < j < |story.log| ==>
      Announced(story.log[i], story.log[j])
      && (story.life[i] == story.life[j] ==> HeldBack(story.log[i], story.log[j], cooldown))
  }

  /** One event: nothing said is forgotten, and whatever is attempted was allowed by what came before. */
  lemma AttemptIsAllowed(st: State, e: Event, a: Attempt, cooldown: nat)
    requires (forall row :: row in st.rows ==> RowOk(row)) && Remembered(st, a)
    ensures var (next, made) := React(st, e, cooldown);
            && Remembered(next, a)
            && (forall b :: b in made ==> Announced(a, b))
            && (Cooling(st, a, cooldown) && !e.Restart? ==>
                  Cooling(next, a, cooldown) && forall b :: b in made ==> HeldBack(a, b, cooldown))
  {
    var sent := EventDispatches(st, e, cooldown);
    if e.Call? && e.id < |st.rows| && Due(st.rows[e.id], sent) {
      DispatchIsAllowed(st, sent, e.id, e.media, e.now, e.published, cooldown, a);
    } else if Done(st, a.key) {
      DoneStaysDone(st, e, a.key, cooldown);
    }
    if Handled(a) {
      DoneStaysDone(st, e, a.key, cooldown);
    }
  }

  /** The guard of each kind of call: there is something left to say. */
  ghost predicate Due(row: Row, kind: Kind) {
    match kind
    case OPENED => row.notifiedSeverity.None?
    case ESCALATED =>
      row.notifiedSeverity.Some? && SeverityRank(row.severity) > SeverityRank(row.notifiedSeverity.value)
    case RESOLVED => row.resolutionNotifiedAt.None?
  }

  /** Every call either does nothing or dispatches one event that is due. */
  lemma NotifyDispatches(st: State, kind: Kind, id: nat, media: bool, now: int, published: Outcome, cooldown: nat)
    returns (sent: Kind)
    requires id < |st.rows| && RowOk(st.rows[id])
    ensures Notify(st, kind, id, media, now, published, cooldown) == (st, [])
            || (Due(st.rows[id], sent)
                && Notify(st, kind, id, media, now, published, cooldown)
                    == Dispatch(st, sent, id, media, now, published, cooldown))
  {
    sent := if kind == ESCALATED && st.rows[id].notifiedSeverity.None? then OPENED else kind;
  }

  /** What a call may still have to say of an alarm; one that has ended is not escalated. */
  ghost predicate HasNews(row: Row, kind: Kind) {
    match kind
    case OPENED => row.notifiedAt.None?
    case ESCALATED =>
      && !row.ended
      && (row.notifiedSeverity.None? || SeverityRank(row.severity) > SeverityRank(row.notifiedSeverity.value))
    case RESOLVED => row.resolutionNotifiedAt.None?
  }

  /** An alarm whose opening was never announced is announced instead of being escalated. */
  function KeySent(row: Row, kind: Kind, id: nat): Key {
    Key(id, if kind == ESCALATED && row.notifiedSeverity.None? then OPENED else kind, row.severity)
  }

  /**
   * A call attempts something exactly when there is news and either media is off or no retry of
   * the same event is waiting; it then attempts that one event, and its outcome is the transport's.
   */
  lemma NewsIsDispatched(st: State, kind: Kind, id: nat, media: bool, now: nat, published: Outcome, cooldown: nat)
    requires id < |st.rows| && RowOk(st.rows[id])
    ensures var (next, made) := Notify(st, kind, id, media, now, published, cooldown);
            var key := KeySent(st.rows[id], kind, id);
            && (made != [] <==>
                HasNews(st.rows[id], kind) && (media && key in st.nextAttemptAt ==> st.nextAttemptAt[key] <= now))
            && (made == [] ==> next == st)
            && (made != [] ==>
                  made == [Attempt(key, now, if !media then MUTED
                                   else if published == MUTED then RAISED else published)])
  {
  }

  /** Either nothing is attempted, or a due event is dispatched, or the alarms change from outside. */
  lemma EventDispatches(st: State, e: Event, cooldown: nat) returns (sent: Kind)
    requires forall row :: row in st.rows ==> RowOk(row)
    ensures React(st, e, cooldown).1 == [] || (e.Call? && e.id < |st.rows|)
    ensures e.Call? && e.id < |st.rows| ==>
              React(st, e, cooldown) == (st, [])
              || (Due(st.rows[e.id], sent)
                  && React(st, e, cooldown) == Dispatch(st, sent, e.id, e.media, e.now, e.published, cooldown))
  {
    sent := OPENED;
    if e.Call? && e.id < |st.rows| {
      assert st.rows[e.id] in st.rows;
      sent := NotifyDispatches(st, e.kind, e.id, e.media, e.now, e.published, cooldown);
    }
  }

  lemma DispatchKeepsDone(st: State, kind: Kind, id: nat, media: bool, now: int, published: Outcome, cooldown: nat,
                          key: Key)
    requires id < |st.rows| && Due(st.rows[id], kind) && Done(st, key)
    ensures Done(Dispatch(st, kind, id, media, now, published, cooldown).0, key)
  {
  }

  lemma DispatchIsAllowed(st: State, kind: Kind, id: nat, media: bool, now: int, published: Outcome, cooldown: nat,
                          a: Attempt)
    requires id < |st.rows| && Due(st.rows[id], kind) && Remembered(st, a)
    ensures var (next, made) := Dispatch(st, kind, id, media, now, published, cooldown);
            && (forall b :: b in made ==> Announced(a, b))
            && (Cooling(st, a, cooldown) ==>
                  Cooling(next, a, cooldown) && forall b :: b in made ==> HeldBack(a, b, cooldown))
  {
    if Done(st, a.key) {
      DispatchKeepsDone(st, kind, id, media, now, published, cooldown, a.key);
    }
  }

  /**
   * A handled event leaves nothing to send under its key, and its mark touches no other
   * alarm and neither the opening nor the resolution where the event was the other one.
   */
  lemma DispatchIsRecorded(st: State, kind: Kind, id: nat, media: bool, now: int, published: Outcome, cooldown: nat)
    requires id < |st.rows|
    ensures var (next, made) := Dispatch(st, kind, id, media, now, published, cooldown);
            && |made| <= 1
            && (forall b :: b in made ==> (Handled(b) ==> Done(next, b.key)) && Cooling(next, b, cooldown))
            && (forall key: Key :: key.id != id || (key.kind == RESOLVED) != (kind == RESOLVED) ==>
                Done(next, key) == Done(st, key))
            && (next.rows != st.rows ==> made != [] && Handled(made[0]))
  {
  }

  lemma RowsStayOk(st: State, e: Event, cooldown: nat)
    requires forall row :: row in st.rows ==> RowOk(row)
    ensures forall row :: row in React(st, e, cooldown).0.rows ==> RowOk(row)
  {
    var sent := EventDispatches(st, e, cooldown);
    var next := React(st, e, cooldown).0;
    forall i | 0 <= i < |next.rows| ensures RowOk(next.rows[i]) {
      assert i < |st.rows| ==> st.rows[i] in st.rows;
    }
  }

  lemma DoneStaysDone(st: State, e: Event, key: Key, cooldown: nat)
    requires (forall row :: row in st.rows ==> RowOk(row)) && Done(st, key)
    ensures Done(React(st, e, cooldown).0, key)
  {
    var sent := EventDispatches(st, e, cooldown);
    if e.Call? && e.id < |st.rows| && Due(st.rows[e.id], sent) {
      DispatchKeepsDone(st, sent, e.id, e.media, e.now, e.published, cooldown, key);
    }
  }

  lemma NewAttemptIsRecorded(st: State, e: Event, cooldown: nat)
    requires forall row :: row in st.rows ==> RowOk(row)
    ensures var (next, made) := React(st, e, cooldown);
            |made| <= 1 && forall b :: b in made ==> (Handled(b) ==> Done(next, b.key)) && Cooling(next, b, cooldown)
  {
    var sent := EventDispatches(st, e, cooldown);
    if e.Call? && e.id < |st.rows| {
      DispatchIsRecorded(st, sent, e.id, e.media, e.now, e.published, cooldown);
    }
  }

  lemma TellIsConsistent(before: Story, e: Event, cooldown: nat)
    requires Consistent(before, cooldown)
    ensures Consistent(Tell(before, e, cooldown), cooldown)
  {
    var after := Tell(before, e, cooldown);
    var (next, made) := React(before.st, e, cooldown);
    RowsStayOk(before.st, e, cooldown);
    NewAttemptIsRecorded(before.st, e, cooldown);
    forall i | 0 <= i < |before.log|
      ensures Remembered(next, before.log[i])
              && (before.life[i] == after.restarts ==> Cooling(next, before.log[i], cooldown))
    {
      AttemptIsAllowed(before.st, e, before.log[i], cooldown);
    }
    assert made != [] ==> made[0] in made;
  }

  /** The same attempts, and at most one more, which the earlier ones allow. */
  ghost predicate OneMore(before: Story, after: Story, cooldown: nat)
    requires |before.life| == |before.log| && |after.life| == |after.log|
  {
    var n := |before.log|;
    && n <= |after.log| <= n + 1 && after.log[..n] == before.log && after.life[..n] == before.life
    && (n < |after.log| ==> forall i :: 0 <= i < n ==>
          Announced(before.log[i], after.log[n])
          && (before.life[i] == after.life[n] ==> HeldBack(before.log[i], after.log[n], cooldown)))
  }

  lemma LawfulOneMore(before: Story, after: Story, cooldown: nat)
    requires |before.life| == |before.log| && |after.life| == |after.log|
    requires Lawful(before, cooldown) && OneMore(before, after, cooldown)
    ensures Lawful(after, cooldown)
  {
    forall i | 0 <= i < |before.log| ensures after.log[i] == before.log[i] && after.life[i] == before.life[i] {
      assert after.log[..|before.log|][i] == before.log[i] && after.life[..|before.log|][i] == before.life[i];
    }
  }

  lemma NewAttemptIsLawful(before: Story, e: Event, cooldown: nat)
    requires Consistent(before, cooldown)
    ensures OneMore(before, Tell(before, e, cooldown), cooldown)
  {
    var (next, made) := React(before.st, e, cooldown);
    NewAttemptIsRecorded(before.st, e, cooldown);
    forall i | 0 <= i < |before.log| && made != []
      ensures Announced(before.log[i], made[0])
      ensures before.life[i] == before.restarts ==> HeldBack(before.log[i], made[0], cooldown)
    {
      AttemptIsAllowed(before.st, e, before.log[i], cooldown);
      assert made[0] in made && !e.Restart?;
    }
  }

  lemma TellIsLawful(before: Story, e: Event, cooldown: nat)
    requires Consistent(before, cooldown) && Lawful(before, cooldown)
    ensures Lawful(Tell(before, e, cooldown), cooldown)
  {
    NewAttemptIsLawful(before, e, cooldown);
    LawfulOneMore(before, Tell(before, e, cooldown), cooldown);
  }

  lemma {:induction false} StoryIsConsistent(events: seq<Event>, cooldown: nat)
    ensures Consistent(Told(events, cooldown), cooldown) && Lawful(Told(events, cooldown), cooldown)
  {
    if events == [] {
    } else {
      var last := |events| - 1;
      StoryIsConsistent(events[..last], cooldown);
      TellIsConsistent(Told(events[..last], cooldown), events[last], cooldown);
      TellIsLawful(Told(events[..last], cooldown), events[last], cooldown);
    }
  }

  // ----- what follows for the receiver

  /** Over any run, restarts included, an announced opening or resolution is never so much as tried again. */
  lemma AnnouncedAtMostOnce(events: seq<Event>, cooldown: nat, i: nat, j: nat)
    requires i < j < |Told(events, cooldown).log|
    ensures var log := Told(events, cooldown).log;
            Handled(log[i]) && log[i].key.id == log[j].key.id && log[i].key.kind != ESCALATED ==>
              log[j].key.kind != log[i].key.kind
  {
    StoryIsConsistent(events, cooldown);
  }

  /** A handled announcement is followed by announcements of higher severity only. */
  lemma SeverityRisesStrictly(events: seq<Event>, cooldown: nat, i: nat, j: nat)
    requires i < j < |Told(events, cooldown).log|
    ensures var log := Told(events, cooldown).log;
            Handled(log[i]) && log[i].key.id == log[j].key.id && log[i].key.kind != RESOLVED
            && log[j].key.kind != RESOLVED ==>
              log[j].key.kind == ESCALATED && SeverityRank(log[j].key.severity) > SeverityRank(log[i].key.severity)
  {
    StoryIsConsistent(events, cooldown);
  }

  /**
   * After a failed publish the same alarm, event and severity is not published again
   * before the cooldown ends, unless the process restarts in between.
   */
  lemma CooldownIsRespected(events: seq<Event>, cooldown: nat, i: nat, j: nat)
    requires i < j < |Told(events, cooldown).log|
    ensures var story := Told(events, cooldown);
            story.log[i].outcome == FAILED && story.log[j].key == story.log[i].key && story.log[j].outcome != MUTED
            && story.life[i] == story.life[j] ==>
              story.log[j].now >= story.log[i].now + cooldown
  {
    StoryIsConsistent(events, cooldown);
  }

  function HandledEscalation(id: nat): Attempt -> bool {
    (a: Attempt) => Handled(a) && a.key.id == id && a.key.kind == ESCALATED
  }

  /** No run handles more than three escalations of one alarm. */
  lemma AtMostThreeEscalations(events: seq<Event>, cooldown: nat, id: nat)
    ensures Count(Told(events, cooldown).log, HandledEscalation(id)) <= 3
  {
    EscalationsAreCounted(events, cooldown, id);
  }

  ghost predicate Counted(story: Story, id: nat) {
    var n, rows := Count(story.log, HandledEscalation(id)), story.st.rows;
    n > 0 ==> id < |rows| && rows[id].notifiedSeverity.Some? && n < SeverityRank(rows[id].notifiedSeverity.value)
  }

  lemma {:induction false} EscalationsAreCounted(events: seq<Event>, cooldown: nat, id: nat)
    ensures Counted(Told(events, cooldown), id)
  {
    if events == [] {
    } else {
      var last := |events| - 1;
      EscalationsAreCounted(events[..last], cooldown, id);
      StoryIsConsistent(events[..last], cooldown);
      TellIsCounted(Told(events[..last], cooldown), events[last], cooldown, id);
    }
  }

  lemma TellIsCounted(before: Story, e: Event, cooldown: nat, id: nat)
    requires Consistent(before, cooldown) && Counted(before, id)
    ensures Counted(Tell(before, e, cooldown), id)
  {
    var made := React(before.st, e, cooldown).1;
    NewAttemptIsRecorded(before.st, e, cooldown);
    EscalationKept(before.st, e, cooldown, id);
    if made == [] {
      assert before.log + made == before.log;
    } else {
      assert made == [made[0]];
      CountOneMore(before.log, made[0], HandledEscalation(id));
    }
  }

  /** The notified severity never falls, and a handled escalation raises it. */
  lemma EscalationKept(st: State, e: Event, cooldown: nat, id: nat)
    requires forall row :: row in st.rows ==> RowOk(row)
    ensures var (next, made) := React(st, e, cooldown);
            && (id < |st.rows| && st.rows[id].notifiedSeverity.Some? ==>
                  id < |next.rows| && next.rows[id].notifiedSeverity.Some?
                  && SeverityRank(next.rows[id].notifiedSeverity.value)
                     >= SeverityRank(st.rows[id].notifiedSeverity.value))
            && (made != [] && HandledEscalation(id)(made[0]) ==>
                  id < |st.rows| && st.rows[id].notifiedSeverity.Some? && next.rows[id].notifiedSeverity.Some?
                  && SeverityRank(next.rows[id].notifiedSeverity.value)
                     > SeverityRank(st.rows[id].notifiedSeverity.value))
  {
    var sent := EventDispatches(st, e, cooldown);
  }

  lemma ToldOneMore(events: seq<Event>, e: Event, cooldown: nat)
    ensures Told(events + [e], cooldown) == Tell(Told(events, cooldown), e, cooldown)
  {
    assert (events + [e])[..|events|] == events;
  }

  /**
   * A restart forgets the cooldown: the failed opening is tried again at once, where the
   * same process would have waited for the cooldown to end.
   */
  lemma RestartForgetsTheCooldown(severity: Severity, first: nat, later: nat, cooldown: nat)
    ensures var failing, retrying := Call(OPENED, 0, true, first, FAILED), Call(OPENED, 0, true, later, SENT);
            var failed, sent := Attempt(Key(0, OPENED, severity), first, FAILED),
                Attempt(Key(0, OPENED, severity), later, SENT);
            && Told([Opening(severity), failing] + [Restart] + [retrying], cooldown).log == [failed, sent]
            && (Told([Opening(severity), failing] + [retrying], cooldown).log
                == if later < first + cooldown then [failed] else [failed, sent])
  {
    var failing, retrying := Call(OPENED, 0, true, first, FAILED), Call(OPENED, 0, true, later, SENT);
    var key := Key(0, OPENED, severity);
    ToldOneMore([], Opening(severity), cooldown);
    ToldOneMore([Opening(severity)], failing, cooldown);
    assert [] + [Opening(severity)] == [Opening(severity)]
           && [Opening(severity)] + [failing] == [Opening(severity), failing];
    var story := Told([Opening(severity), failing], cooldown);
    assert story.log == [Attempt(key, first, FAILED)] && story.st.nextAttemptAt == map[key := first + cooldown];
    ToldOneMore([Opening(severity), failing], retrying, cooldown);
    ToldOneMore([Opening(severity), failing], Restart, cooldown);
    ToldOneMore([Opening(severity), failing] + [Restart], retrying, cooldown);
  }

  /**
   * Every attempt leaves a mark or a cooldown behind, except one whose transport
   * threw: that one, and only that one, is made again by the very next call.
   */
  lemma OnlyAThrowIsForgotten(st: State, kind: Kind, id: nat, media: bool, now: int, published: Outcome, cooldown: nat)
    requires id < |st.rows| && RowOk(st.rows[id]) && cooldown > 0
    ensures var (next, made) := Notify(st, kind, id, media, now, published, cooldown);
            made != [] ==> (next == st <==> made[0].outcome == RAISED)
                           && (Notify(next, kind, id, media, now, published, cooldown).1 == made <==>
                               made[0].outcome == RAISED)
  {
    var sent := NotifyDispatches(st, kind, id, media, now, published, cooldown);
    var (next, made) := Notify(st, kind, id, media, now, published, cooldown);
    if made != [] && made[0].outcome == FAILED {
      assert NextAttempt(next, made[0].key) == now + cooldown;
    }
  }
}
