/**
 * The bounded render queue: jobs wait in submission order, at most
 * `concurrency` of them run, and a settled job (resolved or rejected) makes
 * room for the next one.
 */
module RenderQueue {

  /** The queue with what happened to it so far: who was submitted, started, settled. */
  datatype State<!J> = State(
    waiting: seq<J>,
    running: nat,
    submitted: seq<J>,
    started: seq<J>,
    active: multiset<J>,
    settled: multiset<J>)

  datatype Event<J> = Submit(job: J) | Settle(job: J)

  function Initial<J(==)>(): State<J> {
    State([], 0, [], [], multiset{}, multiset{})
  }

  /** One attempt to start the job that has waited longest. */
  function Next<J(==)>(s: State<J>, concurrency: real): State<J> {
    if s.running as real >= concurrency || s.waiting == [] then s
    else
      var job := s.waiting[0];
      s.(waiting := s.waiting[1..],
         running := s.running + 1,
         started := s.started + [job],
         active := s.active + multiset{job})
  }

  function AfterSubmit<J(==)>(s: State<J>, job: J, concurrency: real): State<J> {
    Next(s.(waiting := s.waiting + [job], submitted := s.submitted + [job]), concurrency)
  }

  function AfterSettle<J(==)>(s: State<J>, job: J, concurrency: real): State<J>
    requires s.running > 0
  {
    Next(Freed(s, job), concurrency)
  }

  function Freed<J(==)>(s: State<J>, job: J): State<J>
    requires s.running > 0
  {
    s.(running := s.running - 1, active := s.active - multiset{job}, settled := s.settled + multiset{job})
  }

  // ----- every interleaving

  ghost predicate Possible<J>(s: State<J>, events: seq<Event<J>>, concurrency: real)
    decreases events
  {
    events == [] ||
    (CanHappen(s, events[0]) && Possible(After(s, events[0], concurrency), events[1..], concurrency))
  }

  /** Only an active job can settle. */
  ghost predicate CanHappen<J>(s: State<J>, event: Event<J>) {
    event.Settle? ==> event.job in s.active && s.running > 0
  }

  lemma SettlingIsPossible<J>(s: State<J>, job: J, concurrency: real)
    requires Invariant(s, concurrency) && job in s.active
    ensures CanHappen(s, Settle(job))
  {
    assert s.active == s.active - multiset{job} + multiset{job};
  }

  ghost function After<J>(s: State<J>, event: Event<J>, concurrency: real): State<J>
    requires CanHappen(s, event)
  {
    match event
    case Submit(job) => AfterSubmit(s, job, concurrency)
    case Settle(job) => AfterSettle(s, job, concurrency)
  }

  ghost function Outcome<J>(s: State<J>, events: seq<Event<J>>, concurrency: real): State<J>
    requires Possible(s, events, concurrency)
    decreases events
  {
    if events == [] then s
    else Outcome(After(s, events[0], concurrency), events[1..], concurrency)
  }

  ghost predicate Invariant<J>(s: State<J>, concurrency: real) {
    // jobs start in the order they were submitted
    && s.started + s.waiting == s.submitted
    && multiset(s.started) == s.active + s.settled
    && s.running == |s.active|
    && s.running as real < concurrency + 1.0
    // somebody waits only while the queue is full
    && (s.waiting != [] ==> s.running as real >= concurrency)
  }

  /** What holds just before an attempt to start a job: at most one job may be missing. */
  ghost predicate AlmostFull<J>(s: State<J>, concurrency: real) {
    && s.started + s.waiting == s.submitted
    && multiset(s.started) == s.active + s.settled
    && s.running == |s.active|
    && s.running as real < concurrency + 1.0
    && (|s.waiting| > 1 ==> s.running as real >= concurrency - 1.0)
  }

  lemma NextRestoresInvariant<J>(s: State<J>, concurrency: real)
    requires AlmostFull(s, concurrency)
    ensures Invariant(Next(s, concurrency), concurrency)
  {
    if !(s.running as real >= concurrency || s.waiting == []) {
      var t := Next(s, concurrency);
      assert t.started + t.waiting == s.started + ([s.waiting[0]] + s.waiting[1..]);
      assert [s.waiting[0]] + s.waiting[1..] == s.waiting;
    }
  }

  lemma FreedIsAlmostFull<J>(s: State<J>, job: J, concurrency: real)
    requires Invariant(s, concurrency) && job in s.active
    ensures s.running > 0 && AlmostFull(Freed(s, job), concurrency)
  {
    SettlingIsPossible(s, job, concurrency);
  }

  lemma SubmittedIsAlmostFull<J>(s: State<J>, job: J, concurrency: real)
    requires Invariant(s, concurrency)
    ensures AlmostFull(s.(waiting := s.waiting + [job], submitted := s.submitted + [job]), concurrency)
  {
    assert s.started + (s.waiting + [job]) == s.started + s.waiting + [job];
  }

  lemma StepKeepsInvariant<J>(s: State<J>, event: Event<J>, concurrency: real)
    requires concurrency >= 1.0 && Invariant(s, concurrency) && CanHappen(s, event)
    ensures Invariant(After(s, event, concurrency), concurrency)
    ensures s.started <= After(s, event, concurrency).started
    ensures s.submitted <= After(s, event, concurrency).submitted
  {
    match event
    case Submit(job) =>
      SubmittedIsAlmostFull(s, job, concurrency);
      NextRestoresInvariant(s.(waiting := s.waiting + [job], submitted := s.submitted + [job]), concurrency);
    case Settle(job) =>
      var t := Freed(s, job);
      FreedIsAlmostFull(s, job, concurrency);
      NextRestoresInvariant(t, concurrency);
  }

  /**
   * Safety over every run from the empty queue: order, conservation of jobs and
   * the bound. A whole-numbered limit is never exceeded at all.
   */
  lemma EveryRunIsSafe<J>(events: seq<Event<J>>, concurrency: real)
    requires concurrency >= 1.0 && Possible(Initial<J>(), events, concurrency)
    ensures var s := Outcome(Initial<J>(), events, concurrency);
            && Invariant(s, concurrency)
            && multiset(s.submitted) == multiset(s.waiting) + s.active + s.settled
            && (concurrency == concurrency.Floor as real ==> s.running <= concurrency.Floor)
            && (s.waiting != [] ==> s.running > 0)
  {
    RunKeepsInvariant(Initial<J>(), events, concurrency);
    var s := Outcome(Initial<J>(), events, concurrency);
    assert multiset(s.started + s.waiting) == multiset(s.started) + multiset(s.waiting);
  }

  lemma {:induction false} RunKeepsInvariant<J>(s: State<J>, events: seq<Event<J>>, concurrency: real)
    requires concurrency >= 1.0 && Invariant(s, concurrency) && Possible(s, events, concurrency)
    ensures Invariant(Outcome(s, events, concurrency), concurrency)
    ensures s.started <= Outcome(s, events, concurrency).started
    ensures s.submitted <= Outcome(s, events, concurrency).submitted
    decreases events
  {
    if events == [] {
    } else {
      StepKeepsInvariant(s, events[0], concurrency);
      RunKeepsInvariant(After(s, events[0], concurrency), events[1..], concurrency);
    }
  }

  ghost function Settlements<J>(events: seq<Event<J>>): nat {
    if events == [] then 0
    else (if events[0].Settle? then 1 else 0) + Settlements(events[1..])
  }

  /** While somebody waits a submission starts nobody and a settlement starts exactly one. */
  lemma StepStarts<J>(s: State<J>, event: Event<J>, concurrency: real)
    requires concurrency >= 1.0 && Invariant(s, concurrency) && CanHappen(s, event) && s.waiting != []
    ensures var t := After(s, event, concurrency);
            if event.Submit? then |t.started| == |s.started| && |t.waiting| == |s.waiting| + 1
            else |t.started| == |s.started| + 1 && |t.waiting| == |s.waiting| - 1
  {
  }

  lemma {:induction false} EnoughStart<J>(s: State<J>, position: nat, events: seq<Event<J>>, concurrency: real)
    requires concurrency >= 1.0 && Invariant(s, concurrency) && Possible(s, events, concurrency)
    requires position < |s.waiting| && Settlements(events) > position
    ensures |Outcome(s, events, concurrency).started| > |s.started| + position
    decreases events
  {
    var t := After(s, events[0], concurrency);
    StepKeepsInvariant(s, events[0], concurrency);
    StepStarts(s, events[0], concurrency);
    if events[0].Submit? {
      EnoughStart(t, position, events[1..], concurrency);
    } else if position > 0 {
      EnoughStart(t, position - 1, events[1..], concurrency);
    } else {
      RunKeepsInvariant(t, events[1..], concurrency);
    }
  }

  /**
   * Whatever is submitted meanwhile and whichever jobs settle, the job with
   * `position` others ahead of it has started once `position + 1` jobs settled.
   */
  lemma EveryJobStarts<J>(s: State<J>, position: nat, events: seq<Event<J>>, concurrency: real)
    requires concurrency >= 1.0 && Invariant(s, concurrency) && Possible(s, events, concurrency)
    requires position < |s.waiting|
    requires Settlements(events) > position
    ensures |Outcome(s, events, concurrency).started| > |s.started| + position
    ensures Outcome(s, events, concurrency).started[|s.started| + position] == s.waiting[position]
  {
    var last, k := Outcome(s, events, concurrency), |s.started| + position;
    EnoughStart(s, position, events, concurrency);
    RunKeepsInvariant(s, events, concurrency);
    assert (s.started + s.waiting)[k] == s.waiting[position];
    assert (last.started + last.waiting)[k] == last.started[k];
  }

  lemma StartedOrSettled<J>(s: State<J>, concurrency: real)
    requires Invariant(s, concurrency)
    ensures s.running + |s.settled| == |s.started|
    ensures |s.waiting| + |s.started| == |s.submitted|
  {
    assert |multiset(s.started)| == |s.started|;
    assert |s.started + s.waiting| == |s.submitted|;
  }

  // ----- the queue itself

  class Queue<J(==)> {
    const concurrency: real
    var waiting: seq<J>
    var running: nat
    ghost var history: State<J>

    /** The fields are those of the history. */
    ghost predicate Agrees()
      reads this
    {
      waiting == history.waiting && running == history.running
    }

    ghost predicate Valid()
      reads this
    {
      concurrency >= 1.0 && Agrees() && Invariant(history, concurrency)
    }

    /** An absent limit is 1, and no limit is below 1. */
    constructor (limit: real, limitIsGiven: bool)
      ensures Valid() && history == Initial()
      ensures concurrency == if limitIsGiven && limit > 1.0 then limit else 1.0
    {
      concurrency := if limitIsGiven && limit > 1.0 then limit else 1.0;
      waiting, running, history := [], 0, Initial();
    }

    method StartNext()
      requires Agrees()
      modifies this
      ensures Agrees() && history == Next(old(history), concurrency)
    {
      history := Next(history, concurrency);
      if running as real >= concurrency {
        return;
      }
      if |waiting| == 0 {
        return;
      }
      waiting := waiting[1..];
      running := running + 1;
    }

    method Run(job: J)
      requires Valid()
      modifies this
      ensures Valid() && history == AfterSubmit(old(history), job, concurrency)
    {
      StepKeepsInvariant(history, Submit(job), concurrency);
      waiting := waiting + [job];
      history := history.(waiting := waiting, submitted := history.submitted + [job]);
      StartNext();
    }

    /** A running job resolved or rejected. */
    method Finish(job: J)
      requires Valid() && job in history.active
      modifies this
      ensures Valid() && history == AfterSettle(old(history), job, concurrency)
    {
      SettlingIsPossible(history, job, concurrency);
      StepKeepsInvariant(history, Settle(job), concurrency);
      running := running - 1;
      history := Freed(history, job);
      StartNext();
    }

    /** Who was submitted and has not started; nobody is as long as there is room. */
    method Pending() returns (count: nat)
      requires Valid()
      ensures count + |history.started| == |history.submitted|
      ensures count > 0 ==> |history.started| as real >= concurrency + |history.settled| as real
    {
      StartedOrSettled(history, concurrency);
      count := |waiting|;
    }

    /** Who has started and not settled. */
    method Active() returns (count: nat)
      requires Valid()
      ensures count + |history.settled| == |history.started|
      ensures count as real < concurrency + 1.0
    {
      StartedOrSettled(history, concurrency);
      count := running;
    }
  }
}
