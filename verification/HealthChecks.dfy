/**
 One health check under its deadline (packages/health/src/HealthRegistry.ts:83-115): the check's own promise
 and the deadline's race, the abort timer drives the deadline, and the `finally` clears it. Every callback is
 one step, microtasks run in the order in which they were queued, and all of it in any order with the timer.
 */
module HealthChecks {
  import opened Wrappers

  const MAX_DETAIL_LENGTH := 120

  datatype Status = PassStatus | WarnStatus | FailStatus

  datatype CheckResult = CheckResult(status: Status, detail: Option<string>, observedValue: Option<real>)

  function Truncate(s: string): (r: string)
    ensures |r| <= MAX_DETAIL_LENGTH && r <= s
    ensures |s| <= MAX_DETAIL_LENGTH ==> r == s
  {
    if |s| <= MAX_DETAIL_LENGTH then s else s[..MAX_DETAIL_LENGTH]
  }

  function Sanitise(r: CheckResult): CheckResult {
    if r.detail.Some? then r.(detail := Some(Truncate(r.detail.value))) else r
  }

  /** The result of a check that failed with an error of this name; its message goes no further. */
  function Named(name: string): CheckResult {
    CheckResult(FailStatus, Some(Truncate(name)), None)
  }

  const TIMED_OUT := CheckResult(FailStatus, Some("timeout"), None)

  /** How a promise settles. */
  datatype Outcome = Resolved(result: CheckResult) | Rejected(errorName: string)

  /** What waits in the microtask queue: a promise's reaction in the race, or the code behind the `await`. */
  datatype Job = Reaction(outcome: Outcome) | Continuation

  datatype Event = Settles(outcome: Outcome) | TimerFires | MicrotaskRuns

  datatype CheckRun = CheckRun(
    checkSettled: bool,
    timerArmed: bool,
    listening: bool,
    aborted: bool,
    race: Option<Outcome>,
    jobs: seq<Job>,
    result: Option<CheckResult>)

  /** The synchronous part of `runOne`; `throws` is the name of an error the check throws at once. */
  function Start(throws: Option<string>): CheckRun {
    if throws.Some? then CheckRun(true, false, false, false, None, [], Some(Named(throws.value)))
    else CheckRun(false, true, true, false, None, [], None)
  }

  function Concluded(o: Outcome): CheckResult {
    match o
    case Resolved(result) => Sanitise(result)
    case Rejected(name) => Named(name)
  }

  /** One callback. A callback that cannot happen in this state is skipped. */
  function Step(r: CheckRun, e: Event): CheckRun {
    match e
    case Settles(o) => if r.checkSettled then r else r.(checkSettled := true, jobs := r.jobs + [Reaction(o)])
    case TimerFires =>
      if !r.timerArmed then r
      else
        var fired := r.(timerArmed := false, aborted := true);
        if r.listening then fired.(listening := false, jobs := r.jobs + [Reaction(Resolved(TIMED_OUT))]) else fired
    case MicrotaskRuns => if r.jobs == [] then r else AfterJob(r.(jobs := r.jobs[1..]), r.jobs[0])
  }

  function AfterJob(r: CheckRun, job: Job): CheckRun {
    match job
    case Reaction(o) => if r.race.Some? then r else r.(race := Some(o), jobs := r.jobs + [Continuation])
    case Continuation => if r.race.None? then r else r.(result := Some(Concluded(r.race.value)), timerArmed := false)
  }

  function Exec(throws: Option<string>, es: seq<Event>): CheckRun {
    if es == [] then Start(throws) else Step(Exec(throws, es[..|es| - 1]), es[|es| - 1])
  }

  // ---------- the result, read off the order of events ----------

  predicate Decides(e: Event) {
    e.Settles? || e.TimerFires?
  }

  /** Position of the first event that decides, or |es| if there is none. */
  function FirstDecision(es: seq<Event>): (i: nat)
    ensures i <= |es|
    ensures i < |es| ==> Decides(es[i])
    ensures forall k :: 0 <= k < i ==> !Decides(es[k])
  {
    if es == [] then 0
    else
      var n := |es| - 1;
      var i := FirstDecision(es[..n]);
      if i < n || Decides(es[n]) then i else n + 1
  }

  function OutcomeOf(e: Event): Outcome
    requires Decides(e)
  {
    if e.Settles? then e.outcome else Resolved(TIMED_OUT)
  }

  /** The check's own outcome if that comes before its timer, else the timeout; None while neither has come. */
  function Verdict(throws: Option<string>, es: seq<Event>): Option<CheckResult> {
    var d := FirstDecision(es);
    if throws.Some? then Some(Named(throws.value))
    else if d < |es| then Some(Concluded(OutcomeOf(es[d])))
    else None
  }

  /** A decided check is waiting for the reaction that decides, then for the continuation, and then is over. */
  ghost predicate Underway(r: CheckRun, decision: Outcome) {
    && (r.race.None? ==> r.jobs != [] && r.jobs[0] == Reaction(decision) && r.result.None?)
    && (r.race.Some? ==> r.race == Some(decision))
    && (r.race.Some? && r.result.None? ==> Continuation in r.jobs)
    && (r.result.Some? ==> r.race.Some? && r.result == Some(Concluded(decision)) && !r.timerArmed)
  }

  ghost predicate Inv(throws: Option<string>, es: seq<Event>, r: CheckRun) {
    var d := FirstDecision(es);
    if throws.Some? || d == |es| then r == Start(throws) else Underway(r, OutcomeOf(es[d])) && (r.timerArmed ==> r.listening)
  }

  lemma {:induction false} CheckInvariant(throws: Option<string>, es: seq<Event>)
    ensures Inv(throws, es, Exec(throws, es))
  {
    if es != [] {
      var n := |es| - 1;
      CheckInvariant(throws, es[..n]);
      var r, d := Exec(throws, es[..n]), FirstDecision(es[..n]);
      if throws.None? && d < n {
        StepStaysUnderway(r, es[n], OutcomeOf(es[d]));
      }
    }
  }

  lemma StepStaysUnderway(r: CheckRun, e: Event, decision: Outcome)
    requires Underway(r, decision) && (r.timerArmed ==> r.listening)
    ensures Underway(Step(r, e), decision) && (Step(r, e).timerArmed ==> Step(r, e).listening)
  {
    if e.MicrotaskRuns? && r.jobs != [] {
      assert r.jobs == [r.jobs[0]] + r.jobs[1..];
    }
  }

  /** In every order of events the first settlement wins, and once there is a result no timer is left. */
  lemma FirstSettlementWins(throws: Option<string>, es: seq<Event>)
    requires Exec(throws, es).result.Some?
    ensures Exec(throws, es).result == Verdict(throws, es)
    ensures !Exec(throws, es).timerArmed
  {
    CheckInvariant(throws, es);
  }

  /** A check whose promise has settled or whose timer has fired has its result once the microtasks have run. */
  lemma DecidedChecksEnd(throws: Option<string>, es: seq<Event>)
    requires Exec(throws, es).jobs == []
    requires throws.Some? || exists k :: 0 <= k < |es| && Decides(es[k])
    ensures Exec(throws, es).result.Some?
  {
    CheckInvariant(throws, es);
  }

  /** And until it is decided, its timer is armed. */
  lemma UndecidedChecksHaveATimer(throws: Option<string>, es: seq<Event>)
    ensures Verdict(throws, es).None? ==> Exec(throws, es).timerArmed
    ensures Exec(throws, es).result.Some? || Exec(throws, es).timerArmed || Exec(throws, es).jobs != []
  {
    CheckInvariant(throws, es);
  }

  /** A result never changes, whatever settles or fires late. */
  lemma {:induction false} ResultIsFinal(throws: Option<string>, es: seq<Event>, n: nat)
    requires n <= |es| && Exec(throws, es[..n]).result.Some?
    ensures Exec(throws, es).result == Exec(throws, es[..n]).result
    decreases |es|
  {
    if n < |es| {
      assert es[..|es| - 1][..n] == es[..n];
      ResultIsFinal(throws, es[..|es| - 1], n);
      CheckInvariant(throws, es[..|es| - 1]);
      CheckInvariant(throws, es);
    } else {
      assert es[..n] == es;
    }
  }

  /** Microtasks still to run: a reaction that decides the race queues one more. */
  function Work(r: CheckRun): nat {
    |r.jobs| + if r.race.None? && r.jobs != [] then 1 else 0
  }

  lemma OneMicrotask(throws: Option<string>, es: seq<Event>)
    ensures var w := Work(Exec(throws, es)); Work(Exec(throws, es + [MicrotaskRuns])) == if w > 0 then w - 1 else 0
  {
    CheckInvariant(throws, es);
    assert (es + [MicrotaskRuns])[..|es|] == es;
  }

  /** The run once the microtasks queued, and those they queue, have all been run. */
  function Drained(throws: Option<string>, es: seq<Event>): (r: seq<Event>)
    ensures es <= r && Exec(throws, r).jobs == []
    ensures forall k :: |es| <= k < |r| ==> r[k] == MicrotaskRuns
    decreases Work(Exec(throws, es))
  {
    OneMicrotask(throws, es);
    if Work(Exec(throws, es)) == 0 then es else Drained(throws, es + [MicrotaskRuns])
  }

  /** From the moment the timer has fired, running what is queued is all it takes. */
  lemma FiredChecksEnd(throws: Option<string>, es: seq<Event>)
    requires TimerFires in es
    ensures var over := Exec(throws, Drained(throws, es));
            over.result == Verdict(throws, es) && over.result.Some? && !over.timerArmed
  {
    var k :| 0 <= k < |es| && es[k] == TimerFires;
    var all := Drained(throws, es);
    assert all[k] == TimerFires;
    DecidedChecksEnd(throws, all);
    FirstSettlementWins(throws, all);
    DecisionIsFinal(es, all);
  }

  lemma DecisionIsFinal(es: seq<Event>, all: seq<Event>)
    requires es <= all && FirstDecision(es) < |es|
    ensures FirstDecision(all) == FirstDecision(es)
  {
    assert all[FirstDecision(es)] == es[FirstDecision(es)];
  }

  // ---------- the run as an object ----------

  /** `runOne` and its callbacks, with what has happened so far: the fields are at all times what that leads to. */
  class CheckRunner {
    var checkSettled: bool
    var timerArmed: bool
    var listening: bool
    var aborted: bool
    var race: Option<Outcome>
    var jobs: seq<Job>
    var result: Option<CheckResult>
    const throws: Option<string>
    ghost var events: seq<Event>

    ghost function State(): CheckRun
      reads this
    {
      CheckRun(checkSettled, timerArmed, listening, aborted, race, jobs, result)
    }

    ghost predicate Valid()
      reads this
    {
      State() == Exec(throws, events)
    }

    /** Timer, check, deadline, race; an error thrown by the check goes straight to `catch` and `finally`. */
    constructor (throws: Option<string>)
      ensures Valid() && events == [] && this.throws == throws
      ensures timerArmed == throws.None? && result == if throws.Some? then Some(Named(throws.value)) else None
    {
      this.throws, events := throws, [];
      aborted, race, jobs, result := false, None, [], None;
      checkSettled, listening, timerArmed := false, false, true;
      if throws.Some? {
        checkSettled := true;
        result := Some(Named(throws.value));
        timerArmed := false;
      } else {
        listening := true;
      }
    }

    /** Only the first settlement of the check's promise counts. */
    method OnSettled(outcome: Outcome)
      requires Valid()
      modifies this
      ensures Valid() && events == old(events) + [Settles(outcome)]
      ensures result == old(result) && timerArmed == old(timerArmed)
    {
      events := events + [Settles(outcome)];
      assert events[..|events| - 1] == old(events);
      if !checkSettled {
        checkSettled := true;
        jobs := jobs + [Reaction(outcome)];
      }
    }

    /** The abort: the deadline's listener, registered once, resolves the deadline. */
    method OnTimer()
      requires Valid() && timerArmed
      modifies this
      ensures Valid() && events == old(events) + [TimerFires]
      ensures aborted && !timerArmed && result == None && jobs == old(jobs) + [Reaction(Resolved(TIMED_OUT))]
    {
      CheckInvariant(throws, events);
      events := events + [TimerFires];
      assert events[..|events| - 1] == old(events);
      timerArmed, aborted := false, true;
      if listening {
        listening := false;
        jobs := jobs + [Reaction(Resolved(TIMED_OUT))];
      }
    }

    /** The next microtask; the last one is the return with its `finally`. */
    method RunMicrotask()
      requires Valid() && jobs != []
      modifies this
      ensures Valid() && events == old(events) + [MicrotaskRuns]
      ensures Work(State()) == Work(old(State())) - 1
      ensures result.Some? ==> result == Verdict(throws, events) && !timerArmed
      ensures old(result).Some? ==> result == old(result)
    {
      CheckInvariant(throws, events);
      events := events + [MicrotaskRuns];
      assert events[..|events| - 1] == old(events);
      CheckInvariant(throws, events);
      var job := jobs[0];
      jobs := jobs[1..];
      match job {
        case Reaction(o) =>
          if race.None? {
            race := Some(o);
            jobs := jobs + [Continuation];
          }
        case Continuation =>
          if race.Some? {
            result := Some(Concluded(race.value));
            timerArmed := false;
          }
      }
    }
  }
}
