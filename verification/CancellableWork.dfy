/**
 The hand-built promises of packages/resilience/src/ResiliencePolicy.ts: the race of parent abort,
 timeout and work (lines 58-107), and the cancellable back-off (lines 109-130). Each callback is one
 step; the order in which callbacks run is arbitrary.
 */
module CancellableWork {
  import opened Wrappers

  datatype Settlement<T, E> = Resolved(value: T) | Rejected(error: E) | Cancelled

  // ---------- executeWithParentCancellation ----------

  datatype Event<T, E> =
    | ParentAborts
    | TimeoutAborts
    | MicrotaskRuns
    | WorkResolves(value: T)
    | WorkRejects(error: E)

  datatype Race<T, E> = Race(
    settled: Option<Settlement<T, E>>,
    parentAborted: bool,
    parentListener: bool,
    timeoutListener: bool,
    microtaskQueued: bool,
    working: bool,
    fnRuns: nat)

  /** The promise's first settlement wins; later ones are ignored. */
  function Settle<T, E>(r: Race<T, E>, s: Settlement<T, E>): Race<T, E> {
    if r.settled.Some? then r else r.(settled := Some(s))
  }

  function Cleanup<T, E>(r: Race<T, E>): Race<T, E> {
    r.(parentListener := false, timeoutListener := false)
  }

  /** The executor of the promise: registers the listeners, then looks at the parent once. */
  function Start<T, E>(parentAborted: bool, hasTimeout: bool): Race<T, E> {
    var listening: Race<T, E> := Race(None, parentAborted, true, hasTimeout, false, false, 0);
    if parentAborted then Settle(Cleanup(listening), Cancelled) else listening.(microtaskQueued := true)
  }

  /** One callback. A callback that cannot happen in this state is skipped. */
  function Step<T, E>(r: Race<T, E>, e: Event<T, E>): Race<T, E> {
    match e
    case ParentAborts =>
      if r.parentAborted then r
      else
        var aborted := r.(parentAborted := true);
        if r.parentListener then Settle(Cleanup(aborted), Cancelled) else aborted
    case TimeoutAborts => if r.timeoutListener then Cleanup(r) else r
    case MicrotaskRuns =>
      if !r.microtaskQueued then r
      else
        var ran := r.(microtaskQueued := false);
        if r.parentAborted then Settle(Cleanup(ran), Cancelled)
        else ran.(working := true, fnRuns := r.fnRuns + 1)
    case WorkResolves(v) => if r.working then Settle(Cleanup(r.(working := false)), Resolved(v)) else r
    case WorkRejects(err) =>
      if r.working then Settle(Cleanup(r.(working := false)), if r.parentAborted then Cancelled else Rejected(err)) else r
  }

  /**
   The promise as the object its callbacks share, with the callbacks that have run so far: its fields are
   at all times what that run leads to.
   */
  class RaceObject<T(==), E(==)> {
    var settled: Option<Settlement<T, E>>
    var parentAborted: bool
    var parentListener: bool
    var timeoutListener: bool
    var microtaskQueued: bool
    var working: bool
    var fnRuns: nat
    const abortedAtStart: bool
    const hasTimeout: bool
    ghost var events: seq<Event<T, E>>

    ghost function State(): Race<T, E>
      reads this
    {
      Race(settled, parentAborted, parentListener, timeoutListener, microtaskQueued, working, fnRuns)
    }

    ghost predicate Valid()
      reads this
    {
      State() == Exec(abortedAtStart, hasTimeout, events)
    }

    /** What holds of the object after any callbacks. */
    lemma SettledAsTheOrderSays()
      requires Valid()
      ensures settled == Verdict(abortedAtStart, hasTimeout, events)
      ensures settled.Some? ==> !parentListener && !timeoutListener
      ensures fnRuns <= 1
    {
      RaceInvariant(abortedAtStart, hasTimeout, events);
    }

    constructor (aborted: bool, hasTimeout: bool)
      ensures Valid() && events == [] && abortedAtStart == aborted && this.hasTimeout == hasTimeout
      ensures settled == if aborted then Some(Cancelled) else None
    {
      abortedAtStart, this.hasTimeout, events := aborted, hasTimeout, [];
      settled, parentAborted, working, fnRuns := None, aborted, false, 0;
      parentListener, timeoutListener, microtaskQueued := true, hasTimeout, false;
      new;
      if parentAborted {
        OnParentAbort();
        return;
      }
      microtaskQueued := true;
    }

    method RemoveListeners()
      modifies this`parentListener, this`timeoutListener
      ensures State() == Cleanup(old(State()))
    {
      parentListener, timeoutListener := false, false;
    }

    method SettleWith(s: Settlement<T, E>)
      modifies this`settled
      ensures State() == Settle(old(State()), s)
    {
      if settled.None? {
        settled := Some(s);
      }
    }

    method OnParentAbort()
      modifies this`settled, this`parentListener, this`timeoutListener
      ensures State() == Settle(Cleanup(old(State())), Cancelled)
    {
      RemoveListeners();
      SettleWith(Cancelled);
    }

    method ParentAbort()
      requires Valid()
      modifies this
      ensures Valid() && events == old(events) + [ParentAborts]
      ensures parentAborted && (old(parentListener) ==> settled == Some(Cancelled))
    {
      events := events + [ParentAborts];
      assert events[..|events| - 1] == old(events);
      ListenersAgree(abortedAtStart, hasTimeout, old(events));
      if parentAborted {
        return;
      }
      parentAborted := true;
      if parentListener {
        OnParentAbort();
      }
    }

    /** A timeout settles nothing by itself: it only lets go of the listeners. */
    method TimeoutAbort()
      requires Valid()
      modifies this
      ensures Valid() && events == old(events) + [TimeoutAborts]
      ensures settled == old(settled) && (hasTimeout ==> !parentListener && !timeoutListener)
    {
      events := events + [TimeoutAborts];
      assert events[..|events| - 1] == old(events);
      ListenersAgree(abortedAtStart, hasTimeout, old(events));
      if timeoutListener {
        RemoveListeners();
      }
    }

    method Microtask()
      requires Valid() && microtaskQueued
      modifies this
      ensures Valid() && events == old(events) + [MicrotaskRuns]
      ensures if parentAborted then settled == Some(Cancelled) && fnRuns == 0 else working && fnRuns == 1
    {
      events := events + [MicrotaskRuns];
      assert events[..|events| - 1] == old(events);
      NothingBeforeTheMicrotask(abortedAtStart, hasTimeout, old(events));
      microtaskQueued := false;
      if parentAborted {
        RemoveListeners();
        SettleWith(Cancelled);
        return;
      }
      working := true;
      fnRuns := fnRuns + 1;
    }

    method AfterResolve(value: T)
      requires Valid() && working
      modifies this
      ensures Valid() && events == old(events) + [WorkResolves(value)]
      ensures settled == if old(settled).Some? then Some(Cancelled) else Some(Resolved(value))
    {
      events := events + [WorkResolves(value)];
      assert events[..|events| - 1] == old(events);
      SettledWhileWorking(abortedAtStart, hasTimeout, old(events));
      working := false;
      RemoveListeners();
      SettleWith(Resolved(value));
    }

    method AfterReject(error: E)
      requires Valid() && working
      modifies this
      ensures Valid() && events == old(events) + [WorkRejects(error)]
      ensures settled == if parentAborted then Some(Cancelled) else Some(Rejected(error))
    {
      events := events + [WorkRejects(error)];
      assert events[..|events| - 1] == old(events);
      SettledWhileWorking(abortedAtStart, hasTimeout, old(events));
      working := false;
      RemoveListeners();
      SettleWith(if parentAborted then Cancelled else Rejected(error));
    }
  }

  function Exec<T, E>(parentAborted: bool, hasTimeout: bool, es: seq<Event<T, E>>): Race<T, E> {
    if es == [] then Start(parentAborted, hasTimeout)
    else Step(Exec(parentAborted, hasTimeout, es[..|es| - 1]), es[|es| - 1])
  }

  // ---------- what a run settles with, read off the order of its events ----------

  /** Position of the first parent abort, or |es| if there is none. */
  function FirstAbort<T, E>(es: seq<Event<T, E>>): (i: nat)
    ensures i <= |es|
    ensures i < |es| ==> es[i].ParentAborts?
    ensures forall k :: 0 <= k < i ==> !es[k].ParentAborts?
  {
    if es == [] then 0
    else
      var n := |es| - 1;
      var i := FirstAbort(es[..n]);
      if i < n || es[n].ParentAborts? then i else n + 1
  }

  function FirstTimeout<T, E>(es: seq<Event<T, E>>): (i: nat)
    ensures i <= |es|
    ensures i < |es| ==> es[i].TimeoutAborts?
    ensures forall k :: 0 <= k < i ==> !es[k].TimeoutAborts?
  {
    if es == [] then 0
    else
      var n := |es| - 1;
      var i := FirstTimeout(es[..n]);
      if i < n || es[n].TimeoutAborts? then i else n + 1
  }

  function FirstMicrotask<T, E>(es: seq<Event<T, E>>): (i: nat)
    ensures i <= |es|
    ensures i < |es| ==> es[i].MicrotaskRuns?
    ensures forall k :: 0 <= k < i ==> !es[k].MicrotaskRuns?
  {
    if es == [] then 0
    else
      var n := |es| - 1;
      var i := FirstMicrotask(es[..n]);
      if i < n || es[n].MicrotaskRuns? then i else n + 1
  }

  predicate Completes<T, E>(e: Event<T, E>) {
    e.WorkResolves? || e.WorkRejects?
  }

  /** Position of the first completion of the work after the microtask that starts it. */
  function FirstCompletion<T, E>(es: seq<Event<T, E>>): (i: nat)
    ensures i <= |es|
    ensures i < |es| ==> Completes(es[i]) && FirstMicrotask(es) < i
    ensures forall k :: FirstMicrotask(es) < k < i ==> !Completes(es[k])
  {
    if es == [] then 0
    else
      var n := |es| - 1;
      var i := FirstCompletion(es[..n]);
      if i < n || (FirstMicrotask(es[..n]) < n && Completes(es[n])) then i else n + 1
  }

  function Completion<T, E>(e: Event<T, E>, parentAborted: bool): Settlement<T, E>
    requires Completes(e)
  {
    if e.WorkResolves? then Resolved(e.value) else if parentAborted then Cancelled else Rejected(e.error)
  }

  /** The settlement of a run as a function of which of the four things happened, and in what order. */
  function Verdict<T, E>(parentAborted: bool, hasTimeout: bool, es: seq<Event<T, E>>): Option<Settlement<T, E>> {
    var abort, start, done := FirstAbort(es), FirstMicrotask(es), FirstCompletion(es);
    var expired := if hasTimeout then FirstTimeout(es) else |es|;
    if parentAborted then Some(Cancelled)
    else if abort < |es| && abort < expired && abort < done then Some(Cancelled)
    else if abort < start < |es| then Some(Cancelled)
    else if done < |es| && start < abort then Some(Completion(es[done], abort < done))
    else None
  }

  ghost predicate RaceInv<T, E>(parentAborted: bool, hasTimeout: bool, es: seq<Event<T, E>>, r: Race<T, E>) {
    var abort, start, done := FirstAbort(es), FirstMicrotask(es), FirstCompletion(es);
    var expired := if hasTimeout then FirstTimeout(es) else |es|;
    && r.settled == Verdict(parentAborted, hasTimeout, es)
    && r.parentAborted == (parentAborted || abort < |es|)
    && r.microtaskQueued == (!parentAborted && start == |es|)
    && r.fnRuns == (if !parentAborted && start < |es| && start < abort then 1 else 0)
    && r.working == (r.fnRuns == 1 && done == |es|)
    && r.parentListener == (r.settled.None? && expired == |es|)
    && r.timeoutListener == (hasTimeout && r.parentListener)
  }

  lemma {:induction false} RaceInvariant<T, E>(parentAborted: bool, hasTimeout: bool, es: seq<Event<T, E>>)
    ensures RaceInv(parentAborted, hasTimeout, es, Exec(parentAborted, hasTimeout, es))
  {
    if es != [] {
      var r := Exec(parentAborted, hasTimeout, es[..|es| - 1]);
      RaceInvariant(parentAborted, hasTimeout, es[..|es| - 1]);
      match es[|es| - 1]
      case ParentAborts => AbortKeepsInv(parentAborted, hasTimeout, es, r);
      case TimeoutAborts => TimeoutKeepsInv(parentAborted, hasTimeout, es, r);
      case MicrotaskRuns => MicrotaskKeepsInv(parentAborted, hasTimeout, es, r);
      case WorkResolves(_) => CompletionKeepsInv(parentAborted, hasTimeout, es, r);
      case WorkRejects(_) => CompletionKeepsInv(parentAborted, hasTimeout, es, r);
    }
  }

  lemma AbortKeepsInv<T, E>(parentAborted: bool, hasTimeout: bool, es: seq<Event<T, E>>, r: Race<T, E>)
    requires es != [] && RaceInv(parentAborted, hasTimeout, es[..|es| - 1], r) && es[|es| - 1].ParentAborts?
    ensures RaceInv(parentAborted, hasTimeout, es, Step(r, es[|es| - 1]))
  {
  }

  lemma TimeoutKeepsInv<T, E>(parentAborted: bool, hasTimeout: bool, es: seq<Event<T, E>>, r: Race<T, E>)
    requires es != [] && RaceInv(parentAborted, hasTimeout, es[..|es| - 1], r) && es[|es| - 1].TimeoutAborts?
    ensures RaceInv(parentAborted, hasTimeout, es, Step(r, es[|es| - 1]))
  {
  }

  lemma MicrotaskKeepsInv<T, E>(parentAborted: bool, hasTimeout: bool, es: seq<Event<T, E>>, r: Race<T, E>)
    requires es != [] && RaceInv(parentAborted, hasTimeout, es[..|es| - 1], r) && es[|es| - 1].MicrotaskRuns?
    ensures RaceInv(parentAborted, hasTimeout, es, Step(r, es[|es| - 1]))
  {
  }

  lemma CompletionKeepsInv<T, E>(parentAborted: bool, hasTimeout: bool, es: seq<Event<T, E>>, r: Race<T, E>)
    requires es != [] && RaceInv(parentAborted, hasTimeout, es[..|es| - 1], r) && Completes(es[|es| - 1])
    ensures RaceInv(parentAborted, hasTimeout, es, Step(r, es[|es| - 1]))
  {
  }

  /** Every run settles with its verdict: the callbacks compute exactly the order of events. */
  lemma RunSettlesWithVerdict<T, E>(parentAborted: bool, hasTimeout: bool, es: seq<Event<T, E>>)
    ensures Exec(parentAborted, hasTimeout, es).settled == Verdict(parentAborted, hasTimeout, es)
  {
    RaceInvariant(parentAborted, hasTimeout, es);
  }

  /** Once settled, always settled with the same value. */
  lemma {:induction false} SettlesOnce<T, E>(parentAborted: bool, hasTimeout: bool, es: seq<Event<T, E>>, n: nat)
    requires n <= |es| && Exec(parentAborted, hasTimeout, es[..n]).settled.Some?
    ensures Exec(parentAborted, hasTimeout, es).settled == Exec(parentAborted, hasTimeout, es[..n]).settled
    decreases |es|
  {
    if n < |es| {
      assert es[..|es| - 1][..n] == es[..n];
      SettlesOnce(parentAborted, hasTimeout, es[..|es| - 1], n);
    } else {
      assert es[..n] == es;
    }
  }

  /** A settled promise holds no abort listener. */
  lemma NoListenerOnceSettled<T, E>(parentAborted: bool, hasTimeout: bool, es: seq<Event<T, E>>)
    requires Exec(parentAborted, hasTimeout, es).settled.Some?
    ensures var r := Exec(parentAborted, hasTimeout, es); !r.parentListener && !r.timeoutListener
  {
    RaceInvariant(parentAborted, hasTimeout, es);
  }

  /** The work is started at most once: if and only if the microtask ran before any abort of the parent. */
  lemma WorkRunsOnceUnlessAborted<T, E>(parentAborted: bool, hasTimeout: bool, es: seq<Event<T, E>>)
    ensures var r := Exec(parentAborted, hasTimeout, es);
            && r.fnRuns <= 1
            && (r.fnRuns == 1 <==>
                  && !parentAborted
                  && exists m :: 0 <= m < |es| && es[m].MicrotaskRuns? && forall k :: 0 <= k < m ==> !es[k].ParentAborts?)
  {
    RaceInvariant(parentAborted, hasTimeout, es);
    var abort, start := FirstAbort(es), FirstMicrotask(es);
    if start < |es| && start < abort {
      assert es[start].MicrotaskRuns?;
    }
  }

  /** Both listeners are registered together, and only while nothing is settled or aborted. */
  lemma ListenersAgree<T, E>(parentAborted: bool, hasTimeout: bool, es: seq<Event<T, E>>)
    ensures var r := Exec(parentAborted, hasTimeout, es);
            && (r.parentListener ==> r.settled.None? && !r.parentAborted)
            && (r.timeoutListener <==> hasTimeout && r.parentListener)
  {
    RaceInvariant(parentAborted, hasTimeout, es);
  }

  /** Before the microtask the work has not begun, and only an abort can have settled the promise. */
  lemma NothingBeforeTheMicrotask<T, E>(parentAborted: bool, hasTimeout: bool, es: seq<Event<T, E>>)
    requires Exec(parentAborted, hasTimeout, es).microtaskQueued
    ensures var r := Exec(parentAborted, hasTimeout, es);
            r.fnRuns == 0 && (r.settled.Some? ==> r.settled == Some(Cancelled))
  {
    RaceInvariant(parentAborted, hasTimeout, es);
  }

  /** What settles the promise while the work is under way is an abort of the parent. */
  lemma SettledWhileWorking<T, E>(parentAborted: bool, hasTimeout: bool, es: seq<Event<T, E>>)
    requires Exec(parentAborted, hasTimeout, es).working
    ensures var r := Exec(parentAborted, hasTimeout, es);
            r.settled.Some? ==> r.settled == Some(Cancelled) && r.parentAborted
  {
    RaceInvariant(parentAborted, hasTimeout, es);
  }

  lemma UnsettledRaceListens<T, E>(parentAborted: bool, hasTimeout: bool, es: seq<Event<T, E>>)
    requires forall k :: 0 <= k < |es| ==> !es[k].TimeoutAborts?
    requires Exec(parentAborted, hasTimeout, es).settled.None?
    ensures var r := Exec(parentAborted, hasTimeout, es); r.parentListener && !r.parentAborted
  {
    RaceInvariant(parentAborted, hasTimeout, es);
  }

  /** An abort of the parent before any timeout and before the work completes cancels, whatever follows. */
  lemma EarlyAbortCancels<T, E>(parentAborted: bool, hasTimeout: bool, es: seq<Event<T, E>>, a: nat)
    requires a < |es| && es[a].ParentAborts?
    requires forall k :: 0 <= k < a ==> !es[k].TimeoutAborts?
    requires Exec(parentAborted, hasTimeout, es[..a]).settled.None?
    ensures Exec(parentAborted, hasTimeout, es).settled == Some(Cancelled)
  {
    UnsettledRaceListens(parentAborted, hasTimeout, es[..a]);
    assert es[..a + 1][..a] == es[..a];
    SettlesOnce(parentAborted, hasTimeout, es, a + 1);
  }

  // ---------- waitForRetryBackoff ----------

  datatype WaitEvent = TimerFires | AbortFires

  datatype Wait = Wait(settled: Option<bool>, timerArmed: bool, listener: bool)

  /** `settled` holds whether the wait ended by its timer (true) or in a cancellation (false). */
  class BackoffWait {
    var settled: Option<bool>
    var timerArmed: bool
    var listener: bool
    const abortedAtStart: bool
    ghost var events: seq<WaitEvent>

    ghost predicate Valid()
      reads this
    {
      Wait(settled, timerArmed, listener) == WaitExec(abortedAtStart, events)
    }

    constructor (parentAborted: bool)
      ensures Valid() && events == [] && abortedAtStart == parentAborted
    {
      abortedAtStart, events := parentAborted, [];
      if parentAborted {
        settled, timerArmed, listener := Some(false), false, false;
      } else {
        settled, timerArmed, listener := None, true, true;
      }
    }

    method OnTimer()
      requires Valid()
      modifies this
      ensures Valid() && events == old(events) + [TimerFires]
      ensures settled == Some(if old(settled).Some? then old(settled).value else true) && !timerArmed && !listener
    {
      events := events + [TimerFires];
      assert events[..|events| - 1] == old(events);
      FirstEventEndsTheWait(abortedAtStart, old(events));
      if timerArmed {
        timerArmed := false;
        listener := false;
        if settled.None? { settled := Some(true); }
      }
    }

    method OnAbort()
      requires Valid()
      modifies this
      ensures Valid() && events == old(events) + [AbortFires]
      ensures settled == Some(if old(settled).Some? then old(settled).value else false) && !timerArmed && !listener
    {
      events := events + [AbortFires];
      assert events[..|events| - 1] == old(events);
      FirstEventEndsTheWait(abortedAtStart, old(events));
      if listener {
        timerArmed := false;
        listener := false;
        if settled.None? { settled := Some(false); }
      }
    }
  }

  function StartWait(parentAborted: bool): Wait {
    if parentAborted then Wait(Some(false), false, false) else Wait(None, true, true)
  }

  function WaitStep(w: Wait, e: WaitEvent): Wait {
    var live := if e.TimerFires? then w.timerArmed else w.listener;
    if live then Wait(if w.settled.Some? then w.settled else Some(e.TimerFires?), false, false) else w
  }

  function WaitExec(parentAborted: bool, es: seq<WaitEvent>): Wait {
    if es == [] then StartWait(parentAborted)
    else WaitStep(WaitExec(parentAborted, es[..|es| - 1]), es[|es| - 1])
  }

  /** The first of timer and abort decides, and leaves neither a timer nor a listener behind. */
  lemma {:induction false} FirstEventEndsTheWait(parentAborted: bool, es: seq<WaitEvent>)
    ensures WaitExec(parentAborted, es) ==
            if parentAborted then Wait(Some(false), false, false)
            else if es == [] then Wait(None, true, true)
            else Wait(Some(es[0].TimerFires?), false, false)
  {
    if es != [] {
      FirstEventEndsTheWait(parentAborted, es[..|es| - 1]);
    }
  }
}
