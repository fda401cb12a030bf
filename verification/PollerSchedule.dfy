/**
 The self-rearming timer of the poller
 (apis/miot-bridge-api/src/services/DevicePropertyPollerService.ts:173-243). Start-up, the end of the
 subscription load, timer expiries, the end of a tick's work and `stop` happen in any order.
 */
module PollerSchedule {
  import opened Wrappers

  /** `start` is called once; it is over when its load has ended. */
  datatype Phase = NotStarted | Loading | Started | Off

  /**
   `timer` and `ticking` are the poller's fields; `armed` the timers the event loop still holds,
   `running` the ticks whose work is being awaited, `begun` all ticks whose work ever began and
   `turnedAway` the expiries that met the `_ticking` guard.
   */
  datatype Schedule = Schedule(
    timer: Option<nat>,
    ticking: bool,
    armed: set<nat>,
    running: nat,
    begun: nat,
    turnedAway: nat,
    phase: Phase,
    nextTimer: nat)

  datatype Event = Start(enabled: bool) | Loaded(succeeded: bool) | Fires(timer: nat) | WorkEnds | Stop

  const INITIAL := Schedule(None, false, {}, 0, 0, 0, NotStarted, 0)

  function ScheduleNext(s: Schedule): Schedule {
    s.(timer := Some(s.nextTimer), armed := s.armed + {s.nextTimer}, nextTimer := s.nextTimer + 1)
  }

  /** An event that cannot happen in this state is skipped. */
  function Step(s: Schedule, e: Event): Schedule {
    match e
    case Start(enabled) => if s.phase.NotStarted? then s.(phase := if enabled then Loading else Off) else s
    case Loaded(succeeded) =>
      if !s.phase.Loading? then s
      else if succeeded then ScheduleNext(s.(phase := Started)) else s.(phase := Off)
    case Fires(t) =>
      if t !in s.armed then s
      else
        var fired := s.(armed := s.armed - {t});
        if s.ticking then fired.(turnedAway := s.turnedAway + 1)
        else fired.(ticking := true, running := s.running + 1, begun := s.begun + 1)
    case WorkEnds =>
      if s.running == 0 then s
      else
        var over := s.(running := s.running - 1, ticking := false);
        if s.timer.Some? then ScheduleNext(over) else over
    case Stop =>
      if s.timer.Some? then s.(armed := s.armed - {s.timer.value}, timer := None) else s
  }

  /**
   The poller's timer fields together with the event loop's side of them, and what has happened so far: the
   fields are at all times what that leads to.
   */
  class PollLoop {
    var timer: Option<nat>
    var ticking: bool
    var armed: set<nat>
    var running: nat
    var begun: nat
    var turnedAway: nat
    var phase: Phase
    var nextTimer: nat
    ghost var events: seq<Event>

    ghost function State(): Schedule
      reads this
    {
      Schedule(timer, ticking, armed, running, begun, turnedAway, phase, nextTimer)
    }

    ghost predicate Valid()
      reads this
    {
      State() == Exec(events)
    }

    constructor ()
      ensures Valid() && events == []
    {
      events := [];
      timer, ticking, armed, running, begun, turnedAway, phase, nextTimer := None, false, {}, 0, 0, 0, NotStarted, 0;
    }

    method StartPolling(enabled: bool)
      requires Valid() && phase.NotStarted?
      modifies this
      ensures Valid() && events == old(events) + [Start(enabled)]
    {
      ExecAppends(events, Start(enabled));
      events := events + [Start(enabled)];
      phase := if enabled then Loading else Off;
    }

    /** The first timer; without it nothing is ever polled. */
    method AfterLoad(succeeded: bool)
      requires Valid() && phase.Loading?
      modifies this
      ensures Valid() && events == old(events) + [Loaded(succeeded)]
      ensures |armed| == (if succeeded then 1 else 0) && running == 0
    {
      ScheduleInvariant(events);
      ExecAppends(events, Loaded(succeeded));
      events := events + [Loaded(succeeded)];
      if !succeeded {
        phase := Off;
        return;
      }
      phase := Started;
      Rearm();
    }

    method Rearm()
      modifies this`timer, this`armed, this`nextTimer
      ensures State() == ScheduleNext(old(State()))
    {
      timer := Some(nextTimer);
      armed := armed + {nextTimer};
      nextTimer := nextTimer + 1;
    }

    /** The synchronous start of `tick`: it always gets past the guard. */
    method OnTimer(t: nat) returns (entered: bool)
      requires Valid() && t in armed
      modifies this
      ensures Valid() && events == old(events) + [Fires(t)]
      ensures entered && begun == old(begun) + 1 && running == 1 && armed == {}
    {
      ScheduleInvariant(events);
      ExecAppends(events, Fires(t));
      events := events + [Fires(t)];
      entered := EnterTick(t);
    }

    method EnterTick(t: nat) returns (entered: bool)
      requires t in armed
      modifies this`armed, this`ticking, this`running, this`begun, this`turnedAway
      ensures State() == Step(old(State()), Fires(t))
      ensures entered == !old(ticking)
    {
      armed := armed - {t};
      if ticking {
        turnedAway := turnedAway + 1;
        return false;
      }
      ticking := true;
      running, begun := running + 1, begun + 1;
      return true;
    }

    /** The `finally` of `tick`. */
    method AfterWork()
      requires Valid() && running > 0
      modifies this
      ensures Valid() && events == old(events) + [WorkEnds]
      ensures running == 0 && |armed| == (if old(timer).Some? then 1 else 0)
    {
      ScheduleInvariant(events);
      ExecAppends(events, WorkEnds);
      events := events + [WorkEnds];
      running := running - 1;
      ticking := false;
      if timer.Some? {
        Rearm();
      }
    }

    /** Nothing is armed afterwards; once start-up is over nothing ever will be. */
    method StopPolling()
      requires Valid()
      modifies this
      ensures Valid() && events == old(events) + [Stop]
      ensures armed == {} && timer == None
      ensures phase.Started? || phase.Off? ==> forall rest: seq<Event> :: Exec(events + rest).begun == begun
    {
      ScheduleInvariant(events);
      ExecAppends(events, Stop);
      StopIsFinalOnceStarted(events);
      events := events + [Stop];
      if timer.Some? {
        armed := armed - {timer.value};
        timer := None;
      }
    }
  }

  function Exec(es: seq<Event>): Schedule {
    if es == [] then INITIAL else Step(Exec(es[..|es| - 1]), es[|es| - 1])
  }

  ghost predicate Inv(s: Schedule) {
    && s.turnedAway == 0
    && s.ticking == (s.running == 1)
    && s.running <= 1
    && (!s.phase.Started? ==> s.timer.None? && s.running == 0)
    && s.armed == (if s.timer.Some? && s.running == 0 then {s.timer.value} else {})
  }

  lemma {:induction false} ScheduleInvariant(es: seq<Event>)
    ensures Inv(Exec(es))
  {
    if es != [] {
      ScheduleInvariant(es[..|es| - 1]);
    }
  }

  /** At every reachable state armed timers and running ticks number at most one, so no expiry ever meets the `_ticking` guard. */
  lemma OneTimerOrOneTick(es: seq<Event>)
    ensures var s := Exec(es);
            && |s.armed| + s.running <= 1
            && s.turnedAway == 0
            && (forall t :: t in s.armed ==> !s.ticking)
  {
    ScheduleInvariant(es);
  }

  /** Once started, polling goes on until it is stopped: a timer is armed or a tick is running. */
  lemma {:induction false} NeverStallsUnlessStopped(es: seq<Event>)
    requires forall k :: 0 <= k < |es| ==> !es[k].Stop?
    ensures var s := Exec(es); s.phase.Started? ==> s.timer.Some? && |s.armed| + s.running == 1
  {
    ScheduleInvariant(es);
    if es != [] {
      ScheduleInvariant(es[..|es| - 1]);
      NeverStallsUnlessStopped(es[..|es| - 1]);
    }
  }

  ghost predicate Dead(s: Schedule) {
    (s.phase.Started? || s.phase.Off?) && s.timer.None? && s.armed == {}
  }

  lemma {:induction false} DeadStaysDead(es: seq<Event>, rest: seq<Event>)
    requires Dead(Exec(es))
    ensures Dead(Exec(es + rest)) && Exec(es + rest).begun == Exec(es).begun
    decreases |rest|
  {
    if rest == [] {
      assert es + rest == es;
    } else {
      DeadStaysDead(es, rest[..|rest| - 1]);
      assert (es + rest)[..|es + rest| - 1] == es + rest[..|rest| - 1];
    }
  }

  /** A stop before start-up is over is forgotten: the load still arms a timer, and it fires. */
  lemma EarlyStopIsForgotten(es: seq<Event>)
    requires Exec(es).phase.Loading?
    ensures var late := [Stop, Loaded(true), Fires(Exec(es).nextTimer)]; Exec(es + late).begun == Exec(es).begun + 1
  {
    ScheduleInvariant(es);
    var s := Exec(es);
    ExecAppends(es, Stop);
    ExecAppends(es + [Stop], Loaded(true));
    ExecAppends(es + [Stop] + [Loaded(true)], Fires(s.nextTimer));
    assert es + [Stop] + [Loaded(true)] + [Fires(s.nextTimer)] == es + [Stop, Loaded(true), Fires(s.nextTimer)];
  }

  lemma ExecAppends(es: seq<Event>, e: Event)
    ensures Exec(es + [e]) == Step(Exec(es), e)
  {
    assert (es + [e])[..|es|] == es;
  }

  /**
   `stop` ends polling for good if and only if start-up is over: then no tick begins afterwards, even if
   stop ran mid-tick.
   */
  lemma StopIsFinalOnceStarted(es: seq<Event>)
    ensures (forall rest: seq<Event> :: Exec(es + [Stop] + rest).begun == Exec(es).begun)
            <==> Exec(es).phase.Started? || Exec(es).phase.Off?
  {
    ScheduleInvariant(es);
    ExecAppends(es, Stop);
    var s := Exec(es);
    if s.phase.Started? || s.phase.Off? {
      forall rest: seq<Event> ensures Exec(es + [Stop] + rest).begun == s.begun {
        DeadStaysDead(es + [Stop], rest);
      }
    } else if s.phase.Loading? {
      EarlyStopIsForgotten(es);
      var rest := [Loaded(true), Fires(s.nextTimer)];
      assert es + [Stop] + rest == es + [Stop, Loaded(true), Fires(s.nextTimer)];
    } else {
      StopBeforeStart(es);
    }
  }

  lemma StopBeforeStart(es: seq<Event>)
    requires Exec(es).phase.NotStarted?
    ensures exists rest: seq<Event> :: Exec(es + [Stop] + rest).begun == Exec(es).begun + 1
  {
    ScheduleInvariant(es);
    ExecAppends(es, Stop);
    ExecAppends(es + [Stop], Start(true));
    var started := es + [Stop] + [Start(true)];
    EarlyStopIsForgotten(started);
    var late := [Stop, Loaded(true), Fires(Exec(started).nextTimer)];
    assert started + late == es + [Stop] + ([Start(true)] + late);
  }
}
