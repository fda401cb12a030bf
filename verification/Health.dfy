/**
 The health registry of packages/health/src/HealthRegistry.ts: single-flight evaluation with a short
 cache (lines 54-70) over passes that run every check at once (lines 78-81), each under its own deadline.
 */
module Health {
  import opened Wrappers
  import opened Arithmetic
  import HealthChecks

  // ---------- single flight ----------

  /** `inFlight` and `cached`; a pass is named by its number, `at` is when it finished. */
  datatype Registry = Registry(inFlight: Option<nat>, cached: Option<CachedPass>)

  datatype CachedPass = CachedPass(at: int, pass: nat)

  datatype Served = FromCache(pass: nat) | FromPass(pass: nat)

  predicate Usable(cached: Option<CachedPass>, now: int, ttl: nat) {
    cached.Some? && now - cached.value.at < ttl
  }

  function AfterEvaluate(r: Registry, now: int, ttl: nat, newPass: nat): (Registry, Served) {
    if Usable(r.cached, now, ttl) then (r, FromCache(r.cached.value.pass))
    else if r.inFlight.Some? then (r, FromPass(r.inFlight.value))
    else (r.(inFlight := Some(newPass)), FromPass(newPass))
  }

  function AfterPass(r: Registry, now: int, pass: nat): Registry {
    Registry(None, Some(CachedPass(now, pass)))
  }

  /** The registry with its calls and completions so far: its fields are at all times what these lead to. */
  class HealthRegistry {
    const setup: Setup
    var inFlight: Option<nat>
    var cached: Option<CachedPass>
    var passesStarted: nat  // names the next pass
    ghost var history: seq<Event>

    ghost function Passes(): seq<Pass>
      reads this
    {
      Exec(history, setup).passes
    }

    ghost predicate Valid()
      reads this
    {
      && Chronological(history)
      && Exec(history, setup).registry == Registry(inFlight, cached)
      && passesStarted == |Passes()|
    }

    ghost predicate NotBefore(now: int)
      reads this
    {
      forall i :: 0 <= i < |history| ==> history[i].now <= now
    }

    constructor (setup: Setup)
      ensures Valid() && history == [] && this.setup == setup
    {
      this.setup := setup;
      inFlight, cached, passesStarted, history := None, None, 0, [];
    }

    /**
     A pass is started only when no other is open and the last one ended at least the cache window ago.
     `throws` says which checks of a new pass throw at once.
     */
    method Evaluate(now: int, ghost throws: seq<Option<string>>) returns (served: Served)
      requires Valid() && NotBefore(now)
      modifies this
      ensures Valid() && history == old(history) + [Event.Evaluate(now, throws)]
      ensures served == ServedTo(history, |old(history)|, setup)
      ensures passesStarted == old(passesStarted) + (if served == FromPass(old(passesStarted)) then 1 else 0)
      ensures passesStarted > old(passesStarted) ==> AllEnded(old(Passes()), setup.cacheTtlMs, now)
    {
      OpenPassIsTheLast(history, setup);
      if inFlight.None? && !Usable(cached, now, setup.cacheTtlMs) {
        AllEndedBefore(history, setup, now);
      }
      OneMoreEvent(history, Event.Evaluate(now, throws), setup);
      history := history + [Event.Evaluate(now, throws)];
      if cached.Some? && now - cached.value.at < setup.cacheTtlMs {
        return FromCache(cached.value.pass);
      }
      if inFlight.None? {
        inFlight := Some(passesStarted);
        passesStarted := passesStarted + 1;
      }
      served := FromPass(inFlight.value);
    }

    /** A callback of one of the checks of a pass, an old one included. */
    ghost method OnCheck(now: int, pass: nat, check: nat, event: HealthChecks.Event)
      requires Valid() && NotBefore(now)
      modifies this`history
      ensures Valid() && history == old(history) + [CheckEvent(now, pass, check, event)]
    {
      OneMoreEvent(history, CheckEvent(now, pass, check, event), setup);
      history := history + [CheckEvent(now, pass, check, event)];
    }

    /** All checks of the pass have their results, one each. */
    method OnPassFinished(pass: nat, now: int)
      requires Valid() && NotBefore(now) && inFlight == Some(pass)
      requires pass < |Passes()| ==> Done(Passes()[pass])
      modifies this
      ensures Valid() && history == old(history) + [PassEnds(now)]
      ensures inFlight == None && passesStarted == old(passesStarted)
      ensures cached == Some(CachedPass(now, passesStarted - 1)) && Passes()[passesStarted - 1].finishedAt == Some(now)
    {
      OpenPassIsTheLast(history, setup);
      OneMoreEvent(history, PassEnds(now), setup);
      history := history + [PassEnds(now)];
      cached := Some(CachedPass(now, pass));
      inFlight := None;
    }
  }

  // ---------- runs ----------

  datatype Check = Check(name: string, critical: bool)

  datatype Setup = Setup(cacheTtlMs: nat, checks: seq<Check>)

  /** What has happened to one check in one pass. */
  datatype CheckHistory = CheckHistory(throws: Option<string>, events: seq<HealthChecks.Event>)

  datatype Pass = Pass(startedAt: int, finishedAt: Option<int>, runs: seq<CheckHistory>)

  datatype World = World(registry: Registry, passes: seq<Pass>)

  /**
   A call, with the errors that the checks of a pass it starts throw at once; a callback of a check; or the end
   of the pass in flight, once all of its checks have results.
   */
  datatype Event =
    | Evaluate(now: int, throws: seq<Option<string>>)
    | CheckEvent(now: int, pass: nat, check: nat, event: HealthChecks.Event)
    | PassEnds(now: int)

  function RunOf(h: CheckHistory): HealthChecks.CheckRun {
    HealthChecks.Exec(h.throws, h.events)
  }

  /** `Promise.all` of the checks has resolved. */
  predicate Done(p: Pass) {
    forall i :: 0 <= i < |p.runs| ==> RunOf(p.runs[i]).result.Some?
  }

  /** The first `n` checks called. */
  function Begun(n: nat, throws: seq<Option<string>>): (r: seq<CheckHistory>)
    ensures |r| == n
  {
    if n == 0 then []
    else Begun(n - 1, throws) + [CheckHistory(if n - 1 < |throws| then throws[n - 1] else None, [])]
  }

  function WithEvent(p: Pass, check: nat, e: HealthChecks.Event): Pass
    requires check < |p.runs|
  {
    p.(runs := p.runs[check := p.runs[check].(events := p.runs[check].events + [e])])
  }

  function Step(w: World, e: Event, setup: Setup): World {
    match e
    case Evaluate(now, throws) =>
      var (registry, served) := AfterEvaluate(w.registry, now, setup.cacheTtlMs, |w.passes|);
      World(registry, if served == FromPass(|w.passes|) then w.passes + [Pass(now, None, Begun(|setup.checks|, throws))] else w.passes)
    case CheckEvent(_, pass, check, event) =>
      if pass >= |w.passes| || check >= |w.passes[pass].runs| then w
      else w.(passes := w.passes[pass := WithEvent(w.passes[pass], check, event)])
    case PassEnds(now) =>
      if w.registry.inFlight.None? || w.registry.inFlight.value >= |w.passes| || !Done(w.passes[w.registry.inFlight.value]) then w
      else
        var pass := w.registry.inFlight.value;
        World(AfterPass(w.registry, now, pass), w.passes[pass := w.passes[pass].(finishedAt := Some(now))])
  }

  function Exec(es: seq<Event>, setup: Setup): World {
    if es == [] then World(Registry(None, None), [])
    else Step(Exec(es[..|es| - 1], setup), es[|es| - 1], setup)
  }

  /** The clock does not run backwards. */
  ghost predicate Chronological(es: seq<Event>) {
    forall i, j :: 0 <= i <= j < |es| ==> es[i].now <= es[j].now
  }

  ghost predicate Finished(p: Pass) {
    p.finishedAt.Some? && p.startedAt <= p.finishedAt.value
  }

  /** `next` started only when the result of `previous` had been kept for the whole cache window. */
  ghost predicate Apart(previous: Pass, next: Pass, ttl: nat) {
    Finished(previous) && previous.finishedAt.value + ttl <= next.startedAt
  }

  ghost predicate Inv(w: World, ttl: nat) {
    var n := |w.passes|;
    && (forall k :: 0 <= k < n - 1 ==> Apart(w.passes[k], w.passes[k + 1], ttl))
    && (match w.registry.inFlight
        case Some(p) => p == n - 1 && w.passes[p].finishedAt.None?
        case None => n > 0 ==> Finished(w.passes[n - 1]))
    && var done := if w.registry.inFlight.Some? then n - 1 else n;
       w.registry.cached == if done == 0 then None else Some(CachedPass(w.passes[done - 1].finishedAt.value, done - 1))
  }

  ghost predicate NotAfter(w: World, now: int) {
    forall k :: 0 <= k < |w.passes| ==> w.passes[k].startedAt <= now && (Finished(w.passes[k]) ==> w.passes[k].finishedAt.value <= now)
  }

  lemma {:induction false} SingleFlightInvariant(es: seq<Event>, setup: Setup)
    requires Chronological(es)
    ensures Inv(Exec(es, setup), setup.cacheTtlMs)
    ensures es != [] ==> NotAfter(Exec(es, setup), es[|es| - 1].now)
  {
    if es != [] {
      var n := |es| - 1;
      SingleFlightInvariant(es[..n], setup);
      var w := Exec(es[..n], setup);
      assert NotAfter(w, es[n].now);
      StepKeepsInv(w, es[n], setup);
    }
  }

  lemma StepKeepsInv(w: World, e: Event, setup: Setup)
    requires Inv(w, setup.cacheTtlMs) && NotAfter(w, e.now)
    ensures Inv(Step(w, e, setup), setup.cacheTtlMs) && NotAfter(Step(w, e, setup), e.now)
  {
    match e
    case Evaluate(_, _) => EvaluateKeepsInv(w, e, setup);
    case CheckEvent(_, _, _, _) => CheckKeepsInv(w, e, setup);
    case PassEnds(_) => EndKeepsInv(w, e, setup);
  }

  lemma EvaluateKeepsInv(w: World, e: Event, setup: Setup)
    requires Inv(w, setup.cacheTtlMs) && NotAfter(w, e.now) && e.Evaluate?
    ensures Inv(Step(w, e, setup), setup.cacheTtlMs) && NotAfter(Step(w, e, setup), e.now)
  {
    var n, w' := |w.passes|, Step(w, e, setup);
    if |w'.passes| > n {
      assert w'.passes == w.passes + [Pass(e.now, None, Begun(|setup.checks|, e.throws))];
      forall k | 0 <= k < n ensures Apart(w'.passes[k], w'.passes[k + 1], setup.cacheTtlMs) {
        assert k < n - 1 ==> Apart(w.passes[k], w.passes[k + 1], setup.cacheTtlMs);
      }
    } else {
      assert w' == w;
    }
  }

  lemma CheckKeepsInv(w: World, e: Event, setup: Setup)
    requires Inv(w, setup.cacheTtlMs) && NotAfter(w, e.now) && e.CheckEvent?
    ensures Inv(Step(w, e, setup), setup.cacheTtlMs) && NotAfter(Step(w, e, setup), e.now)
  {
    var w' := Step(w, e, setup);
    assert forall k :: 0 <= k < |w.passes| ==>
             w'.passes[k].startedAt == w.passes[k].startedAt && w'.passes[k].finishedAt == w.passes[k].finishedAt;
    forall k | 0 <= k < |w.passes| - 1 ensures Apart(w'.passes[k], w'.passes[k + 1], setup.cacheTtlMs) {
      assert Apart(w.passes[k], w.passes[k + 1], setup.cacheTtlMs);
    }
  }

  lemma EndKeepsInv(w: World, e: Event, setup: Setup)
    requires Inv(w, setup.cacheTtlMs) && NotAfter(w, e.now) && e.PassEnds?
    ensures Inv(Step(w, e, setup), setup.cacheTtlMs) && NotAfter(Step(w, e, setup), e.now)
  {
  }

  /** Passes never overlap, and each starts at least the cache window after the end of the one before. */
  lemma PassesNeverOverlap(es: seq<Event>, setup: Setup, k: nat)
    requires Chronological(es) && k + 1 < |Exec(es, setup).passes|
    ensures var passes := Exec(es, setup).passes;
            passes[k].finishedAt.Some? && passes[k].startedAt <= passes[k].finishedAt.value
            && passes[k].finishedAt.value + setup.cacheTtlMs <= passes[k + 1].startedAt
  {
    SingleFlightInvariant(es, setup);
    assert Apart(Exec(es, setup).passes[k], Exec(es, setup).passes[k + 1], setup.cacheTtlMs);
  }

  lemma OneMoreEvent(es: seq<Event>, e: Event, setup: Setup)
    requires Chronological(es) && forall i :: 0 <= i < |es| ==> es[i].now <= e.now
    ensures Chronological(es + [e])
    ensures Exec(es + [e], setup) == Step(Exec(es, setup), e, setup)
    ensures e.Evaluate? ==> var w := Exec(es, setup);
                            ServedTo(es + [e], |es|, setup) == AfterEvaluate(w.registry, e.now, setup.cacheTtlMs, |w.passes|).1
  {
    assert (es + [e])[..|es|] == es;
  }

  lemma OpenPassIsTheLast(es: seq<Event>, setup: Setup)
    requires Chronological(es)
    ensures var w := Exec(es, setup); w.registry.inFlight.Some? ==> w.registry.inFlight.value == |w.passes| - 1
  {
    SingleFlightInvariant(es, setup);
  }

  /** Every pass has ended, at least the cache window before `now`. */
  ghost predicate AllEnded(passes: seq<Pass>, ttl: nat, now: int) {
    forall k :: 0 <= k < |passes| ==> passes[k].finishedAt.Some? && passes[k].finishedAt.value + ttl <= now
  }

  /** With no pass open and nothing usable in the cache, every pass ended at least the cache window ago. */
  lemma AllEndedBefore(es: seq<Event>, setup: Setup, now: int)
    requires Chronological(es)
    requires var r := Exec(es, setup).registry; r.inFlight.None? && !Usable(r.cached, now, setup.cacheTtlMs)
    ensures AllEnded(Exec(es, setup).passes, setup.cacheTtlMs, now)
  {
    SingleFlightInvariant(es, setup);
    var n := |Exec(es, setup).passes|;
    forall k | 0 <= k < n
      ensures Exec(es, setup).passes[k].finishedAt.Some? && Exec(es, setup).passes[k].finishedAt.value + setup.cacheTtlMs <= now
    {
      if k < n - 1 {
        PassesNeverOverlap(es, setup, k);
        PassSpacing(es, setup, k + 1, n - 1);
      }
    }
  }

  lemma {:induction false} PassSpacing(es: seq<Event>, setup: Setup, i: nat, k: nat)
    requires Chronological(es) && i <= k < |Exec(es, setup).passes|
    ensures Exec(es, setup).passes[i].startedAt + (k - i) * setup.cacheTtlMs <= Exec(es, setup).passes[k].startedAt
    decreases k - i
  {
    if i < k {
      PassSpacing(es, setup, i, k - 1);
      PassesNeverOverlap(es, setup, k - 1);
      assert (k - i) * setup.cacheTtlMs == (k - 1 - i) * setup.cacheTtlMs + setup.cacheTtlMs;
    }
  }

  /** However often the probes ask, at most window / ttl + 1 passes start within any window of time. */
  lemma PassesPerWindow(es: seq<Event>, setup: Setup, i: nat, k: nat, window: nat)
    requires Chronological(es) && setup.cacheTtlMs > 0 && i <= k < |Exec(es, setup).passes|
    requires Exec(es, setup).passes[k].startedAt <= Exec(es, setup).passes[i].startedAt + window
    ensures k - i + 1 <= window / setup.cacheTtlMs + 1
  {
    PassSpacing(es, setup, i, k);
    QuotientAtLeast(window, setup.cacheTtlMs, k - i);
  }

  /** The pass whose result the call at position j receives. */
  function ServedTo(es: seq<Event>, j: nat, setup: Setup): Served
    requires j < |es| && es[j].Evaluate?
  {
    var w := Exec(es[..j], setup);
    AfterEvaluate(w.registry, es[j].now, setup.cacheTtlMs, |w.passes|).1
  }

  /** Every caller gets a pass that finished less than the cache window before the call, or that has not finished when it calls. */
  lemma ResultsAreRecent(es: seq<Event>, j: nat, setup: Setup)
    requires Chronological(es) && j < |es| && es[j].Evaluate?
    ensures var before, after := Exec(es[..j], setup).passes, Exec(es[..j + 1], setup).passes;
            match ServedTo(es, j, setup)
            case FromCache(p) => p < |before| && before[p].finishedAt.Some? && es[j].now - setup.cacheTtlMs < before[p].finishedAt.value <= es[j].now
            case FromPass(p) => p < |after| && after[p].finishedAt.None?
  {
    var w := Exec(es[..j], setup);
    SingleFlightInvariant(es[..j], setup);
    SingleFlightInvariant(es[..j + 1], setup);
    assert es[..j + 1][..j] == es[..j];
    assert Exec(es[..j + 1], setup) == Step(w, es[j], setup);
    if j > 0 {
      assert es[..j][j - 1].now <= es[j].now;
    }
  }

  // ---------- passes and their checks ----------

  datatype Evaluated = Evaluated(name: string, critical: bool, result: HealthChecks.CheckResult)

  /** What a pass evaluates to: the results of the checks, in the order in which they are registered. */
  function Report(checks: seq<Check>, runs: seq<CheckHistory>): (r: seq<Evaluated>)
    requires |runs| == |checks| && forall i :: 0 <= i < |runs| ==> RunOf(runs[i]).result.Some?
    ensures |r| == |checks|
  {
    if checks == [] then []
    else
      var n := |checks| - 1;
      Report(checks[..n], runs[..n]) + [Evaluated(checks[n].name, checks[n].critical, RunOf(runs[n]).result.value)]
  }

  ghost predicate PassInv(p: Pass, setup: Setup) {
    |p.runs| == |setup.checks| && (p.finishedAt.Some? ==> Done(p))
  }

  lemma {:induction false} PassesAreComplete(es: seq<Event>, setup: Setup)
    ensures forall k :: 0 <= k < |Exec(es, setup).passes| ==> PassInv(Exec(es, setup).passes[k], setup)
  {
    if es != [] {
      var w, e := Exec(es[..|es| - 1], setup), es[|es| - 1];
      PassesAreComplete(es[..|es| - 1], setup);
      if e.CheckEvent? && e.pass < |w.passes| && e.check < |w.passes[e.pass].runs| {
        LateEventsChangeNothing(w.passes[e.pass], e.check, e.event, setup);
      }
    }
  }

  /** An event of a check that has its result leaves that result alone. */
  lemma LateEventChangesNothing(h: CheckHistory, e: HealthChecks.Event)
    requires RunOf(h).result.Some?
    ensures RunOf(h.(events := h.events + [e])).result == RunOf(h).result
  {
    assert (h.events + [e])[..|h.events|] == h.events;
    HealthChecks.ResultIsFinal(h.throws, h.events + [e], |h.events|);
  }

  lemma LateEventsChangeNothing(p: Pass, check: nat, e: HealthChecks.Event, setup: Setup)
    requires PassInv(p, setup) && check < |p.runs|
    ensures PassInv(WithEvent(p, check, e), setup)
    ensures p.finishedAt.Some? ==> forall i :: 0 <= i < |p.runs| ==> RunOf(WithEvent(p, check, e).runs[i]).result == RunOf(p.runs[i]).result
  {
    if p.finishedAt.Some? {
      LateEventChangesNothing(p.runs[check], e);
    }
  }

  lemma {:induction false} ReportAt(checks: seq<Check>, runs: seq<CheckHistory>, i: nat)
    requires |runs| == |checks| && i < |checks|
    requires forall k :: 0 <= k < |runs| ==> RunOf(runs[k]).result.Some?
    ensures Report(checks, runs)[i] == Evaluated(checks[i].name, checks[i].critical, RunOf(runs[i]).result.value)
  {
    if i < |checks| - 1 {
      ReportAt(checks[..|checks| - 1], runs[..|checks| - 1], i);
    }
  }

  /**
   A finished pass has one result per check, at the check's own place: the check's outcome if that came before its
   timer, the name of the error it failed with, or the timeout; and no detail is longer than allowed.
   */
  lemma PassCoversEveryCheck(es: seq<Event>, setup: Setup, k: nat, i: nat)
    requires k < |Exec(es, setup).passes| && Exec(es, setup).passes[k].finishedAt.Some? && i < |setup.checks|
    ensures var p := Exec(es, setup).passes[k];
            && PassInv(p, setup)
            && var evaluated := Report(setup.checks, p.runs)[i];
               && evaluated.name == setup.checks[i].name && evaluated.critical == setup.checks[i].critical
               && Some(evaluated.result) == HealthChecks.Verdict(p.runs[i].throws, p.runs[i].events)
               && !RunOf(p.runs[i]).timerArmed
               && (evaluated.result.detail.Some? ==> |evaluated.result.detail.value| <= HealthChecks.MAX_DETAIL_LENGTH)
  {
    PassesAreComplete(es, setup);
    var p := Exec(es, setup).passes[k];
    ReportAt(setup.checks, p.runs, i);
    HealthChecks.FirstSettlementWins(p.runs[i].throws, p.runs[i].events);
  }

  /**
   What that means, check by check. A check that threw at once, or rejected before its timer, fails with the first 120
   characters of the error's name and nothing else; one whose timer came first fails with "timeout"; and one that
   answered first keeps its status and observed value, and of its detail the first 120 characters.
   */
  lemma ResultsInPlainWords(es: seq<Event>, setup: Setup, k: nat, i: nat)
    requires k < |Exec(es, setup).passes| && Exec(es, setup).passes[k].finishedAt.Some? && i < |setup.checks|
    ensures var p := Exec(es, setup).passes[k];
            && PassInv(p, setup)
            && var h, result := p.runs[i], Report(setup.checks, p.runs)[i].result;
               match h.throws
               case Some(name) => FailedWith(result, name)
               case None =>
                 exists d :: 0 <= d < |h.events| && (forall j :: 0 <= j < d ==> h.events[j] == HealthChecks.MicrotaskRuns)
                          && ResultOf(result, h.events[d])
  {
    PassCoversEveryCheck(es, setup, k, i);
    var h := Exec(es, setup).passes[k].runs[i];
    var d := HealthChecks.FirstDecision(h.events);
    if h.throws.None? {
      assert forall j :: 0 <= j < d ==> h.events[j] == HealthChecks.MicrotaskRuns;
      assert ResultOf(Report(setup.checks, Exec(es, setup).passes[k].runs)[i].result, h.events[d]);
    }
  }

  ghost predicate FailedWith(result: HealthChecks.CheckResult, name: string) {
    && result.status == HealthChecks.FailStatus
    && result.detail == Some(if |name| <= 120 then name else name[..120])
    && result.observedValue == None
  }

  /** The result a check has if this is the first thing to happen to it, besides microtasks. */
  ghost predicate ResultOf(result: HealthChecks.CheckResult, first: HealthChecks.Event) {
    match first
    case Settles(Rejected(name)) => FailedWith(result, name)
    case TimerFires => result.status == HealthChecks.FailStatus && result.detail == Some("timeout") && result.observedValue == None
    case Settles(Resolved(own)) =>
      && result.status == own.status
      && result.observedValue == own.observedValue
      && (own.detail.None? ==> result.detail == None)
      && (own.detail.Some? ==> result.detail == Some(if |own.detail.value| <= 120 then own.detail.value else own.detail.value[..120]))
    case MicrotaskRuns => false
  }

  /** The results of a finished pass never change, whatever its checks still do. */
  lemma {:induction false} ReportIsFinal(es: seq<Event>, setup: Setup, n: nat, k: nat)
    requires n <= |es| && k < |Exec(es[..n], setup).passes| && Exec(es[..n], setup).passes[k].finishedAt.Some?
    ensures k < |Exec(es, setup).passes|
    ensures var before, after := Exec(es[..n], setup).passes[k], Exec(es, setup).passes[k];
            && after.finishedAt.Some? && PassInv(before, setup) && PassInv(after, setup)
            && Report(setup.checks, after.runs) == Report(setup.checks, before.runs)
    decreases |es|
  {
    PassesAreComplete(es[..n], setup);
    PassesAreComplete(es, setup);
    if n < |es| {
      assert es[..|es| - 1][..n] == es[..n];
      ReportIsFinal(es[..|es| - 1], setup, n, k);
      PassesAreComplete(es[..|es| - 1], setup);
      StepKeepsResults(Exec(es[..|es| - 1], setup), es[|es| - 1], setup, k);
      SameReport(setup.checks, Exec(es[..|es| - 1], setup).passes[k].runs, Exec(es, setup).passes[k].runs);
    } else {
      assert es[..n] == es;
    }
  }

  lemma StepKeepsResults(w: World, e: Event, setup: Setup, k: nat)
    requires k < |w.passes| && PassInv(w.passes[k], setup) && w.passes[k].finishedAt.Some?
    ensures k < |Step(w, e, setup).passes|
    ensures var before, after := w.passes[k], Step(w, e, setup).passes[k];
            && after.finishedAt.Some? && |after.runs| == |before.runs|
            && forall i :: 0 <= i < |before.runs| ==> RunOf(after.runs[i]).result == RunOf(before.runs[i]).result
  {
    if e.CheckEvent? && e.pass == k && e.check < |w.passes[k].runs| {
      LateEventsChangeNothing(w.passes[k], e.check, e.event, setup);
    }
  }

  lemma SameReport(checks: seq<Check>, runs: seq<CheckHistory>, runs': seq<CheckHistory>)
    requires |runs| == |checks| == |runs'|
    requires forall k :: 0 <= k < |runs| ==> RunOf(runs[k]).result.Some? && RunOf(runs'[k]).result == RunOf(runs[k]).result
    ensures Report(checks, runs') == Report(checks, runs)
  {
    forall i | 0 <= i < |checks| ensures Report(checks, runs')[i] == Report(checks, runs)[i] {
      ReportAt(checks, runs, i);
      ReportAt(checks, runs', i);
    }
  }

  // ---------- the flight is never stuck ----------

  /** Something that will happen by itself: the check's timer is armed, or microtasks are waiting. */
  predicate Moving(r: HealthChecks.CheckRun) {
    r.timerArmed || r.jobs != []
  }

  /** While a pass is in flight, one of its checks is on its way to a result, or the pass is ready to end. */
  lemma FlightIsNeverStuck(es: seq<Event>, setup: Setup)
    requires Chronological(es) && Exec(es, setup).registry.inFlight.Some?
    ensures var w := Exec(es, setup);
            var p := w.registry.inFlight.value;
            p < |w.passes| && (Done(w.passes[p]) || exists i :: 0 <= i < |w.passes[p].runs| && Moving(RunOf(w.passes[p].runs[i])))
  {
    OpenPassIsTheLast(es, setup);
    var w := Exec(es, setup);
    var p := w.passes[w.registry.inFlight.value];
    if !Done(p) {
      var i :| 0 <= i < |p.runs| && RunOf(p.runs[i]).result.None?;
      HealthChecks.UndecidedChecksHaveATimer(p.runs[i].throws, p.runs[i].events);
      assert Moving(RunOf(p.runs[i]));
    }
  }

  /** The check has thrown, or its timer has fired; and the microtasks this set off have run. */
  ghost predicate FiredAndQuiet(h: CheckHistory) {
    (h.throws.Some? || HealthChecks.TimerFires in h.events) && RunOf(h).jobs == []
  }

  /** A flight whose timers have all fired ends, at whatever time its end is noticed: even if every check hangs. */
  lemma FlightEndsOnceTimersHaveFired(es: seq<Event>, setup: Setup, now: int)
    requires Chronological(es) && Exec(es, setup).registry.inFlight.Some?
    requires var w := Exec(es, setup);
             var p := w.registry.inFlight.value;
             p < |w.passes| ==> forall i :: 0 <= i < |w.passes[p].runs| ==> FiredAndQuiet(w.passes[p].runs[i])
    ensures var p := Exec(es, setup).registry.inFlight.value;
            var w := Exec(es + [PassEnds(now)], setup);
            && w.registry == Registry(None, Some(CachedPass(now, p)))
            && p < |w.passes| && w.passes[p].finishedAt == Some(now) && Done(w.passes[p])
  {
    OpenPassIsTheLast(es, setup);
    var w := Exec(es, setup);
    var p := w.passes[w.registry.inFlight.value];
    forall i | 0 <= i < |p.runs| ensures RunOf(p.runs[i]).result.Some? {
      assert FiredAndQuiet(p.runs[i]);
      HealthChecks.DecidedChecksEnd(p.runs[i].throws, p.runs[i].events);
    }
    assert (es + [PassEnds(now)])[..|es|] == es;
  }
}
