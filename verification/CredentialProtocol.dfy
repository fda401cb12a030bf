/**
 The epoch protocol that both caching auth strategies follow
 (packages/http-provider/src/strategies/TokenExchangeStrategy.ts:28-59 and
 packages/http-provider/src/strategies/JwtSelfSignedStrategy.ts:18-56).

 Every `await`, `.then` and `.finally` boundary is one step. A promise is named by the index of
 the fetch behind it, in the order the fetches were started.
 */
module CredentialProtocol {
  import opened Wrappers

  const EXPIRY_BUFFER_SECONDS := 30

  /** The fields of a strategy. `expiresAt` stays None for the token exchange. */
  datatype Core<T> = Core(
    cached: Option<T>,
    expiresAt: Option<int>,
    inFlight: Option<nat>,
    inFlightEpoch: Option<nat>,
    cacheEpoch: nat)

  /** What `getCredentials` hands back: a cached value or the promise of a fetch. */
  datatype Answer<T> = FromCache(value: T) | FromFetch(fetch: nat)

  function InitialCore<T>(): Core<T> {
    Core(None, None, None, None, 0)
  }

  predicate Expired(expiresAt: Option<int>, now: int) {
    expiresAt.Some? && now >= expiresAt.value - EXPIRY_BUFFER_SECONDS
  }

  function Expiry(lifetime: Option<int>, now: int): Option<int> {
    if lifetime.Some? then Some(now + lifetime.value) else None
  }

  /** `getCredentials`; a fetch it has to start gets the index `newFetch`. */
  function AfterCall<T>(c: Core<T>, now: int, newFetch: nat): (Core<T>, Answer<T>) {
    if c.cached.Some? && !Expired(c.expiresAt, now) then (c, FromCache(c.cached.value))
    else if c.inFlight.Some? && c.inFlightEpoch == Some(c.cacheEpoch) then (c, FromFetch(c.inFlight.value))
    else (c.(inFlight := Some(newFetch), inFlightEpoch := Some(c.cacheEpoch)), FromFetch(newFetch))
  }

  function AfterInvalidate<T>(c: Core<T>): Core<T> {
    c.(cacheEpoch := c.cacheEpoch + 1, cached := None, expiresAt := None)
  }

  /** The `.then` callback of a fetch started in `requestEpoch`. */
  function AfterFulfilled<T>(c: Core<T>, requestEpoch: nat, value: T, expiresAt: Option<int>): Core<T> {
    if c.cacheEpoch == requestEpoch then c.(cached := Some(value), expiresAt := expiresAt) else c
  }

  /** The `.finally` callback of a fetch started in `requestEpoch`. */
  function AfterSettled<T>(c: Core<T>, requestEpoch: nat): Core<T> {
    if c.inFlightEpoch == Some(requestEpoch) then c.(inFlight := None, inFlightEpoch := None) else c
  }

  // ---------- runs ----------

  datatype Outcome<T> = Running | Fulfilled(value: T, at: int) | Rejected

  /** The record kept of one fetch: the position of the call that started it, and its fate. */
  datatype Fetch<T> = Fetch(startedAt: nat, epoch: nat, outcome: Outcome<T>, settled: bool)

  datatype World<T> = World(core: Core<T>, fetches: seq<Fetch<T>>)

  datatype Event<T> =
    | Call(now: int)
    | Invalidate
    | Fulfil(fetch: nat, value: T, now: int)
    | Reject(fetch: nat)
    | Settle(fetch: nat)

  predicate IsRunning<T>(w: World<T>, f: nat) {
    f < |w.fetches| && w.fetches[f].outcome.Running?
  }

  predicate AwaitsSettling<T>(w: World<T>, f: nat) {
    f < |w.fetches| && !w.fetches[f].outcome.Running? && !w.fetches[f].settled
  }

  function Initial<T>(): World<T> {
    World(InitialCore(), [])
  }

  /** One step at position `at` of a run. A callback whose promise is in another state does not exist: skipped. */
  function Step<T>(w: World<T>, e: Event<T>, at: nat, lifetime: Option<int>): World<T> {
    match e
    case Call(now) =>
      var (core, answer) := AfterCall(w.core, now, |w.fetches|);
      if answer == FromFetch(|w.fetches|) then
        World(core, w.fetches + [Fetch(at, w.core.cacheEpoch, Running, false)])
      else w.(core := core)
    case Invalidate => w.(core := AfterInvalidate(w.core))
    case Fulfil(f, value, now) =>
      if !IsRunning(w, f) then w
      else World(AfterFulfilled(w.core, w.fetches[f].epoch, value, Expiry(lifetime, now)),
                 w.fetches[f := w.fetches[f].(outcome := Fulfilled(value, now))])
    case Reject(f) =>
      if !IsRunning(w, f) then w
      else w.(fetches := w.fetches[f := w.fetches[f].(outcome := Rejected)])
    case Settle(f) =>
      if !AwaitsSettling(w, f) then w
      else World(AfterSettled(w.core, w.fetches[f].epoch), w.fetches[f := w.fetches[f].(settled := true)])
  }

  /** The world after a whole run. */
  function Exec<T>(es: seq<Event<T>>, lifetime: Option<int>): World<T> {
    if es == [] then Initial()
    else Step(Exec(es[..|es| - 1], lifetime), es[|es| - 1], |es| - 1, lifetime)
  }

  function Invalidations<T>(es: seq<Event<T>>): nat {
    if es == [] then 0 else Invalidations(es[..|es| - 1]) + (if es[|es| - 1].Invalidate? then 1 else 0)
  }

  ghost predicate NoInvalidateBetween<T>(es: seq<Event<T>>, lo: nat, hi: nat)
    requires lo <= hi <= |es|
  {
    forall k :: lo <= k < hi ==> !es[k].Invalidate?
  }

  /** The answer the call at position `j` got. */
  function AnswerTo<T>(es: seq<Event<T>>, j: nat, lifetime: Option<int>): Answer<T>
    requires j < |es| && es[j].Call?
  {
    var w := Exec(es[..j], lifetime);
    AfterCall(w.core, es[j].now, |w.fetches|).1
  }

  /** The credentials the call at position `j` has received by the end of the run, if any. */
  function Yield<T>(es: seq<Event<T>>, j: nat, lifetime: Option<int>): Option<T>
    requires j < |es| && es[j].Call?
  {
    match AnswerTo(es, j, lifetime)
    case FromCache(v) => Some(v)
    case FromFetch(f) =>
      var fetches := Exec(es, lifetime).fetches;
      if f < |fetches| && fetches[f].settled && fetches[f].outcome.Fulfilled? then Some(fetches[f].outcome.value)
      else None
  }

  // ---------- the inductive invariant ----------

  /** `g` was started after `f`: its epoch is no older, and newer if `f` is still unfinished. */
  ghost predicate Follows<T>(g: Fetch<T>, f: Fetch<T>) {
    f.epoch <= g.epoch && (!f.settled ==> f.epoch < g.epoch)
  }

  ghost predicate Recorded<T>(f: Fetch<T>, cacheEpoch: nat) {
    f.epoch <= cacheEpoch && (f.settled ==> !f.outcome.Running?)
  }

  ghost predicate FetchesInv<T>(w: World<T>) {
    && (forall i, k :: 0 <= i < k < |w.fetches| ==> Follows(w.fetches[k], w.fetches[i]))
    && (forall i :: 0 <= i < |w.fetches| ==> Recorded(w.fetches[i], w.core.cacheEpoch))
  }

  ghost predicate InFlightInv<T>(w: World<T>) {
    && (w.core.inFlight.Some? <==> w.core.inFlightEpoch.Some?)
    && (w.core.inFlight.Some? ==>
          var f := w.core.inFlight.value;
          f < |w.fetches| && !w.fetches[f].settled && w.core.inFlightEpoch == Some(w.fetches[f].epoch))
    && (forall i :: 0 <= i < |w.fetches| && !w.fetches[i].settled && w.fetches[i].epoch == w.core.cacheEpoch
          ==> w.core.inFlight == Some(i))
  }

  ghost predicate CameFrom<T>(w: World<T>, i: nat, lifetime: Option<int>)
    requires i < |w.fetches|
  {
    var o := w.fetches[i].outcome;
    && w.fetches[i].epoch == w.core.cacheEpoch
    && o.Fulfilled?
    && w.core.cached == Some(o.value)
    && w.core.expiresAt == Expiry(lifetime, o.at)
  }

  ghost predicate CacheInv<T>(w: World<T>, lifetime: Option<int>) {
    && (w.core.cached.Some? ==> exists i :: 0 <= i < |w.fetches| && CameFrom(w, i, lifetime))
    && (var last := |w.fetches| - 1;
        last >= 0 && w.fetches[last].epoch == w.core.cacheEpoch && w.fetches[last].outcome.Fulfilled?
        ==> CameFrom(w, last, lifetime))
  }

  /** Why a fetch after the first was started at all: a newer epoch, a failed predecessor, or an expired token. */
  ghost predicate Justified<T>(es: seq<Event<T>>, fetches: seq<Fetch<T>>, i: nat, lifetime: Option<int>)
    requires 1 <= i < |fetches|
  {
    || fetches[i - 1].epoch < fetches[i].epoch
    || (fetches[i - 1].settled &&
        match fetches[i - 1].outcome
        case Running => false
        case Rejected => true
        case Fulfilled(_, at) =>
          && fetches[i].startedAt < |es|
          && es[fetches[i].startedAt].Call?
          && Expired(Expiry(lifetime, at), es[fetches[i].startedAt].now))
  }

  ghost predicate StartRecorded<T>(es: seq<Event<T>>, f: Fetch<T>) {
    f.startedAt < |es| && es[f.startedAt].Call? && f.epoch == Invalidations(es[..f.startedAt])
  }

  ghost predicate HistoryInv<T>(es: seq<Event<T>>, w: World<T>, lifetime: Option<int>) {
    && w.core.cacheEpoch == Invalidations(es)
    && (forall i :: 0 <= i < |w.fetches| ==> StartRecorded(es, w.fetches[i]))
    && (forall i :: 1 <= i < |w.fetches| ==> Justified(es, w.fetches, i, lifetime))
  }

  ghost predicate Inv<T>(es: seq<Event<T>>, w: World<T>, lifetime: Option<int>) {
    FetchesInv(w) && InFlightInv(w) && CacheInv(w, lifetime) && HistoryInv(es, w, lifetime)
  }

  lemma {:induction false} ProtocolInvariant<T>(es: seq<Event<T>>, lifetime: Option<int>)
    ensures Inv(es, Exec(es, lifetime), lifetime)
  {
    if es != [] {
      var before, n := es[..|es| - 1], |es| - 1;
      ProtocolInvariant(before, lifetime);
      var w := Exec(before, lifetime);
      StepKeepsFetches(w, es[n], n, lifetime);
      StepKeepsCache(w, es[n], n, lifetime);
      StepKeepsHistory(w, es, lifetime);
    }
  }

  lemma StepKeepsFetches<T>(w: World<T>, e: Event<T>, at: nat, lifetime: Option<int>)
    requires FetchesInv(w) && InFlightInv(w)
    ensures var w' := Step(w, e, at, lifetime); FetchesInv(w') && InFlightInv(w')
  {
    match e
    case Call(_) => CallKeepsFetches(w, e, at, lifetime);
    case Invalidate =>
    case Fulfil(_, _, _) =>
    case Reject(_) =>
    case Settle(_) => SettleKeepsFetches(w, e, at, lifetime);
  }

  lemma CallKeepsFetches<T>(w: World<T>, e: Event<T>, at: nat, lifetime: Option<int>)
    requires FetchesInv(w) && InFlightInv(w) && e.Call?
    ensures var w' := Step(w, e, at, lifetime); FetchesInv(w') && InFlightInv(w')
  {
  }

  lemma SettleKeepsFetches<T>(w: World<T>, e: Event<T>, at: nat, lifetime: Option<int>)
    requires FetchesInv(w) && InFlightInv(w) && e.Settle?
    ensures var w' := Step(w, e, at, lifetime); FetchesInv(w') && InFlightInv(w')
  {
    var f := e.fetch;
    if AwaitsSettling(w, f) && w.core.inFlight.Some? && w.core.inFlight != Some(f) {
      var g := w.core.inFlight.value;
      assert if f < g then Follows(w.fetches[g], w.fetches[f]) else Follows(w.fetches[f], w.fetches[g]);
    }
  }

  lemma StepKeepsCache<T>(w: World<T>, e: Event<T>, at: nat, lifetime: Option<int>)
    requires FetchesInv(w) && InFlightInv(w) && CacheInv(w, lifetime)
    ensures CacheInv(Step(w, e, at, lifetime), lifetime)
  {
    match e
    case Invalidate =>
    case Fulfil(_, _, _) => FulfilKeepsCache(w, e, at, lifetime);
    case Call(_) => CallKeepsCache(w, e, at, lifetime);
    case Reject(_) => EndKeepsCache(w, e, at, lifetime);
    case Settle(_) => EndKeepsCache(w, e, at, lifetime);
  }

  lemma CallKeepsCache<T>(w: World<T>, e: Event<T>, at: nat, lifetime: Option<int>)
    requires CacheInv(w, lifetime) && e.Call?
    ensures CacheInv(Step(w, e, at, lifetime), lifetime)
  {
    CachedOriginKept(w, Step(w, e, at, lifetime), lifetime);
  }

  lemma EndKeepsCache<T>(w: World<T>, e: Event<T>, at: nat, lifetime: Option<int>)
    requires CacheInv(w, lifetime) && (e.Reject? || e.Settle?)
    ensures CacheInv(Step(w, e, at, lifetime), lifetime)
  {
    CachedOriginKept(w, Step(w, e, at, lifetime), lifetime);
  }

  lemma FulfilKeepsCache<T>(w: World<T>, e: Event<T>, at: nat, lifetime: Option<int>)
    requires FetchesInv(w) && InFlightInv(w) && CacheInv(w, lifetime) && e.Fulfil?
    ensures CacheInv(Step(w, e, at, lifetime), lifetime)
  {
    var w', f := Step(w, e, at, lifetime), e.fetch;
    if IsRunning(w, f) && w.fetches[f].epoch == w.core.cacheEpoch {
      assert CameFrom(w', f, lifetime);
    } else {
      CachedOriginKept(w, w', lifetime);
    }
  }

  /** A step that leaves the cached value, the epoch and the fulfilled fetches alone leaves the cached value's origin alone. */
  lemma CachedOriginKept<T>(w: World<T>, w': World<T>, lifetime: Option<int>)
    requires CacheInv(w, lifetime)
    requires w'.core.cached == w.core.cached && w'.core.expiresAt == w.core.expiresAt
    requires w'.core.cacheEpoch == w.core.cacheEpoch && |w'.fetches| >= |w.fetches|
    requires forall i :: 0 <= i < |w.fetches| ==>
               && w'.fetches[i].epoch == w.fetches[i].epoch
               && (w.fetches[i].outcome.Fulfilled? ==> w'.fetches[i].outcome == w.fetches[i].outcome)
    ensures w'.core.cached.Some? ==> exists i :: 0 <= i < |w'.fetches| && CameFrom(w', i, lifetime)
  {
    if w.core.cached.Some? {
      var i :| 0 <= i < |w.fetches| && CameFrom(w, i, lifetime);
      assert CameFrom(w', i, lifetime);
    }
  }

  lemma StepKeepsHistory<T>(w: World<T>, es: seq<Event<T>>, lifetime: Option<int>)
    requires es != [] && Inv(es[..|es| - 1], w, lifetime)
    ensures HistoryInv(es, Step(w, es[|es| - 1], |es| - 1, lifetime), lifetime)
  {
    var w' := Step(w, es[|es| - 1], |es| - 1, lifetime);
    forall i | 0 <= i < |w'.fetches| ensures StartRecorded(es, w'.fetches[i]) {
      StepKeepsStart(w, es, i, lifetime);
    }
    forall i | 1 <= i < |w'.fetches| ensures Justified(es, w'.fetches, i, lifetime) {
      StepKeepsJustified(w, es, i, lifetime);
    }
  }

  lemma StepKeepsStart<T>(w: World<T>, es: seq<Event<T>>, i: nat, lifetime: Option<int>)
    requires es != [] && HistoryInv(es[..|es| - 1], w, lifetime)
    requires i < |Step(w, es[|es| - 1], |es| - 1, lifetime).fetches|
    ensures StartRecorded(es, Step(w, es[|es| - 1], |es| - 1, lifetime).fetches[i])
  {
    if i < |w.fetches| {
      var before := es[..|es| - 1];
      assert StartRecorded(before, w.fetches[i]);
      assert before[..w.fetches[i].startedAt] == es[..w.fetches[i].startedAt];
    }
  }

  lemma StepKeepsJustified<T>(w: World<T>, es: seq<Event<T>>, i: nat, lifetime: Option<int>)
    requires es != [] && Inv(es[..|es| - 1], w, lifetime)
    requires 1 <= i < |Step(w, es[|es| - 1], |es| - 1, lifetime).fetches|
    ensures Justified(es, Step(w, es[|es| - 1], |es| - 1, lifetime).fetches, i, lifetime)
  {
    if i < |w.fetches| {
      OldFetchStaysJustified(w, es, i, lifetime);
    } else {
      NewFetchIsJustified(w, es[|es| - 1], lifetime);
    }
  }

  lemma OldFetchStaysJustified<T>(w: World<T>, es: seq<Event<T>>, i: nat, lifetime: Option<int>)
    requires es != [] && HistoryInv(es[..|es| - 1], w, lifetime) && 1 <= i < |w.fetches|
    requires forall k :: 0 <= k < |w.fetches| ==> Recorded(w.fetches[k], w.core.cacheEpoch)
    ensures Justified(es, Step(w, es[|es| - 1], |es| - 1, lifetime).fetches, i, lifetime)
  {
    assert Justified(es[..|es| - 1], w.fetches, i, lifetime);
  }

  /** A call starts a fetch only when the last one is of an older epoch, has failed, or left an expired value. */
  lemma NewFetchIsJustified<T>(w: World<T>, e: Event<T>, lifetime: Option<int>)
    requires FetchesInv(w) && InFlightInv(w) && CacheInv(w, lifetime)
    requires e.Call? && AfterCall(w.core, e.now, |w.fetches|).1 == FromFetch(|w.fetches|) && w.fetches != []
    ensures var last := w.fetches[|w.fetches| - 1];
            || last.epoch < w.core.cacheEpoch
            || (last.settled && (last.outcome.Rejected?
                                 || (last.outcome.Fulfilled? && Expired(Expiry(lifetime, last.outcome.at), e.now))))
  {
  }

  // ---------- freshness ----------

  lemma {:induction false} EqualCountsNoInvalidate<T>(es: seq<Event<T>>, lo: nat, hi: nat)
    requires lo <= hi <= |es|
    ensures Invalidations(es[..lo]) <= Invalidations(es[..hi])
    ensures Invalidations(es[..lo]) == Invalidations(es[..hi]) <==> NoInvalidateBetween(es, lo, hi)
    decreases hi
  {
    if lo < hi {
      assert es[..hi][..hi - 1] == es[..hi - 1];
      EqualCountsNoInvalidate(es, lo, hi - 1);
    }
  }

  /** What a fetch has become is never rewritten later in the run. */
  lemma {:induction false} FetchRecordIsStable<T>(es: seq<Event<T>>, j: nat, i: nat, lifetime: Option<int>)
    requires j <= |es| && i < |Exec(es[..j], lifetime).fetches|
    ensures i < |Exec(es, lifetime).fetches|
    ensures var f, g := Exec(es[..j], lifetime).fetches[i], Exec(es, lifetime).fetches[i];
            && g.startedAt == f.startedAt && g.epoch == f.epoch
            && (!f.outcome.Running? ==> g.outcome == f.outcome)
            && (f.settled ==> g.settled)
    decreases |es|
  {
    if j == |es| {
      assert es[..j] == es;
    } else {
      assert es[..|es| - 1][..j] == es[..j];
      FetchRecordIsStable(es[..|es| - 1], j, i, lifetime);
    }
  }

  /** Fetch `i` began at or before position `j`, and nothing was invalidated from its start until `j`. */
  ghost predicate FreshFor<T>(es: seq<Event<T>>, f: Fetch<T>, j: nat)
    requires j <= |es|
  {
    f.startedAt <= j && NoInvalidateBetween(es, f.startedAt, j)
  }

  lemma CurrentFetchIsFresh<T>(es: seq<Event<T>>, j: nat, i: nat, lifetime: Option<int>)
    requires j <= |es| && i < |Exec(es[..j], lifetime).fetches|
    requires Exec(es[..j], lifetime).fetches[i].epoch == Exec(es[..j], lifetime).core.cacheEpoch
    ensures i < |Exec(es, lifetime).fetches| && FreshFor(es, Exec(es, lifetime).fetches[i], j)
  {
    ProtocolInvariant(es[..j], lifetime);
    var f := Exec(es[..j], lifetime).fetches[i];
    assert StartRecorded(es[..j], f);
    assert es[..j][..f.startedAt] == es[..f.startedAt];
    EqualCountsNoInvalidate(es, f.startedAt, j);
    FetchRecordIsStable(es, j, i, lifetime);
  }

  /** Whatever answers a call belongs to the epoch of the call. */
  lemma AnswerIsFresh<T>(es: seq<Event<T>>, j: nat, lifetime: Option<int>)
    requires j < |es| && es[j].Call?
    ensures match AnswerTo(es, j, lifetime)
            case FromFetch(f) =>
              f < |Exec(es, lifetime).fetches| && FreshFor(es, Exec(es, lifetime).fetches[f], j)
            case FromCache(v) =>
              exists i :: 0 <= i < |Exec(es, lifetime).fetches|
                       && FreshFor(es, Exec(es, lifetime).fetches[i], j)
                       && CacheHitWithinLifetime(Exec(es, lifetime).fetches[i], v, es[j].now, lifetime)
  {
    match AnswerTo(es, j, lifetime)
    case FromCache(v) => CachedAnswerIsFresh(es, j, lifetime);
    case FromFetch(f) => FetchedAnswerIsFresh(es, j, lifetime);
  }

  lemma CachedAnswerIsFresh<T>(es: seq<Event<T>>, j: nat, lifetime: Option<int>)
    requires j < |es| && es[j].Call? && AnswerTo(es, j, lifetime).FromCache?
    ensures exists i :: 0 <= i < |Exec(es, lifetime).fetches|
                     && FreshFor(es, Exec(es, lifetime).fetches[i], j)
                     && CacheHitWithinLifetime(Exec(es, lifetime).fetches[i], AnswerTo(es, j, lifetime).value, es[j].now, lifetime)
  {
    var w := Exec(es[..j], lifetime);
    ProtocolInvariant(es[..j], lifetime);
    var i :| 0 <= i < |w.fetches| && CameFrom(w, i, lifetime);
    CurrentFetchIsFresh(es, j, i, lifetime);
    FetchRecordIsStable(es, j, i, lifetime);
    assert CacheHitWithinLifetime(w.fetches[i], AnswerTo(es, j, lifetime).value, es[j].now, lifetime);
  }

  lemma FetchedAnswerIsFresh<T>(es: seq<Event<T>>, j: nat, lifetime: Option<int>)
    requires j < |es| && es[j].Call? && AnswerTo(es, j, lifetime).FromFetch?
    ensures var f := AnswerTo(es, j, lifetime).fetch;
            f < |Exec(es, lifetime).fetches| && FreshFor(es, Exec(es, lifetime).fetches[f], j)
  {
    if AnswerTo(es, j, lifetime).fetch < |Exec(es[..j], lifetime).fetches| {
      JoinedFetchIsCurrent(es, j, lifetime);
      CurrentFetchIsFresh(es, j, AnswerTo(es, j, lifetime).fetch, lifetime);
    } else {
      OwnFetchStartsNow(es, j, lifetime);
      FetchRecordIsStable(es, j + 1, AnswerTo(es, j, lifetime).fetch, lifetime);
    }
  }

  lemma JoinedFetchIsCurrent<T>(es: seq<Event<T>>, j: nat, lifetime: Option<int>)
    requires j < |es| && es[j].Call? && AnswerTo(es, j, lifetime).FromFetch?
    requires AnswerTo(es, j, lifetime).fetch < |Exec(es[..j], lifetime).fetches|
    ensures var w := Exec(es[..j], lifetime); w.fetches[AnswerTo(es, j, lifetime).fetch].epoch == w.core.cacheEpoch
  {
    ProtocolInvariant(es[..j], lifetime);
  }

  lemma OwnFetchStartsNow<T>(es: seq<Event<T>>, j: nat, lifetime: Option<int>)
    requires j < |es| && es[j].Call? && AnswerTo(es, j, lifetime).FromFetch?
    requires AnswerTo(es, j, lifetime).fetch >= |Exec(es[..j], lifetime).fetches|
    ensures var f, fetches := AnswerTo(es, j, lifetime).fetch, Exec(es[..j + 1], lifetime).fetches;
            f < |fetches| && fetches[f].startedAt == j
  {
    ProtocolInvariant(es[..j], lifetime);
    assert es[..j + 1] == es[..j] + [es[j]];
    ExecOneMore(es[..j], es[j], lifetime);
  }

  /** A cached value is served only while more than the buffer remains of its lifetime. */
  ghost predicate CacheHitWithinLifetime<T>(f: Fetch<T>, v: T, now: int, lifetime: Option<int>) {
    && f.outcome.Fulfilled? && f.outcome.value == v
    && (lifetime.Some? ==> now < f.outcome.at + lifetime.value - 30)
  }

  /** Freshness: in every run, what a call yields was fetched with no invalidation between that fetch's start and the call. */
  lemma Freshness<T>(es: seq<Event<T>>, j: nat, lifetime: Option<int>)
    requires j < |es| && es[j].Call? && Yield(es, j, lifetime).Some?
    ensures exists i :: 0 <= i < |Exec(es, lifetime).fetches|
                     && FreshFor(es, Exec(es, lifetime).fetches[i], j)
                     && Exec(es, lifetime).fetches[i].outcome.Fulfilled?
                     && Exec(es, lifetime).fetches[i].outcome.value == Yield(es, j, lifetime).value
  {
    AnswerIsFresh(es, j, lifetime);
    var answer := AnswerTo(es, j, lifetime);
    if answer.FromFetch? {
      assert FreshFor(es, Exec(es, lifetime).fetches[answer.fetch], j);
    }
  }

  /** The replay of a 401: whatever a call after an invalidation yields was fetched after that invalidation. */
  lemma CredentialsAfterInvalidate<T>(es: seq<Event<T>>, k: nat, j: nat, lifetime: Option<int>)
    requires k < j < |es| && es[k].Invalidate? && es[j].Call? && Yield(es, j, lifetime).Some?
    ensures exists i :: 0 <= i < |Exec(es, lifetime).fetches|
                     && k < Exec(es, lifetime).fetches[i].startedAt <= j
                     && Exec(es, lifetime).fetches[i].outcome.Fulfilled?
                     && Exec(es, lifetime).fetches[i].outcome.value == Yield(es, j, lifetime).value
  {
    Freshness(es, j, lifetime);
    var i :| 0 <= i < |Exec(es, lifetime).fetches|
             && FreshFor(es, Exec(es, lifetime).fetches[i], j)
             && Exec(es, lifetime).fetches[i].outcome.Fulfilled?
             && Exec(es, lifetime).fetches[i].outcome.value == Yield(es, j, lifetime).value;
    ProtocolInvariant(es, lifetime);
  }

  /** A fetch overtaken by an invalidation neither fills the cache nor clears another fetch's in-flight entry. */
  lemma LateFetchIsInert<T>(es: seq<Event<T>>, e: Event<T>, lifetime: Option<int>)
    requires e.Fulfil? || e.Reject? || e.Settle?
    requires var w := Exec(es, lifetime);
             && e.fetch < |w.fetches|
             && exists k :: w.fetches[e.fetch].startedAt <= k < |es| && es[k].Invalidate?
    ensures var w, w' := Exec(es, lifetime), Exec(es + [e], lifetime);
            && w'.core.cached == w.core.cached
            && w'.core.expiresAt == w.core.expiresAt
            && (w.core.inFlight != Some(e.fetch) ==> w'.core == w.core)
  {
    var w := Exec(es, lifetime);
    ProtocolInvariant(es, lifetime);
    ExecOneMore(es, e, lifetime);
    assert es[..|es|] == es;
    EqualCountsNoInvalidate(es, w.fetches[e.fetch].startedAt, |es|);
    assert w.fetches[e.fetch].epoch < w.core.cacheEpoch;
  }

  // ---------- economy ----------

  /** Two unfinished fetches never belong to the same epoch. */
  lemma UnfinishedFetchesHaveDistinctEpochs<T>(es: seq<Event<T>>, i: nat, k: nat, lifetime: Option<int>)
    requires i < k < |Exec(es, lifetime).fetches|
    requires !Exec(es, lifetime).fetches[i].settled && !Exec(es, lifetime).fetches[k].settled
    ensures Exec(es, lifetime).fetches[i].epoch != Exec(es, lifetime).fetches[k].epoch
  {
    ProtocolInvariant(es, lifetime);
  }

  function Failures<T>(fetches: seq<Fetch<T>>): nat {
    if fetches == [] then 0
    else Failures(fetches[..|fetches| - 1]) + (if fetches[|fetches| - 1].outcome.Rejected? then 1 else 0)
  }

  /** Fetches started because the previous token of the same epoch had run into its expiry buffer. */
  function Renewals<T>(fetches: seq<Fetch<T>>): nat {
    if |fetches| <= 1 then 0
    else
      var n := |fetches| - 1;
      Renewals(fetches[..n]) +
      (if Renews(fetches, n) then 1 else 0)
  }

  /** Fetch `i` replaces a token of its own epoch that was obtained and has since become unusable. */
  predicate Renews<T>(fetches: seq<Fetch<T>>, i: nat)
    requires 1 <= i < |fetches|
  {
    fetches[i - 1].epoch == fetches[i].epoch && fetches[i - 1].outcome.Fulfilled?
  }

  lemma {:induction false} EconomyOfPrefix<T>(es: seq<Event<T>>, fetches: seq<Fetch<T>>, n: nat, lifetime: Option<int>)
    requires 1 <= n <= |fetches|
    requires forall i :: 1 <= i < |fetches| ==> Justified(es, fetches, i, lifetime)
    requires forall i :: 1 <= i < |fetches| ==> fetches[i - 1].epoch <= fetches[i].epoch
    ensures n + (if fetches[n - 1].outcome.Rejected? then 1 else 0)
         <= 1 + fetches[n - 1].epoch + Failures(fetches[..n]) + Renewals(fetches[..n])
    ensures lifetime.None? ==> Renewals(fetches[..n]) == 0
  {
    assert fetches[..n][..n - 1] == fetches[..n - 1];
    if n > 1 {
      assert Justified(es, fetches, n - 1, lifetime);
      EconomyOfPrefix(es, fetches, n - 1, lifetime);
    }
  }

  /**
   However many callers there are, the fetches started are at most one more than the invalidations, the
   failed fetches and the renewals together; a token exchange has no renewals.
   */
  lemma FetchEconomy<T>(es: seq<Event<T>>, lifetime: Option<int>)
    ensures var fetches := Exec(es, lifetime).fetches;
            && |fetches| <= 1 + Invalidations(es) + Failures(fetches) + Renewals(fetches)
            && (lifetime.None? ==> |fetches| <= 1 + Invalidations(es) + Failures(fetches))
  {
    ProtocolInvariant(es, lifetime);
    var fetches := Exec(es, lifetime).fetches;
    if fetches != [] {
      EconomyOfPrefix(es, fetches, |fetches|, lifetime);
      assert fetches[..|fetches|] == fetches;
    }
  }

  /** A token of any lifetime, asked for again when that is over: two fetches, nothing invalidated and nothing failed. */
  function RenewingRun<T>(v: T, lifetime: int): seq<Event<T>> {
    [Call(0), Fulfil(0, v, 0), Settle(0), Call(lifetime)]
  }

  lemma PlainBoundFails<T>(v: T, lifetime: int)
    ensures var es := RenewingRun(v, lifetime);
            var fetches := Exec(es, Some(lifetime)).fetches;
            |fetches| == 2 && Invalidations(es) == 0 && Failures(fetches) == 0 && Renewals(fetches) == 1
  {
    RenewingRunEnds(v, lifetime);
    CountsOfARenewal(Fetch(0, 0, Fulfilled(v, 0), true), Fetch(3, 0, Running, false));
  }

  lemma CountsOfARenewal<T>(f: Fetch<T>, g: Fetch<T>)
    requires f.epoch == g.epoch && f.outcome.Fulfilled? && g.outcome.Running?
    ensures Failures([f, g]) == 0 && Renewals([f, g]) == 1
  {
    assert [f, g][..1] == [f] && [f][..0] == [];
    assert Failures([f]) == 0 && Renewals([f]) == 0;
    assert Renews([f, g], 1);
    assert Failures([f, g]) == Failures([f, g][..1]);
    assert Renewals([f, g]) == Renewals([f, g][..1]) + 1;
  }

  lemma RenewingRunEnds<T>(v: T, lifetime: int)
    ensures var es := RenewingRun(v, lifetime);
            && Exec(es, Some(lifetime)).fetches == [Fetch(0, 0, Fulfilled(v, 0), true), Fetch(3, 0, Running, false)]
            && Invalidations(es) == 0
  {
    var call: Event<T>, fulfil, settle, again := Call(0), Fulfil(0, v, 0), Settle(0), Call(lifetime);
    ExecOneMore([], call, Some(lifetime));
    assert [] + [call] == [call];
    assert Exec([call], Some(lifetime)) == World(Core(None, None, Some(0), Some(0), 0), [Fetch(0, 0, Running, false)]);
    ExecOneMore([call], fulfil, Some(lifetime));
    assert [call] + [fulfil] == [call, fulfil];
    assert Exec([call, fulfil], Some(lifetime))
        == World(Core(Some(v), Some(lifetime), Some(0), Some(0), 0), [Fetch(0, 0, Fulfilled(v, 0), false)]);
    ExecOneMore([call, fulfil], settle, Some(lifetime));
    assert [call, fulfil] + [settle] == [call, fulfil, settle];
    assert Exec([call, fulfil, settle], Some(lifetime))
        == World(Core(Some(v), Some(lifetime), None, None, 0), [Fetch(0, 0, Fulfilled(v, 0), true)]);
    ExecOneMore([call, fulfil, settle], again, Some(lifetime));
    assert [call, fulfil, settle] + [again] == RenewingRun(v, lifetime);
  }

  lemma ExecOneMore<T>(es: seq<Event<T>>, e: Event<T>, lifetime: Option<int>)
    ensures Exec(es + [e], lifetime) == Step(Exec(es, lifetime), e, |es|, lifetime)
    ensures Invalidations(es + [e]) == Invalidations(es) + (if e.Invalidate? then 1 else 0)
  {
    assert (es + [e])[..|es|] == es;
  }

  /** In this run, the fetches are no more than one, the invalidations and the failed fetches together. */
  ghost predicate PlainBound<T>(es: seq<Event<T>>, lifetime: Option<int>) {
    var fetches := Exec(es, lifetime).fetches;
    |fetches| <= 1 + Invalidations(es) + Failures(fetches)
  }

  /** The bound without renewals holds of all runs if and only if what is fetched never expires. */
  lemma PlainBoundHoldsWithoutExpiry<T>(v: T, lifetime: Option<int>)
    ensures (forall es: seq<Event<T>> :: PlainBound(es, lifetime)) <==> lifetime.None?
  {
    if lifetime.None? {
      forall es: seq<Event<T>> ensures PlainBound(es, lifetime) {
        FetchEconomy(es, lifetime);
      }
    } else {
      PlainBoundFails(v, lifetime.value);
      assert !PlainBound(RenewingRun(v, lifetime.value), lifetime);
    }
  }

  /** A renewal waits until less than the buffer is left of the token it replaces. */
  lemma RenewalSpacing<T>(es: seq<Event<T>>, i: nat, lifetime: Option<int>)
    requires var fetches := Exec(es, lifetime).fetches;
             1 <= i < |fetches| && Renews(fetches, i)
    ensures var fetches := Exec(es, lifetime).fetches;
            && lifetime.Some?
            && fetches[i].startedAt < |es| && es[fetches[i].startedAt].Call?
            && es[fetches[i].startedAt].now >= fetches[i - 1].outcome.at + lifetime.value - 30
  {
    ProtocolInvariant(es, lifetime);
    assert Justified(es, Exec(es, lifetime).fetches, i, lifetime);
  }
}
