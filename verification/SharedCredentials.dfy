/**
 Several client calls on one strategy (packages/http-provider/src/HttpProviderFactory.ts:250-273 over
 packages/http-provider/src/strategies/TokenExchangeStrategy.ts:28-59): every request interceptor asks the
 one strategy, every 401 invalidates it, and all of it interleaves with the fetches' own callbacks.

 A request that goes out names the call of `getCredentials` that answered it, and a 401 names the
 invalidation it caused, both by their position in the strategy's history.
 */
module SharedCredentials {
  import opened Wrappers
  import opened CredentialProtocol
  import AuthReplay

  /** `Asking` waits for the credentials of the call at that position, `Away` for the response. */
  datatype Phase = Idle | Asking(call: nat) | Away | Replaying | Over

  /** One client call: the request it is about by now, and whether that config is marked as retried. */
  datatype Caller = Caller(phase: Phase, request: AuthReplay.Request, retried: bool)

  datatype Note<T> =
    | Sent(caller: nat, request: AuthReplay.Request, call: nat, value: T)
    | Unauthorized(caller: nat, request: AuthReplay.Request, invalidation: nat)

  /**
   All callers that join a fetch get the same error, with the same config, when it fails; `marked` are the
   fetches whose config is marked as retried.
   */
  datatype System<T> = System(history: seq<Event<T>>, callers: map<nat, Caller>, marked: set<nat>, log: seq<Note<T>>)

  datatype Happening<T> =
    | Asks(caller: nat, now: int)
    | Sends(caller: nat)
    | TokenFails(caller: nat, status: Option<int>, hasConfig: bool)
    | Replies(caller: nat, reply: AuthReplay.Reply)
    | Elsewhere(event: Event<T>)  // a fetch's callback, or a caller outside this model

  const NEWCOMER := Caller(Idle, AuthReplay.Client, false)

  function CallerAt<T>(s: System<T>, c: nat): Caller {
    if c in s.callers then s.callers[c] else NEWCOMER
  }

  predicate IsCall<T>(es: seq<Event<T>>, j: nat) {
    j < |es| && es[j].Call?
  }

  /** The credentials the call has received by now. */
  function Received<T>(es: seq<Event<T>>, j: nat, lifetime: Option<int>): Option<T> {
    if IsCall(es, j) then Yield(es, j, lifetime) else None
  }

  /** The failed fetch the call was waiting for. */
  function FailedFetch<T>(es: seq<Event<T>>, j: nat, lifetime: Option<int>): Option<nat> {
    if !IsCall(es, j) then None
    else
      match AnswerTo(es, j, lifetime)
      case FromCache(_) => None
      case FromFetch(f) =>
        var fetches := Exec(es, lifetime).fetches;
        if f < |fetches| && fetches[f].settled && fetches[f].outcome.Rejected? then Some(f) else None
  }

  function ConfigOf(request: AuthReplay.Request, retried: bool): AuthReplay.Config {
    AuthReplay.Config(request, None, None, retried)
  }

  function Update<T>(s: System<T>, c: nat, caller: Caller): System<T> {
    s.(callers := s.callers[c := caller])
  }

  /** The error branch of the response interceptor; a replay leaves `marked` behind. */
  function Handle<T>(s: System<T>, c: nat, status: Option<int>, config: Option<AuthReplay.Config>, marked: set<nat>): System<T> {
    if AuthReplay.Replayable(status, config) then Replay(s.(marked := marked), c, config.value.request)
    else Update(s, c, CallerAt(s, c).(phase := Over))
  }

  /** Mark the config, invalidate, and send the request again. */
  function Replay<T>(s: System<T>, c: nat, request: AuthReplay.Request): System<T> {
    Update(s, c, Caller(Replaying, request, true)).(
      history := s.history + [Event.Invalidate],
      log := s.log + [Unauthorized(c, request, |s.history|)])
  }

  /** What cannot happen in this state is skipped. */
  function Happens<T>(s: System<T>, h: Happening<T>, lifetime: Option<int>): System<T> {
    match h
    case Asks(c, now) => AfterAsking(s, c, now)
    case Sends(c) => AfterSending(s, c, lifetime)
    case TokenFails(c, status, hasConfig) => AfterTokenFailure(s, c, status, hasConfig, lifetime)
    case Replies(c, reply) => AfterReply(s, c, reply)
    case Elsewhere(e) => s.(history := s.history + [e])
  }

  function AfterAsking<T>(s: System<T>, c: nat, now: int): System<T> {
    var caller := CallerAt(s, c);
    if !caller.phase.Idle? && !caller.phase.Replaying? then s
    else Update(s, c, caller.(phase := Asking(|s.history|))).(history := s.history + [Call(now)])
  }

  function AfterSending<T>(s: System<T>, c: nat, lifetime: Option<int>): System<T> {
    var caller := CallerAt(s, c);
    if !caller.phase.Asking? || Received(s.history, caller.phase.call, lifetime).None? then s
    else
      var value := Received(s.history, caller.phase.call, lifetime).value;
      Update(s, c, caller.(phase := Away)).(log := s.log + [Sent(c, caller.request, caller.phase.call, value)])
  }

  function AfterTokenFailure<T>(s: System<T>, c: nat, status: Option<int>, hasConfig: bool, lifetime: Option<int>): System<T> {
    var caller := CallerAt(s, c);
    if !caller.phase.Asking? || FailedFetch(s.history, caller.phase.call, lifetime).None? then s
    else
      var f := FailedFetch(s.history, caller.phase.call, lifetime).value;
      var config := if hasConfig then Some(ConfigOf(AuthReplay.Token(f), f in s.marked)) else None;
      Handle(s, c, status, config, s.marked + {f})
  }

  function AfterReply<T>(s: System<T>, c: nat, reply: AuthReplay.Reply): System<T> {
    var caller := CallerAt(s, c);
    if !caller.phase.Away? then s
    else Handle(s, c, AuthReplay.StatusOf(reply), Some(ConfigOf(caller.request, caller.retried)), s.marked)
  }

  function Run<T>(hs: seq<Happening<T>>, lifetime: Option<int>): System<T> {
    if hs == [] then System([], map[], {}, [])
    else Happens(Run(hs[..|hs| - 1], lifetime), hs[|hs| - 1], lifetime)
  }

  // ---------- what the log says ----------

  /** Whether the caller's last note is a request sent. */
  predicate SentLast<T>(log: seq<Note<T>>, c: nat) {
    log != [] &&
    if log[|log| - 1].caller == c then log[|log| - 1].Sent? else SentLast(log[..|log| - 1], c)
  }

  /** All 401s of the caller so far invalidated before position `j`. */
  ghost predicate Invalidated<T>(log: seq<Note<T>>, c: nat, j: nat) {
    forall i :: 0 <= i < |log| && log[i].Unauthorized? && log[i].caller == c ==> log[i].invalidation < j
  }

  ghost predicate NoteInv<T>(es: seq<Event<T>>, before: seq<Note<T>>, note: Note<T>, lifetime: Option<int>) {
    match note
    case Sent(c, _, j, v) => Received(es, j, lifetime) == Some(v) && Invalidated(before, c, j) && !SentLast(before, c)
    case Unauthorized(_, _, k) => k < |es| && es[k].Invalidate?
  }

  ghost predicate LogInv<T>(s: System<T>, lifetime: Option<int>) {
    forall m :: 0 <= m < |s.log| ==> NoteInv(s.history, s.log[..m], s.log[m], lifetime)
  }

  ghost predicate CallerInv<T>(s: System<T>, c: nat) {
    var phase := CallerAt(s, c).phase;
    && (phase.Asking? ==> IsCall(s.history, phase.call) && Invalidated(s.log, c, phase.call))
    && (SentLast(s.log, c) ==> phase.Away? || phase.Over?)
  }

  ghost predicate Inv<T>(s: System<T>, lifetime: Option<int>) {
    LogInv(s, lifetime) && forall c :: CallerInv(s, c)
  }

  lemma {:induction false} SystemInvariant<T>(hs: seq<Happening<T>>, lifetime: Option<int>)
    ensures Inv(Run(hs, lifetime), lifetime)
  {
    if hs != [] {
      var s := Run(hs[..|hs| - 1], lifetime);
      SystemInvariant(hs[..|hs| - 1], lifetime);
      match hs[|hs| - 1]
      case Asks(c, now) => AskingKeepsInv(s, c, now, lifetime);
      case Sends(c) => SendingKeepsInv(s, c, lifetime);
      case TokenFails(c, status, hasConfig) => TokenFailureKeepsInv(s, c, status, hasConfig, lifetime);
      case Replies(c, reply) => ReplyKeepsInv(s, c, reply, lifetime);
      case Elsewhere(e) => HistoryGrows(s, s.callers, s.marked, e, lifetime);
    }
  }

  /** Credentials once received stay what they are. */
  lemma ReceivedIsStable<T>(es: seq<Event<T>>, e: Event<T>, j: nat, lifetime: Option<int>)
    requires Received(es, j, lifetime).Some?
    ensures Received(es + [e], j, lifetime) == Received(es, j, lifetime)
  {
    var longer := es + [e];
    assert longer[..j] == es[..j] && longer[..|es|] == es;
    var answer := AnswerTo(es, j, lifetime);
    if answer.FromFetch? {
      FetchRecordIsStable(longer, |es|, answer.fetch, lifetime);
    }
  }

  lemma LogIsStable<T>(s: System<T>, e: Event<T>, lifetime: Option<int>)
    requires LogInv(s, lifetime)
    ensures LogInv(s.(history := s.history + [e]), lifetime)
  {
    forall m | 0 <= m < |s.log| ensures NoteInv(s.history + [e], s.log[..m], s.log[m], lifetime) {
      assert NoteInv(s.history, s.log[..m], s.log[m], lifetime);
      if s.log[m].Sent? {
        ReceivedIsStable(s.history, e, s.log[m].call, lifetime);
      }
    }
  }

  /** One more event of the strategy keeps the invariant of the callers it does not concern. */
  lemma HistoryGrows<T>(s: System<T>, callers: map<nat, Caller>, marked: set<nat>, e: Event<T>, lifetime: Option<int>)
    requires Inv(s, lifetime)
    requires forall c :: CallerAt(s.(callers := callers), c) == CallerAt(s, c) || CallerInv(s.(callers := callers, history := s.history + [e]), c)
    ensures Inv(s.(callers := callers, marked := marked, history := s.history + [e]), lifetime)
  {
    LogIsStable(s, e, lifetime);
    var s' := s.(callers := callers, marked := marked, history := s.history + [e]);
    forall m | 0 <= m < |s'.log| ensures NoteInv(s'.history, s'.log[..m], s'.log[m], lifetime) {
      assert NoteInv(s.history + [e], s.log[..m], s.log[m], lifetime);
    }
    forall c ensures CallerInv(s', c) {
      assert CallerInv(s, c);
    }
  }

  lemma AskingKeepsInv<T>(s: System<T>, c: nat, now: int, lifetime: Option<int>)
    requires Inv(s, lifetime)
    ensures Inv(AfterAsking(s, c, now), lifetime)
  {
    var caller := CallerAt(s, c);
    if caller.phase.Idle? || caller.phase.Replaying? {
      var callers := s.callers[c := caller.(phase := Asking(|s.history|))];
      assert CallerInv(s, c);
      forall i | 0 <= i < |s.log| && s.log[i].Unauthorized? ensures s.log[i].invalidation < |s.history| {
        assert NoteInv(s.history, s.log[..i], s.log[i], lifetime);
      }
      HistoryGrows(s, callers, s.marked, Call(now), lifetime);
    }
  }

  /** One more note. */
  lemma LogGrows<T>(s: System<T>, note: Note<T>, callers: map<nat, Caller>, marked: set<nat>, lifetime: Option<int>)
    requires Inv(s, lifetime) && NoteInv(s.history, s.log, note, lifetime)
    requires forall c :: c != note.caller ==> CallerAt(s.(callers := callers), c) == CallerAt(s, c)
    requires var phase := CallerAt(s.(callers := callers), note.caller).phase;
             phase.Over? || phase.Away? || (phase.Replaying? && note.Unauthorized?)
    ensures Inv(s.(callers := callers, marked := marked, log := s.log + [note]), lifetime)
  {
    var s' := s.(callers := callers, marked := marked, log := s.log + [note]);
    forall m | 0 <= m < |s'.log| ensures NoteInv(s'.history, s'.log[..m], s'.log[m], lifetime) {
      if m < |s.log| {
        assert s'.log[..m] == s.log[..m];
        assert NoteInv(s.history, s.log[..m], s.log[m], lifetime);
      } else {
        assert s'.log[..m] == s.log;
      }
    }
    forall c ensures CallerInv(s', c) {
      assert CallerInv(s, c);
      assert s'.log[..|s'.log| - 1] == s.log;
    }
  }

  lemma SendingKeepsInv<T>(s: System<T>, c: nat, lifetime: Option<int>)
    requires Inv(s, lifetime)
    ensures Inv(AfterSending(s, c, lifetime), lifetime)
  {
    var caller := CallerAt(s, c);
    if caller.phase.Asking? && Received(s.history, caller.phase.call, lifetime).Some? {
      assert CallerInv(s, c);
      var value := Received(s.history, caller.phase.call, lifetime).value;
      var note := Sent(c, caller.request, caller.phase.call, value);
      LogGrows(s, note, s.callers[c := caller.(phase := Away)], s.marked, lifetime);
    }
  }

  lemma ReplayKeepsInv<T>(s: System<T>, marked: set<nat>, c: nat, request: AuthReplay.Request, lifetime: Option<int>)
    requires Inv(s, lifetime)
    ensures Inv(Replay(s.(marked := marked), c, request), lifetime)
  {
    var grown := s.(history := s.history + [Event.Invalidate]);
    HistoryGrows(s, s.callers, s.marked, Event.Invalidate, lifetime);
    assert grown == s.(callers := s.callers, marked := s.marked, history := s.history + [Event.Invalidate]);
    LogGrows(grown, Unauthorized(c, request, |s.history|), s.callers[c := Caller(Replaying, request, true)], marked, lifetime);
  }

  lemma OverKeepsInv<T>(s: System<T>, c: nat, caller: Caller, lifetime: Option<int>)
    requires Inv(s, lifetime) && caller.phase.Over?
    ensures Inv(Update(s, c, caller), lifetime)
  {
    forall m | 0 <= m < |s.log| ensures NoteInv(s.history, s.log[..m], s.log[m], lifetime) {
    }
    forall d ensures CallerInv(Update(s, c, caller), d) {
      assert CallerInv(s, d);
    }
  }

  lemma HandleKeepsInv<T>(s: System<T>, c: nat, status: Option<int>, config: Option<AuthReplay.Config>, marked: set<nat>, lifetime: Option<int>)
    requires Inv(s, lifetime)
    ensures Inv(Handle(s, c, status, config, marked), lifetime)
  {
    if AuthReplay.Replayable(status, config) {
      ReplayKeepsInv(s, marked, c, config.value.request, lifetime);
    } else {
      OverKeepsInv(s, c, CallerAt(s, c).(phase := Over), lifetime);
    }
  }

  lemma TokenFailureKeepsInv<T>(s: System<T>, c: nat, status: Option<int>, hasConfig: bool, lifetime: Option<int>)
    requires Inv(s, lifetime)
    ensures Inv(AfterTokenFailure(s, c, status, hasConfig, lifetime), lifetime)
  {
    var caller := CallerAt(s, c);
    if caller.phase.Asking? && FailedFetch(s.history, caller.phase.call, lifetime).Some? {
      var f := FailedFetch(s.history, caller.phase.call, lifetime).value;
      var config := if hasConfig then Some(ConfigOf(AuthReplay.Token(f), f in s.marked)) else None;
      HandleKeepsInv(s, c, status, config, s.marked + {f}, lifetime);
    }
  }

  lemma ReplyKeepsInv<T>(s: System<T>, c: nat, reply: AuthReplay.Reply, lifetime: Option<int>)
    requires Inv(s, lifetime)
    ensures Inv(AfterReply(s, c, reply), lifetime)
  {
    var caller := CallerAt(s, c);
    HandleKeepsInv(s, c, AuthReplay.StatusOf(reply), Some(ConfigOf(caller.request, caller.retried)), s.marked, lifetime);
  }

  // ---------- fresh credentials ----------

  /** The value comes from a fetch that started after position `k` and not after the call at position `j`. */
  ghost predicate FetchedBetween<T>(es: seq<Event<T>>, k: nat, j: nat, v: T, lifetime: Option<int>) {
    exists f :: 0 <= f < |Exec(es, lifetime).fetches|
             && k < Exec(es, lifetime).fetches[f].startedAt <= j
             && Exec(es, lifetime).fetches[f].outcome.Fulfilled?
             && Exec(es, lifetime).fetches[f].outcome.value == v
  }

  /** Whatever a caller sends after a 401 of its own carries credentials fetched after the invalidation that 401 caused. */
  lemma SentAfterOwn401IsFresh<T>(hs: seq<Happening<T>>, i: nat, m: nat, lifetime: Option<int>)
    requires var log := Run(hs, lifetime).log;
             i < m < |log| && log[i].Unauthorized? && log[m].Sent? && log[i].caller == log[m].caller
    ensures var s := Run(hs, lifetime);
            && s.log[i].invalidation < |s.history| && s.history[s.log[i].invalidation].Invalidate?
            && FetchedBetween(s.history, s.log[i].invalidation, s.log[m].call, s.log[m].value, lifetime)
  {
    var s := Run(hs, lifetime);
    SystemInvariant(hs, lifetime);
    assert NoteInv(s.history, s.log[..i], s.log[i], lifetime);
    assert NoteInv(s.history, s.log[..m], s.log[m], lifetime);
    assert s.log[..m][i] == s.log[i];
    CredentialsAfterInvalidate(s.history, s.log[i].invalidation, s.log[m].call, lifetime);
  }

  /** Between two requests of a caller there is a 401 of its own, so the later one carries credentials fetched after that. */
  lemma EveryReplayIsFresh<T>(hs: seq<Happening<T>>, i: nat, m: nat, lifetime: Option<int>)
    requires var log := Run(hs, lifetime).log;
             i < m < |log| && log[i].Sent? && log[m].Sent? && log[i].caller == log[m].caller
    ensures var s := Run(hs, lifetime);
            exists u :: i < u < m && s.log[u].Unauthorized? && s.log[u].caller == s.log[m].caller
                     && FetchedBetween(s.history, s.log[u].invalidation, s.log[m].call, s.log[m].value, lifetime)
  {
    var s := Run(hs, lifetime);
    SystemInvariant(hs, lifetime);
    assert NoteInv(s.history, s.log[..m], s.log[m], lifetime);
    var u := UnauthorizedSince(s.log[..m], i);
    assert s.log[..m][u] == s.log[u];
    SentAfterOwn401IsFresh(hs, u, m, lifetime);
  }

  lemma {:induction false} UnauthorizedSince<T>(log: seq<Note<T>>, i: nat) returns (u: nat)
    requires i < |log| && log[i].Sent? && !SentLast(log, log[i].caller)
    ensures i < u < |log| && log[u].Unauthorized? && log[u].caller == log[i].caller
  {
    var n := |log| - 1;
    if log[n].caller == log[i].caller {
      u := n;
    } else {
      u := UnauthorizedSince(log[..n], i);
    }
  }

  // ---------- how many fetches and replays ----------

  function Replays<T>(log: seq<Note<T>>): nat {
    if log == [] then 0 else Replays(log[..|log| - 1]) + (if log[|log| - 1].Unauthorized? then 1 else 0)
  }

  ghost predicate NothingElseInvalidates<T>(hs: seq<Happening<T>>) {
    forall k :: 0 <= k < |hs| && hs[k].Elsewhere? ==> !hs[k].event.Invalidate?
  }

  lemma ReplaysOneMore<T>(log: seq<Note<T>>, note: Note<T>)
    ensures Replays(log + [note]) == Replays(log) + (if note.Unauthorized? then 1 else 0)
  {
    assert (log + [note])[..|log|] == log;
  }

  lemma {:induction false} InvalidationsAreReplays<T>(hs: seq<Happening<T>>, lifetime: Option<int>)
    requires NothingElseInvalidates(hs)
    ensures var s := Run(hs, lifetime); Invalidations(s.history) == Replays(s.log)
  {
    if hs != [] {
      InvalidationsAreReplays(hs[..|hs| - 1], lifetime);
      HappeningCounts(Run(hs[..|hs| - 1], lifetime), hs[|hs| - 1], lifetime);
    }
  }

  lemma HappeningCounts<T>(s: System<T>, h: Happening<T>, lifetime: Option<int>)
    requires Invalidations(s.history) == Replays(s.log)
    requires h.Elsewhere? ==> !h.event.Invalidate?
    ensures var s' := Happens(s, h, lifetime); Invalidations(s'.history) == Replays(s'.log)
  {
    match h
    case Asks(c, now) => ExecOneMore(s.history, Call(now), lifetime);
    case Sends(c) =>
      var s' := AfterSending(s, c, lifetime);
      if |s'.log| > |s.log| {
        ReplaysOneMore(s.log, s'.log[|s.log|]);
      }
    case TokenFails(c, status, hasConfig) => TokenFailureCounts(s, c, status, hasConfig, lifetime);
    case Replies(c, reply) =>
      var caller := CallerAt(s, c);
      HandleCounts(s, c, AuthReplay.StatusOf(reply), Some(ConfigOf(caller.request, caller.retried)), s.marked, lifetime);
    case Elsewhere(e) => ExecOneMore(s.history, e, lifetime);
  }

  lemma HandleCounts<T>(s: System<T>, c: nat, status: Option<int>, config: Option<AuthReplay.Config>, marked: set<nat>, lifetime: Option<int>)
    requires Invalidations(s.history) == Replays(s.log)
    ensures var s' := Handle(s, c, status, config, marked); Invalidations(s'.history) == Replays(s'.log)
  {
    if AuthReplay.Replayable(status, config) {
      ExecOneMore(s.history, Event.Invalidate, lifetime);
      ReplaysOneMore(s.log, Unauthorized(c, config.value.request, |s.history|));
    }
  }

  lemma TokenFailureCounts<T>(s: System<T>, c: nat, status: Option<int>, hasConfig: bool, lifetime: Option<int>)
    requires Invalidations(s.history) == Replays(s.log)
    ensures var s' := AfterTokenFailure(s, c, status, hasConfig, lifetime); Invalidations(s'.history) == Replays(s'.log)
  {
    var caller := CallerAt(s, c);
    if caller.phase.Asking? && FailedFetch(s.history, caller.phase.call, lifetime).Some? {
      var f := FailedFetch(s.history, caller.phase.call, lifetime).value;
      var config := if hasConfig then Some(ConfigOf(AuthReplay.Token(f), f in s.marked)) else None;
      HandleCounts(s, c, status, config, s.marked + {f}, lifetime);
    }
  }

  /** The requests of a token exchange: one, one for every replay, and one for every failed fetch at most. */
  lemma FetchesPerReplay<T>(hs: seq<Happening<T>>)
    requires NothingElseInvalidates(hs)
    ensures var s := Run(hs, None);
            var fetches := Exec(s.history, None).fetches;
            |fetches| <= 1 + Replays(s.log) + Failures(fetches)
  {
    InvalidationsAreReplays(hs, None);
    FetchEconomy(Run(hs, None).history, None);
  }

  /** The replayed calls, and the failed token requests that were replayed in their place. */
  function Retried<T>(s: System<T>): set<nat> {
    set c | c in s.callers && s.callers[c].retried
  }

  ghost predicate Bounded<T>(s: System<T>, lifetime: Option<int>) {
    && Replays(s.log) <= |Retried(s)| + |s.marked|
    && forall f :: f in s.marked ==> IsFailed(Exec(s.history, lifetime).fetches, f)
  }

  predicate IsFailed<T>(fetches: seq<Fetch<T>>, f: nat) {
    f < |fetches| && fetches[f].outcome.Rejected?
  }

  lemma FailedStaysFailed<T>(es: seq<Event<T>>, e: Event<T>, f: nat, lifetime: Option<int>)
    requires IsFailed(Exec(es, lifetime).fetches, f)
    ensures IsFailed(Exec(es + [e], lifetime).fetches, f)
  {
    assert (es + [e])[..|es|] == es;
    FetchRecordIsStable(es + [e], |es|, f, lifetime);
  }

  lemma RetriedAfterUpdate<T>(s: System<T>, c: nat, caller: Caller)
    requires CallerAt(s, c).retried ==> caller.retried
    ensures |Retried(Update(s, c, caller))| == |Retried(s)| + if caller.retried && !CallerAt(s, c).retried then 1 else 0
  {
    var before, after := Retried(s), Retried(Update(s, c, caller));
    assert c in before <==> CallerAt(s, c).retried;
    assert forall d :: d != c ==> (d in after <==> d in before);
    if caller.retried && !CallerAt(s, c).retried {
      assert after == before + {c};
    } else {
      assert after == before;
    }
  }

  lemma {:induction false} ReplaysAreBounded<T>(hs: seq<Happening<T>>, lifetime: Option<int>)
    ensures Bounded(Run(hs, lifetime), lifetime)
  {
    if hs != [] {
      var s := Run(hs[..|hs| - 1], lifetime);
      ReplaysAreBounded(hs[..|hs| - 1], lifetime);
      match hs[|hs| - 1]
      case Asks(c, now) => AskingKeepsBound(s, c, now, lifetime);
      case Sends(c) => SendingKeepsBound(s, c, lifetime);
      case TokenFails(c, status, hasConfig) => TokenFailureKeepsBound(s, c, status, hasConfig, lifetime);
      case Replies(c, reply) => ReplyKeepsBound(s, c, reply, lifetime);
      case Elsewhere(e) => MarkedStayFailed(s, e, lifetime);
    }
  }

  lemma MarkedStayFailed<T>(s: System<T>, e: Event<T>, lifetime: Option<int>)
    requires forall f :: f in s.marked ==> IsFailed(Exec(s.history, lifetime).fetches, f)
    ensures forall f :: f in s.marked ==> IsFailed(Exec(s.history + [e], lifetime).fetches, f)
  {
    forall f | f in s.marked ensures IsFailed(Exec(s.history + [e], lifetime).fetches, f) {
      FailedStaysFailed(s.history, e, f, lifetime);
    }
  }

  lemma AskingKeepsBound<T>(s: System<T>, c: nat, now: int, lifetime: Option<int>)
    requires Bounded(s, lifetime)
    ensures Bounded(AfterAsking(s, c, now), lifetime)
  {
    var caller := CallerAt(s, c);
    var s' := Update(s, c, caller.(phase := Asking(|s.history|)));
    RetriedAfterUpdate(s, c, caller.(phase := Asking(|s.history|)));
    assert Retried(s'.(history := s.history + [Call(now)])) == Retried(s');
    MarkedStayFailed(s, Call(now), lifetime);
  }

  lemma SendingKeepsBound<T>(s: System<T>, c: nat, lifetime: Option<int>)
    requires Bounded(s, lifetime)
    ensures Bounded(AfterSending(s, c, lifetime), lifetime)
  {
    var caller, s' := CallerAt(s, c), AfterSending(s, c, lifetime);
    if |s'.log| > |s.log| {
      ReplaysOneMore(s.log, s'.log[|s.log|]);
      RetriedAfterUpdate(s, c, caller.(phase := Away));
      assert Retried(s') == Retried(Update(s, c, caller.(phase := Away)));
    }
  }

  /** A replay is paid for by the caller it marks or, if that was marked before, by the failed fetch. */
  lemma ReplayKeepsBound<T>(s: System<T>, marked: set<nat>, c: nat, request: AuthReplay.Request, lifetime: Option<int>)
    requires Bounded(s, lifetime)
    requires if CallerAt(s, c).retried then |marked| == |s.marked| + 1 else |marked| >= |s.marked|
    requires forall f :: f in marked ==> IsFailed(Exec(s.history, lifetime).fetches, f)
    ensures Bounded(Replay(s.(marked := marked), c, request), lifetime)
  {
    var caller := Caller(Replaying, request, true);
    var s' := Replay(s.(marked := marked), c, request);
    ReplaysOneMore(s.log, Unauthorized(c, request, |s.history|));
    RetriedAfterUpdate(s, c, caller);
    assert Retried(s') == Retried(Update(s, c, caller));
    MarkedStayFailed(s.(marked := marked), Event.Invalidate, lifetime);
  }

  lemma HandleKeepsBound<T>(s: System<T>, c: nat, status: Option<int>, config: Option<AuthReplay.Config>, marked: set<nat>, lifetime: Option<int>)
    requires Bounded(s, lifetime)
    requires AuthReplay.Replayable(status, config) ==>
               && (if CallerAt(s, c).retried then |marked| == |s.marked| + 1 else |marked| >= |s.marked|)
               && forall f :: f in marked ==> IsFailed(Exec(s.history, lifetime).fetches, f)
    ensures Bounded(Handle(s, c, status, config, marked), lifetime)
  {
    if AuthReplay.Replayable(status, config) {
      ReplayKeepsBound(s, marked, c, config.value.request, lifetime);
    } else {
      RetriedAfterUpdate(s, c, CallerAt(s, c).(phase := Over));
    }
  }

  lemma TokenFailureKeepsBound<T>(s: System<T>, c: nat, status: Option<int>, hasConfig: bool, lifetime: Option<int>)
    requires Bounded(s, lifetime)
    ensures Bounded(AfterTokenFailure(s, c, status, hasConfig, lifetime), lifetime)
  {
    var caller := CallerAt(s, c);
    if caller.phase.Asking? && FailedFetch(s.history, caller.phase.call, lifetime).Some? {
      var f := FailedFetch(s.history, caller.phase.call, lifetime).value;
      var config := if hasConfig then Some(ConfigOf(AuthReplay.Token(f), f in s.marked)) else None;
      assert f !in s.marked ==> |s.marked + {f}| == |s.marked| + 1;
      HandleKeepsBound(s, c, status, config, s.marked + {f}, lifetime);
    }
  }

  lemma ReplyKeepsBound<T>(s: System<T>, c: nat, reply: AuthReplay.Reply, lifetime: Option<int>)
    requires Bounded(s, lifetime)
    ensures Bounded(AfterReply(s, c, reply), lifetime)
  {
    var caller := CallerAt(s, c);
    HandleKeepsBound(s, c, AuthReplay.StatusOf(reply), Some(ConfigOf(caller.request, caller.retried)), s.marked, lifetime);
  }

  /** So many failed fetches there are at least. */
  lemma {:induction false} CountFailed<T>(fetches: seq<Fetch<T>>, failed: set<nat>)
    requires forall f :: f in failed ==> IsFailed(fetches, f)
    ensures |failed| <= Failures(fetches)
  {
    if fetches == [] {
      assert failed == {};
    } else {
      var n := |fetches| - 1;
      CountFailed(fetches[..n], failed - {n});
      assert n in failed ==> |failed| == |failed - {n}| + 1;
      assert n !in failed ==> failed - {n} == failed;
    }
  }

  lemma RetriedAreCallers<T>(s: System<T>)
    ensures |Retried(s)| <= |s.callers|
  {
    assert Retried(s) <= s.callers.Keys;
    SubsetSize(Retried(s), s.callers.Keys);
  }

  lemma {:induction false} SubsetSize(a: set<nat>, b: set<nat>)
    requires a <= b
    ensures |a| <= |b|
    decreases |b|
  {
    if a != {} {
      var x :| x in a;
      SubsetSize(a - {x}, b - {x});
    }
  }

  /**
   The replays of a single call are not bounded, those of all calls together are: one for every call and one
   for every failed fetch. And the token requests with them, as long as nothing else invalidates.
   */
  lemma ReplaysAndFetches<T>(hs: seq<Happening<T>>, lifetime: Option<int>)
    ensures var s := Run(hs, lifetime);
            Replays(s.log) <= |s.callers| + Failures(Exec(s.history, lifetime).fetches)
    ensures NothingElseInvalidates(hs) && lifetime.None? ==>
              var s := Run(hs, lifetime);
              var fetches := Exec(s.history, lifetime).fetches;
              |fetches| <= 1 + |s.callers| + 2 * Failures(fetches)
  {
    var s := Run(hs, lifetime);
    ReplaysAreBounded(hs, lifetime);
    CountFailed(Exec(s.history, lifetime).fetches, s.marked);
    RetriedAreCallers(s);
    if NothingElseInvalidates(hs) && lifetime.None? {
      FetchesPerReplay(hs);
    }
  }
}
