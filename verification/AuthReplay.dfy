/**
 The 401 replay of packages/http-provider/src/HttpProviderFactory.ts:212-224 and 250-272, over an
 adversarial environment: a script of answers from the credential strategy and of replies from the
 network. A script that runs out is an answer that never comes.

 Taken from axios: request interceptors run in reverse order of registration (so the policy wrap
 runs before the credentials are fetched), a rejection inside them reaches the response
 interceptors, an error carries the config it failed with, and private fields of a config survive.
 */
module AuthReplay {
  import opened Wrappers
  import opened Arithmetic
  import RetryLoop

  /** The call the client made, or a token request issued on its behalf. */
  datatype Request = Client | Token(id: nat)

  /** A transport, possibly inside resilience policies. */
  datatype Adapter = Base(request: Request) | Guarded(inner: Adapter)

  datatype Config = Config(
    request: Request,
    adapter: Option<Adapter>,
    resilienceBaseAdapter: Option<Adapter>,
    retried: bool)

  /** `Other` stands for every rejection that is not an axios error: an open breaker, a timeout. */
  datatype Reply = Accepted | Status(code: int) | NetworkError | Canceled | Other

  datatype CredentialReply = Granted | Refused(status: Option<int>, config: Option<Config>)

  datatype Env = Env(credentials: seq<CredentialReply>, replies: seq<Reply>)

  /** `policy` is None for a provider without `resilience`, else the configured retry count. */
  datatype Provider = Provider(policy: Option<nat>, retriableStatusCodes: seq<int>, defaultAdapter: Adapter)

  predicate IsRetriableHttpError(reply: Reply, statusCodes: seq<int>)
    requires !reply.Accepted?
  {
    match reply
    case Status(code) => code in statusCodes
    case NetworkError => true
    case Canceled => false
    case Other => false
  }

  // ---------- the adapter call ----------

  datatype Settlement = Settled(reply: Reply) | Pending

  /** How one adapter call ended and how many replies, one per base-adapter call, it consumed. */
  datatype AdapterCall = AdapterCall(settlement: Settlement, baseCalls: nat)

  function CallAdapter(a: Adapter, retries: nat, codes: seq<int>, replies: seq<Reply>): (r: AdapterCall)
    ensures r.baseCalls <= |replies|
    decreases a, 0, 0
  {
    match a
    case Base(_) => if replies == [] then AdapterCall(Pending, 0) else AdapterCall(Settled(replies[0]), 1)
    case Guarded(inner) => CallWithRetries(inner, retries, retries, codes, replies)
  }

  /** The policy's retry loop with `left` retries still allowed. */
  function CallWithRetries(a: Adapter, left: nat, retries: nat, codes: seq<int>, replies: seq<Reply>): (r: AdapterCall)
    ensures r.baseCalls <= |replies|
    decreases a, 1, left
  {
    var attempt := CallAdapter(a, retries, codes, replies);
    if attempt.settlement.Pending? || attempt.settlement.reply.Accepted? || left == 0
       || !IsRetriableHttpError(attempt.settlement.reply, codes) then attempt
    else
      var later := CallWithRetries(a, left - 1, retries, codes, replies[attempt.baseCalls..]);
      AdapterCall(later.settlement, attempt.baseCalls + later.baseCalls)
  }

  function Depth(a: Adapter): nat {
    match a
    case Base(_) => 0
    case Guarded(inner) => 1 + Depth(inner)
  }

  function Power(b: nat, e: nat): nat {
    if e == 0 then 1 else b * Power(b, e - 1)
  }

  /** Nesting multiplies: a call costs at most (retries + 1) to the power of the policy depth. */
  lemma {:induction false} NestingCost(a: Adapter, left: nat, retries: nat, codes: seq<int>, replies: seq<Reply>)
    ensures CallAdapter(a, retries, codes, replies).baseCalls <= Power(retries + 1, Depth(a))
    ensures CallWithRetries(a, left, retries, codes, replies).baseCalls <= (left + 1) * Power(retries + 1, Depth(a))
    decreases a, left
  {
    if a.Guarded? {
      NestingCost(a.inner, retries, retries, codes, replies);
    }
    var unit := Power(retries + 1, Depth(a));
    assert CallAdapter(a, retries, codes, replies).baseCalls <= unit;
    OneMore(left, unit);
    if left > 0 {
      var attempt := CallAdapter(a, retries, codes, replies);
      NestingCost(a, left - 1, retries, codes, replies[attempt.baseCalls..]);
    }
  }

  /** ... and that cost is reached when every reply is a retriable failure: why the base adapter is memoised. */
  lemma {:induction false} NestingCostIsReached(a: Adapter, retries: nat, codes: seq<int>, replies: seq<Reply>)
    requires forall k :: 0 <= k < |replies| ==> replies[k] == NetworkError
    requires |replies| >= Power(retries + 1, Depth(a))
    ensures CallAdapter(a, retries, codes, replies) == AdapterCall(Settled(NetworkError), Power(retries + 1, Depth(a)))
    decreases a, 0, 0
  {
    if a.Guarded? {
      LoopCostIsReached(a.inner, retries, retries, codes, replies, Power(retries + 1, Depth(a.inner)), Power(retries + 1, Depth(a)));
    }
  }

  lemma {:induction false} LoopCostIsReached(a: Adapter, left: nat, retries: nat, codes: seq<int>, replies: seq<Reply>, unit: nat, total: nat)
    requires forall k :: 0 <= k < |replies| ==> replies[k] == NetworkError
    requires unit == Power(retries + 1, Depth(a)) && total == (left + 1) * unit && |replies| >= total
    ensures CallWithRetries(a, left, retries, codes, replies) == AdapterCall(Settled(NetworkError), total)
    decreases a, 1, left
  {
    OneMore(left, unit);
    NestingCostIsReached(a, retries, codes, replies);
    if left > 0 {
      LoopGoesOn(a, left, retries, codes, replies, unit);
      LoopCostIsReached(a, left - 1, retries, codes, replies[unit..], unit, total - unit);
    }
  }

  lemma LoopGoesOn(a: Adapter, left: nat, retries: nat, codes: seq<int>, replies: seq<Reply>, unit: nat)
    requires left > 0 && unit <= |replies|
    requires CallAdapter(a, retries, codes, replies) == AdapterCall(Settled(NetworkError), unit)
    ensures var later := CallWithRetries(a, left - 1, retries, codes, replies[unit..]);
            CallWithRetries(a, left, retries, codes, replies) == AdapterCall(later.settlement, unit + later.baseCalls)
  {
  }

  /** A reply as the attempt of the retry loop that it ends. */
  function AttemptOf(reply: Reply): RetryLoop.Attempt<(), Reply> {
    if reply.Accepted? then RetryLoop.Returned(()) else RetryLoop.Raised(reply)
  }

  /** The policy and the environment of that loop. */
  function LoopPolicy(retries: nat, codes: seq<int>): RetryLoop.Policy<Reply> {
    RetryLoop.Policy(retries, 0, (r: Reply) => !r.Accepted? && IsRetriableHttpError(r, codes))
  }

  function LoopEnv(replies: seq<Reply>, abortAt: Option<nat>): RetryLoop.Env<(), Reply> {
    RetryLoop.Env((k: nat) => if k < |replies| then AttemptOf(replies[k]) else RetryLoop.ParentCancelled, abortAt)
  }

  predicate GoesOn(reply: Reply, codes: seq<int>) {
    !reply.Accepted? && IsRetriableHttpError(reply, codes)
  }

  /** Every reply but the last one consumed was retried; the last was not, or no retry was left. */
  lemma {:induction false} RetriesStopAtTheFirst(request: Request, left: nat, retries: nat, codes: seq<int>, replies: seq<Reply>)
    requires CallWithRetries(Base(request), left, retries, codes, replies).settlement.Settled?
    ensures var call := CallWithRetries(Base(request), left, retries, codes, replies);
            var last := call.baseCalls - 1;
            && 0 <= last <= left && last < |replies|
            && (forall k :: 0 <= k < last ==> GoesOn(replies[k], codes))
            && (last == left || !GoesOn(replies[last], codes))
            && call.settlement == Settled(replies[last])
    decreases left
  {
    if left > 0 && GoesOn(replies[0], codes) {
      RetriesStopAtTheFirst(request, left - 1, retries, codes, replies[1..]);
      var later := CallWithRetries(Base(request), left - 1, retries, codes, replies[1..]);
      forall k | 0 <= k < later.baseCalls ensures GoesOn(replies[k], codes) {
        if k > 0 {
          assert replies[k] == replies[1..][k - 1];
        }
      }
    }
  }

  /**
   Which replies are retried: network errors and answers with a configured status, nothing else, and no more than
   `retries` times. The call ends with the first other reply, or with the last one allowed.
   */
  lemma {:induction false} RetriesExactly(request: Request, retries: nat, codes: seq<int>, replies: seq<Reply>, n: nat)
    requires n < |replies| && n <= retries
    requires forall k :: 0 <= k < n ==> replies[k] == NetworkError || (replies[k].Status? && replies[k].code in codes)
    requires n == retries || replies[n] == Accepted || replies[n] == Canceled || replies[n] == Other
             || (replies[n].Status? && replies[n].code !in codes)
    ensures CallAdapter(Guarded(Base(request)), retries, codes, replies) == AdapterCall(Settled(replies[n]), n + 1)
  {
    RetriesFromHere(request, retries, retries, codes, replies, n);
  }

  lemma {:induction false} RetriesFromHere(request: Request, left: nat, retries: nat, codes: seq<int>, replies: seq<Reply>, n: nat)
    requires n < |replies| && n <= left
    requires forall k :: 0 <= k < n ==> replies[k] == NetworkError || (replies[k].Status? && replies[k].code in codes)
    requires n == left || replies[n] == Accepted || replies[n] == Canceled || replies[n] == Other
             || (replies[n].Status? && replies[n].code !in codes)
    ensures CallWithRetries(Base(request), left, retries, codes, replies) == AdapterCall(Settled(replies[n]), n + 1)
    decreases n
  {
    if n > 0 {
      assert replies[0] == NetworkError || (replies[0].Status? && replies[0].code in codes);
      assert replies[1..][n - 1] == replies[n];
      RetriesFromHere(request, left - 1, retries, codes, replies[1..], n - 1);
    }
  }

  /** When the replies give out before that, the call is still waiting, having used them all. */
  lemma {:induction false} RetriesWait(request: Request, left: nat, retries: nat, codes: seq<int>, replies: seq<Reply>)
    requires |replies| <= left
    requires forall k :: 0 <= k < |replies| ==> replies[k] == NetworkError || (replies[k].Status? && replies[k].code in codes)
    ensures CallWithRetries(Base(request), left, retries, codes, replies) == AdapterCall(Pending, |replies|)
    decreases |replies|
  {
    if replies != [] {
      RetriesWait(request, left - 1, retries, codes, replies[1..]);
    }
  }

  /**
   The calls a guarded adapter makes are the attempts of the resilience policy's own retry loop. An abort by the
   caller can only cut them short, and then ends in the cancellation.
   */
  lemma GuardedAdapterRunsTheRetryLoop(request: Request, retries: nat, codes: seq<int>, replies: seq<Reply>, abortAt: Option<nat>,
                                       run: RetryLoop.Run<(), Reply>)
    requires CallAdapter(Guarded(Base(request)), retries, codes, replies).settlement.Settled?
    requires RetryLoop.Legitimate(LoopPolicy(retries, codes), LoopEnv(replies, abortAt), run)
    ensures var call := CallAdapter(Guarded(Base(request)), retries, codes, replies);
            && run.attempts <= call.baseCalls
            && (abortAt.None? ==> !run.ending.Cancelled?)
            && (run.ending.Cancelled? || run.attempts == call.baseCalls)
            && (run.ending.Value? ==> call.settlement == Settled(Accepted))
            && (run.ending.Error? ==> call.settlement == Settled(run.ending.error))
  {
    var policy, env := LoopPolicy(retries, codes), LoopEnv(replies, abortAt);
    var call := CallAdapter(Guarded(Base(request)), retries, codes, replies);
    RetriesStopAtTheFirst(request, retries, retries, codes, replies);
    assert run.attempts > call.baseCalls ==> RetryLoop.Retried(policy, env, call.baseCalls - 1);
    assert env.attempt(call.baseCalls - 1) == AttemptOf(replies[call.baseCalls - 1]);
    assert forall k :: 0 <= k < call.baseCalls ==> env.attempt(k) == AttemptOf(replies[k]);
  }

  // ---------- the config of one request ----------

  /** A request config as the interceptors mutate it. */
  class RequestConfig {
    const request: Request
    var adapter: Option<Adapter>
    var resilienceBaseAdapter: Option<Adapter>
    var retried: bool

    function Value(): Config
      reads this
    {
      Config(request, adapter, resilienceBaseAdapter, retried)
    }

    constructor (c: Config)
      ensures Value() == c
    {
      request, adapter, resilienceBaseAdapter, retried := c.request, c.adapter, c.resilienceBaseAdapter, c.retried;
    }

    /** The unwrapped adapter is remembered once and for all; the adapter is always one layer around it. */
    method WrapAdapterWithPolicy(defaultAdapter: Adapter)
      modifies this
      ensures Value() == Wrapped(old(Value()), defaultAdapter)
      ensures resilienceBaseAdapter.Some? && adapter == Some(Guarded(resilienceBaseAdapter.value))
      ensures old(resilienceBaseAdapter).Some? ==> resilienceBaseAdapter == old(resilienceBaseAdapter)
      ensures old(resilienceBaseAdapter).None? ==>
                resilienceBaseAdapter.value == if old(adapter).Some? then old(adapter).value else defaultAdapter
      ensures retried == old(retried)
      ensures old(adapter).Some? && old(resilienceBaseAdapter).Some? && old(adapter.value) == Guarded(old(resilienceBaseAdapter.value))
              ==> Value() == old(Value())
    {
      var baseAdapter :=
        if resilienceBaseAdapter.Some? then resilienceBaseAdapter.value
        else if adapter.Some? then adapter.value
        else defaultAdapter;
      resilienceBaseAdapter := Some(baseAdapter);
      adapter := Some(Guarded(baseAdapter));
    }
  }

  function Wrapped(c: Config, defaultAdapter: Adapter): Config {
    var baseAdapter :=
      if c.resilienceBaseAdapter.Some? then c.resilienceBaseAdapter.value
      else if c.adapter.Some? then c.adapter.value
      else defaultAdapter;
    c.(resilienceBaseAdapter := Some(baseAdapter), adapter := Some(Guarded(baseAdapter)))
  }

  /** No policy around the adapter but the one the next wrap replaces. */
  ghost predicate Unnested(c: Config, p: Provider) {
    && (c.resilienceBaseAdapter.Some? ==> c.resilienceBaseAdapter.value.Base?)
    && (c.adapter.Some? && (p.policy.None? || c.resilienceBaseAdapter.None?) ==> c.adapter.value.Base?)
    && p.defaultAdapter.Base?
  }

  /** Wrapping a config any number of times gives one layer: the wrap is idempotent. */
  lemma WrapIsIdempotent(c: Config, p: Provider, again: Adapter)
    requires Unnested(c, p)
    ensures Wrapped(Wrapped(c, p.defaultAdapter), again) == Wrapped(c, p.defaultAdapter)
    ensures p.policy.Some? ==> Unnested(Wrapped(c, p.defaultAdapter), p)
    ensures p.policy.Some? ==> Depth(Wrapped(c, p.defaultAdapter).adapter.value) == 1
  {
  }

  // ---------- one client call ----------

  /** What happened on behalf of one client call, in order. */
  datatype Event =
    | CredentialsAsked(answer: CredentialReply)
    | Dispatched(request: Request, depth: nat, baseCalls: nat, reply: Settlement)
    | Invalidated
    | Replayed(request: Request)

  datatype Outcome = Answered(request: Request) | Failed | Waiting

  datatype Flow = Flow(log: seq<Event>, outcome: Outcome)

  function Then(e: Event, f: Flow): (r: Flow)
    ensures r.log != [] && r.log[0] == e && r.log[1..] == f.log && r.outcome == f.outcome
  {
    Flow([e] + f.log, f.outcome)
  }

  /** `instance.request(config)`: policy wrap, credentials, adapter, then the 401 handler. */
  function Send(c: Config, p: Provider, env: Env): Flow
    decreases |env.credentials|, 0
  {
    if env.credentials == [] then Flow([], Waiting)
    else
      var rest := env.(credentials := env.credentials[1..]);
      Then(CredentialsAsked(env.credentials[0]),
           match env.credentials[0]
           case Refused(status, config) => Handle(status, config, p, rest)
           case Granted => Dispatch(AsSent(c, p), p, rest))
  }

  /** The config after the interceptor installed by `configureResilience`. */
  function AsSent(c: Config, p: Provider): Config {
    if p.policy.Some? then Wrapped(c, p.defaultAdapter) else c
  }

  function Dispatch(c: Config, p: Provider, env: Env): Flow
    decreases |env.credentials|, 2
  {
    var call := Transfer(c, p, env);
    Then(Dispatched(c.request, Depth(AdapterOf(c, p)), call.baseCalls, call.settlement),
         match call.settlement
         case Pending => Flow([], Waiting)
         case Settled(Accepted) => Flow([], Answered(c.request))
         case Settled(r) =>
           Handle(StatusOf(r), Some(c), p, env.(replies := env.replies[call.baseCalls..])))
  }

  function StatusOf(r: Reply): Option<int> {
    match r
    case Status(code) => Some(code)
    case _ => None
  }

  function AdapterOf(c: Config, p: Provider): Adapter {
    if c.adapter.Some? then c.adapter.value else p.defaultAdapter
  }

  function Transfer(c: Config, p: Provider, env: Env): (r: AdapterCall)
    ensures r.baseCalls <= |env.replies|
  {
    CallAdapter(AdapterOf(c, p), if p.policy.Some? then p.policy.value else 0, p.retriableStatusCodes, env.replies)
  }

  /** The guard of the response interceptor. */
  predicate Replayable(status: Option<int>, config: Option<Config>) {
    status == Some(401) && config.Some? && !config.value.retried
  }

  /** The response interceptor's error branch, for an error carrying `status` and `config`. */
  function Handle(status: Option<int>, config: Option<Config>, p: Provider, env: Env): Flow
    decreases |env.credentials|, 1
  {
    if Replayable(status, config) then
      Then(Invalidated, Then(Replayed(config.value.request), Send(config.value.(retried := true), p, env)))
    else Flow([], Failed)
  }

  /** The configs of failed token requests come from the auth client: not replayed yet, and wrapped at most once. */
  ghost predicate WellFormed(env: Env, p: Provider) {
    forall k :: 0 <= k < |env.credentials| && env.credentials[k].Refused? && env.credentials[k].config.Some?
                ==> && Unnested(env.credentials[k].config.value, p)
                    && env.credentials[k].config.value.request.Token?
  }

  function BaseCalls(log: seq<Event>): nat {
    if log == [] then 0 else (if log[0].Dispatched? then log[0].baseCalls else 0) + BaseCalls(log[1..])
  }

  function Dispatches(log: seq<Event>): nat {
    if log == [] then 0 else (if log[0].Dispatched? then 1 else 0) + Dispatches(log[1..])
  }

  function Replays(log: seq<Event>): nat {
    if log == [] then 0 else (if log[0].Replayed? then 1 else 0) + Replays(log[1..])
  }

  /** A credential request whose own 401 the handler takes for the provider's. */
  predicate MisreadReply(r: CredentialReply) {
    r.Refused? && Replayable(r.status, r.config)
  }

  predicate Misread(e: Event) {
    e.CredentialsAsked? && MisreadReply(e.answer)
  }

  function MisreadCount(log: seq<Event>): nat {
    if log == [] then 0 else (if Misread(log[0]) then 1 else 0) + MisreadCount(log[1..])
  }

  predicate DispatchUnauthorized(e: Event) {
    e.Dispatched? && e.reply == Settled(Status(401))
  }

  function MaxCalls(p: Provider): nat {
    if p.policy.Some? then p.policy.value + 1 else 1
  }

  /** Every dispatch went through exactly the layers configured, and cost no more than their retries. */
  predicate OneLayer(log: seq<Event>, p: Provider) {
    log == [] || (Layered(log[0], p) && OneLayer(log[1..], p))
  }

  predicate Layered(e: Event, p: Provider) {
    e.Dispatched? ==> e.depth == (if p.policy.Some? then 1 else 0) && e.baseCalls <= MaxCalls(p)
  }

  // ---------- what a call costs ----------

  ghost predicate Costed(log: seq<Event>, dispatches: nat, p: Provider) {
    OneLayer(log, p) && Dispatches(log) <= dispatches && BaseCalls(log) <= Dispatches(log) * MaxCalls(p)
  }

  lemma DispatchCosts(e: Event, f: Flow, dispatches: nat, p: Provider)
    requires e.Dispatched? && Layered(e, p) && Costed(f.log, dispatches, p)
    ensures Costed(Then(e, f).log, dispatches + 1, p)
  {
    OneMore(Dispatches(f.log), MaxCalls(p));
  }

  lemma OtherEventsCostNothing(e: Event, f: Flow, dispatches: nat, p: Provider)
    requires !e.Dispatched? && Costed(f.log, dispatches, p)
    ensures Costed(Then(e, f).log, dispatches, p)
  {
  }

  lemma {:induction false} SendCosts(c: Config, p: Provider, env: Env)
    requires Unnested(c, p) && WellFormed(env, p)
    ensures Costed(Send(c, p, env).log, if c.retried then 1 else 2, p)
    decreases |env.credentials|, 0
  {
    if env.credentials != [] {
      var reply, rest := env.credentials[0], env.(credentials := env.credentials[1..]);
      if reply.Refused? {
        HandleCosts(reply.status, reply.config, p, rest);
        OtherEventsCostNothing(CredentialsAsked(reply), Handle(reply.status, reply.config, p, rest), 1, p);
      } else {
        DispatchIsCosted(AsSent(c, p), p, rest);
        OtherEventsCostNothing(CredentialsAsked(reply), Dispatch(AsSent(c, p), p, rest), if c.retried then 1 else 2, p);
      }
    }
  }

  lemma {:induction false} DispatchIsCosted(c: Config, p: Provider, env: Env)
    requires c == AsSent(c, p) && Unnested(c, p) && WellFormed(env, p)
    ensures Costed(Dispatch(c, p, env).log, if c.retried then 1 else 2, p)
    decreases |env.credentials|, 2
  {
    var call := Transfer(c, p, env);
    TransferIsLayered(c, p, env);
    var e := Dispatched(c.request, Depth(AdapterOf(c, p)), call.baseCalls, call.settlement);
    if call.settlement.Settled? && !call.settlement.reply.Accepted? {
      var status, rest := StatusOf(call.settlement.reply), env.(replies := env.replies[call.baseCalls..]);
      HandleCosts(status, Some(c), p, rest);
      DispatchCosts(e, Handle(status, Some(c), p, rest), if Replayable(status, Some(c)) then 1 else 0, p);
    } else {
      DispatchCosts(e, Flow([], Waiting), 0, p);
      DispatchCosts(e, Flow([], Answered(c.request)), 0, p);
    }
  }

  lemma TransferIsLayered(c: Config, p: Provider, env: Env)
    requires c == AsSent(c, p) && Unnested(c, p)
    ensures var call := Transfer(c, p, env);
            Layered(Dispatched(c.request, Depth(AdapterOf(c, p)), call.baseCalls, call.settlement), p)
  {
    NestingCost(AdapterOf(c, p), 0, if p.policy.Some? then p.policy.value else 0, p.retriableStatusCodes, env.replies);
    assert Power(MaxCalls(p), 1) == MaxCalls(p) * Power(MaxCalls(p), 0) == MaxCalls(p);
  }

  lemma {:induction false} HandleCosts(status: Option<int>, config: Option<Config>, p: Provider, env: Env)
    requires (config.Some? ==> Unnested(config.value, p)) && WellFormed(env, p)
    ensures Costed(Handle(status, config, p, env).log, if Replayable(status, config) then 1 else 0, p)
    decreases |env.credentials|, 1
  {
    if Replayable(status, config) {
      var again := config.value.(retried := true);
      SendCosts(again, p, env);
      OtherEventsCostNothing(Replayed(again.request), Send(again, p, env), 1, p);
      OtherEventsCostNothing(Invalidated, Then(Replayed(again.request), Send(again, p, env)), 1, p);
    }
  }

  lemma {:induction false} LayersEverywhere(log: seq<Event>, p: Provider)
    ensures OneLayer(log, p) <==> forall k :: 0 <= k < |log| ==> Layered(log[k], p)
  {
    if log != [] {
      LayersEverywhere(log[1..], p);
      assert forall k :: 1 <= k < |log| ==> log[k] == log[1..][k - 1];
      assert forall k :: 0 <= k < |log[1..]| ==> log[1..][k] == log[k + 1];
    }
  }

  /** The base calls of a log are those of its dispatches. */
  lemma {:induction false} CallsAreCounted(a: seq<Event>, b: seq<Event>, e: Event)
    ensures BaseCalls(a + b) == BaseCalls(a) + BaseCalls(b)
    ensures BaseCalls([e]) == if e.Dispatched? then e.baseCalls else 0
  {
    assert [e][1..] == [];
    if a == [] {
      assert a + b == b;
    } else {
      CallsAreCounted(a[1..], b, e);
      assert (a + b)[1..] == a[1..] + b;
    }
  }

  /** A config as `AxiosHttpClient` builds it for a new call. */
  ghost predicate NewCall(c: Config, p: Provider) {
    c.request.Client? && !c.retried && c.resilienceBaseAdapter.None?
    && (c.adapter.Some? ==> c.adapter.value.Base?) && p.defaultAdapter.Base?
  }

  /**
   However the credential steps and the network behave, a client call reaches the base adapter at most
   2 * (retry count + 1) times, and every dispatch runs inside exactly one policy layer.
   */
  lemma ClientCallCost(c: Config, p: Provider, env: Env)
    requires NewCall(c, p) && WellFormed(env, p)
    ensures var log := Send(c, p, env).log;
            BaseCalls(log) <= 2 * MaxCalls(p) && Dispatches(log) <= 2 && OneLayer(log, p)
    ensures BaseCalls(Send(c, p, env).log) <= 2 * (if p.policy.Some? then p.policy.value + 1 else 1)
    ensures forall k :: 0 <= k < |Send(c, p, env).log| && Send(c, p, env).log[k].Dispatched? ==>
              && Send(c, p, env).log[k].depth == (if p.policy.Some? then 1 else 0)
              && Send(c, p, env).log[k].baseCalls <= (if p.policy.Some? then p.policy.value + 1 else 1)
  {
    LayersEverywhere(Send(c, p, env).log, p);
    SendCosts(c, p, env);
    var d := Dispatches(Send(c, p, env).log);
    assert d * MaxCalls(p) <= 2 * MaxCalls(p);
  }

  // ---------- how often a call is replayed, and whose answer it gets ----------

  /** The token requests answered 401 before anything else happens. */
  function LeadingMisreads(answers: seq<CredentialReply>): nat {
    if answers == [] || !MisreadReply(answers[0]) then 0 else 1 + LeadingMisreads(answers[1..])
  }

  /** The provider itself answers the first dispatch with a 401 that `c` may still be replayed for. */
  predicate First401(c: Config, p: Provider, env: Env) {
    && !c.retried
    && env.credentials != [] && env.credentials[0].Granted?
    && Transfer(AsSent(c, p), p, env.(credentials := env.credentials[1..])).settlement == Settled(Status(401))
  }

  /** The token requests misread on behalf of a call, told from the environment alone. */
  function Misreads(c: Config, p: Provider, env: Env): nat {
    LeadingMisreads(if First401(c, p, env) then env.credentials[1..] else env.credentials)
  }

  /** How one more event at the front changes the counts. */
  lemma ThenCounts(e: Event, f: Flow)
    ensures var log := Then(e, f).log;
            && Dispatches(log) == (if e.Dispatched? then 1 else 0) + Dispatches(f.log)
            && Replays(log) == (if e.Replayed? then 1 else 0) + Replays(f.log)
            && MisreadCount(log) == (if Misread(e) then 1 else 0) + MisreadCount(f.log)
  {
  }

  /** The first dispatch of `c` was refused with a 401 that `c` may still be replayed for. */
  predicate OwnUnauthorized(c: Config, log: seq<Event>) {
    !c.retried && |log| >= 2 && DispatchUnauthorized(log[1])
  }

  /** A flow with `misreads` misread token requests and `own` replays of `request` itself. */
  ghost predicate Counted(f: Flow, request: Request, misreads: nat, own: nat) {
    && MisreadCount(f.log) == misreads
    && Replays(f.log) == misreads + own
    && (f.outcome.Answered? ==> if misreads == 0 then f.outcome.request == request else f.outcome.request.Token?)
  }

  lemma {:induction false} SendCounts(c: Config, p: Provider, env: Env)
    requires WellFormed(env, p)
    ensures var f := Send(c, p, env);
            Counted(f, c.request, Misreads(c, p, env), if First401(c, p, env) then 1 else 0)
    ensures OwnUnauthorized(c, Send(c, p, env).log) <==> First401(c, p, env)
    decreases |env.credentials|, 0
  {
    if env.credentials != [] {
      var reply, rest := env.credentials[0], env.(credentials := env.credentials[1..]);
      if reply.Refused? {
        RefusalCounts(c, reply, p, env, rest);
      } else {
        DispatchCounts(AsSent(c, p), p, rest);
        ThenCounts(CredentialsAsked(reply), Dispatch(AsSent(c, p), p, rest));
      }
    }
  }

  lemma {:induction false} RefusalCounts(c: Config, reply: CredentialReply, p: Provider, env: Env, rest: Env)
    requires WellFormed(env, p) && env.credentials != [] && env.credentials[0] == reply && reply.Refused?
    requires rest == env.(credentials := env.credentials[1..])
    ensures var f := Send(c, p, env);
            Counted(f, c.request, LeadingMisreads(env.credentials), 0) && !OwnUnauthorized(c, f.log)
    decreases |rest.credentials|, 2
  {
    var after := Handle(reply.status, reply.config, p, rest);
    HandleCounts(reply.status, reply.config, p, rest);
    ThenCounts(CredentialsAsked(reply), after);
    assert Send(c, p, env) == Then(CredentialsAsked(reply), after);
    assert Replayable(reply.status, reply.config) ==> after.log[0].Invalidated?;
  }

  lemma {:induction false} DispatchCounts(c: Config, p: Provider, env: Env)
    requires WellFormed(env, p)
    ensures var own := !c.retried && Transfer(c, p, env).settlement == Settled(Status(401));
            Counted(Dispatch(c, p, env), c.request, if own then LeadingMisreads(env.credentials) else 0, if own then 1 else 0)
    decreases |env.credentials|, 2
  {
    var call := Transfer(c, p, env);
    var e := Dispatched(c.request, Depth(AdapterOf(c, p)), call.baseCalls, call.settlement);
    if call.settlement.Settled? && !call.settlement.reply.Accepted? {
      var status, rest := StatusOf(call.settlement.reply), env.(replies := env.replies[call.baseCalls..]);
      HandleCounts(status, Some(c), p, rest);
      ThenCounts(e, Handle(status, Some(c), p, rest));
    } else {
      ThenCounts(e, Flow([], Waiting));
      ThenCounts(e, Flow([], Answered(c.request)));
    }
  }

  lemma {:induction false} HandleCounts(status: Option<int>, config: Option<Config>, p: Provider, env: Env)
    requires WellFormed(env, p)
    ensures var f := Handle(status, config, p, env);
            if Replayable(status, config) then Counted(f, config.value.request, LeadingMisreads(env.credentials), 1)
            else f == Flow([], Failed)
    decreases |env.credentials|, 1
  {
    if Replayable(status, config) {
      var again := config.value.(retried := true);
      SendCounts(again, p, env);
      ThenCounts(Replayed(again.request), Send(again, p, env));
      ThenCounts(Invalidated, Then(Replayed(again.request), Send(again, p, env)));
    }
  }

  /**
   A call is replayed once for its own 401 and, besides, once for every token request that is answered 401 in
   a row when credentials are next asked for. So it is replayed at most once if and only if the second
   credential request is not misread, or comes after neither a misread one nor a 401 of the provider.
   */
  lemma ReplayedAtMostOnce(c: Config, p: Provider, env: Env)
    requires NewCall(c, p) && WellFormed(env, p)
    ensures var log, answers := Send(c, p, env).log, env.credentials;
            && Replays(log) == MisreadCount(log) + (if OwnUnauthorized(c, log) then 1 else 0)
            && Replays(log) == Misreads(c, p, env) + (if First401(c, p, env) then 1 else 0)
            && (Replays(log) <= 1 <==>
                  (|answers| >= 2 && MisreadReply(answers[1]) ==> !MisreadReply(answers[0]) && !First401(c, p, env)))
  {
    SendCounts(c, p, env);
    FirstMisreads(env.credentials);
    if env.credentials != [] {
      FirstMisreads(env.credentials[1..]);
    }
  }

  lemma FirstMisreads(answers: seq<CredentialReply>)
    ensures LeadingMisreads(answers) >= 1 <==> |answers| >= 1 && MisreadReply(answers[0])
    ensures LeadingMisreads(answers) >= 2 <==> |answers| >= 2 && MisreadReply(answers[0]) && MisreadReply(answers[1])
  {
    if answers != [] {
      assert answers[1..] != [] ==> answers[1..][0] == answers[1];
    }
  }

  /**
   An answered client call got the answer to its own request if and only if no token request made for it was
   answered 401: neither the first nor, after a 401 of the provider, the second.
   */
  lemma AnswerBelongsToTheCall(c: Config, p: Provider, env: Env)
    requires NewCall(c, p) && WellFormed(env, p) && Send(c, p, env).outcome.Answered?
    ensures Send(c, p, env).outcome.request == Client <==> MisreadCount(Send(c, p, env).log) == 0
    ensures Send(c, p, env).outcome.request == Client <==>
              && !MisreadReply(env.credentials[0])
              && (First401(c, p, env) && |env.credentials| >= 2 ==> !MisreadReply(env.credentials[1]))
  {
    SendCounts(c, p, env);
    FirstMisreads(env.credentials);
    FirstMisreads(env.credentials[1..]);
  }

  /** No credential request fails with a 401 that carries a config, as a locally signed token never does. */
  ghost predicate NoTokenUnauthorized(env: Env) {
    forall k :: 0 <= k < |env.credentials| ==> !MisreadReply(env.credentials[k])
  }

  /** As long as no token request is answered 401: at most one replay, after the call's own 401, and only its own answer. */
  lemma OneReplayAndTheOwnAnswer(c: Config, p: Provider, env: Env)
    requires NewCall(c, p) && WellFormed(env, p) && NoTokenUnauthorized(env)
    ensures var f := Send(c, p, env);
            && Replays(f.log) == (if First401(c, p, env) then 1 else 0)
            && (f.outcome.Answered? ==> f.outcome.request == Client)
  {
    SendCounts(c, p, env);
  }

  /** The token request with id `k` as it comes back on a 401 of the token endpoint. */
  function RefusedToken(k: nat, p: Provider): CredentialReply {
    var base := Base(Token(k));
    Refused(Some(401), Some(
      if p.policy.Some? then Config(Token(k), Some(Guarded(base)), Some(base), false)
      else Config(Token(k), Some(base), None, false)))
  }

  /** One refused token request is enough: the client is handed the token endpoint's answer. */
  lemma TokenAnswerReachesTheClient(c: Config, p: Provider)
    requires NewCall(c, p)
    ensures var env := Env([RefusedToken(0, p), Granted], [Accepted]);
            WellFormed(env, p) && Send(c, p, env).outcome == Answered(Token(0))
  {
    var env := Env([RefusedToken(0, p), Granted], [Accepted]);
    var granted := env.(credentials := env.credentials[1..]);
    assert granted.credentials == [Granted];
    var again := RefusedToken(0, p).config.value.(retried := true);
    var retries := if p.policy.Some? then p.policy.value else 0;
    assert CallAdapter(Base(Token(0)), retries, p.retriableStatusCodes, env.replies) == AdapterCall(Settled(Accepted), 1);
    assert Transfer(AsSent(again, p), p, granted).settlement == Settled(Accepted);
    assert Send(again, p, granted).outcome == Answered(Token(0));
  }

  /** And nothing bounds the replays while the token endpoint keeps answering 401. */
  lemma ReplaysWithoutBound(c: Config, p: Provider, n: nat)
    ensures var log := Send(c, p, Env(seq(n, (k: int) requires 0 <= k => RefusedToken(k, p)), [])).log;
            Replays(log) == n && Dispatches(log) == 0
  {
    RefusalsReplay(c, p, Env(seq(n, (k: int) requires 0 <= k => RefusedToken(k, p)), []), 0);
  }

  lemma {:induction false} RefusalsReplay(c: Config, p: Provider, env: Env, first: nat)
    requires forall k :: 0 <= k < |env.credentials| ==> env.credentials[k] == RefusedToken(first + k, p)
    ensures Replays(Send(c, p, env).log) == |env.credentials| && Dispatches(Send(c, p, env).log) == 0
    decreases |env.credentials|
  {
    if env.credentials != [] {
      var reply, rest := env.credentials[0], env.(credentials := env.credentials[1..]);
      assert reply == RefusedToken(first, p);
      RefusalsReplay(reply.config.value.(retried := true), p, rest, first + 1);
      var after := Handle(reply.status, reply.config, p, rest);
      var replayed := Then(Replayed(reply.config.value.request), Send(reply.config.value.(retried := true), p, rest));
      assert after == Then(Invalidated, replayed);
      assert Replays(replayed.log) == 1 + |rest.credentials| && Dispatches(replayed.log) == 0;
      assert Replays(after.log) == 1 + |rest.credentials| && Dispatches(after.log) == 0;
    }
  }

  /** Where credentials come from: a dispatch directly follows a grant, and a later grant follows an invalidation. */
  ghost predicate Ordered(log: seq<Event>) {
    forall k :: 0 <= k < |log| ==> InOrder(log, k)
  }

  ghost predicate InOrder(log: seq<Event>, k: nat)
    requires k < |log|
  {
    && (log[k].Dispatched? ==> k >= 1 && log[k - 1] == CredentialsAsked(Granted))
    && (log[k].CredentialsAsked? && k >= 1 ==> k >= 2 && log[k - 1].Replayed? && log[k - 2].Invalidated?)
  }

  lemma {:induction false} SendIsOrdered(c: Config, p: Provider, env: Env)
    ensures Ordered(Send(c, p, env).log)
    decreases |env.credentials|, 0
  {
    if env.credentials != [] {
      var reply, rest := env.credentials[0], env.(credentials := env.credentials[1..]);
      if reply.Refused? {
        HandleIsOrdered([CredentialsAsked(reply)], reply.status, reply.config, p, rest);
      } else {
        var sent := AsSent(c, p);
        var call := Transfer(sent, p, rest);
        var lead := [CredentialsAsked(reply), Dispatch(sent, p, rest).log[0]];
        if call.settlement.Settled? && !call.settlement.reply.Accepted? {
          var status := StatusOf(call.settlement.reply);
          HandleIsOrdered(lead, status, Some(sent), p, rest.(replies := rest.replies[call.baseCalls..]));
          assert Send(c, p, env).log == lead + Handle(status, Some(sent), p, rest.(replies := rest.replies[call.baseCalls..])).log;
        } else {
          assert Send(c, p, env).log == lead;
        }
      }
    }
  }

  lemma {:induction false} HandleIsOrdered(lead: seq<Event>, status: Option<int>, config: Option<Config>, p: Provider, env: Env)
    requires Ordered(lead)
    ensures Ordered(lead + Handle(status, config, p, env).log)
    decreases |env.credentials|, 1
  {
    if Replayable(status, config) {
      var again := config.value.(retried := true);
      SendIsOrdered(again, p, env);
      OrderedReplay(lead, again.request, Send(again, p, env).log);
      ReplayLog(lead, status, config, p, env);
    } else {
      assert lead + [] == lead;
    }
  }

  lemma ReplayLog(lead: seq<Event>, status: Option<int>, config: Option<Config>, p: Provider, env: Env)
    requires Replayable(status, config)
    ensures lead + Handle(status, config, p, env).log
         == lead + [Invalidated, Replayed(config.value.request)] + Send(config.value.(retried := true), p, env).log
  {
    var request, inner := config.value.request, Send(config.value.(retried := true), p, env);
    assert Handle(status, config, p, env) == Then(Invalidated, Then(Replayed(request), inner));
    TwoInFront(lead, Invalidated, Replayed(request), inner.log);
  }

  lemma TwoInFront(lead: seq<Event>, a: Event, b: Event, log: seq<Event>)
    ensures lead + ([a] + ([b] + log)) == lead + [a, b] + log
  {
  }

  lemma OrderedReplay(lead: seq<Event>, request: Request, inner: seq<Event>)
    requires Ordered(lead) && Ordered(inner)
    ensures Ordered(lead + [Invalidated, Replayed(request)] + inner)
  {
    var log, n := lead + [Invalidated, Replayed(request)] + inner, |lead| + 2;
    forall k | 0 <= k < |log| ensures InOrder(log, k) {
      if k < |lead| {
        assert InOrder(lead, k);
      } else if k >= n {
        assert InOrder(inner, k - n);
      }
    }
  }

  /** The replay after a 401 is sent with credentials asked for after that 401's own invalidation. */
  lemma ReplayCarriesNewCredentials(c: Config, p: Provider, env: Env, i: nat, k: nat)
    requires var log := Send(c, p, env).log; i < k < |log| && log[i].Dispatched? && log[k].Dispatched?
    ensures var log := Send(c, p, env).log;
            i < k - 3 && log[k - 3].Invalidated? && log[k - 1] == CredentialsAsked(Granted)
  {
    SendIsOrdered(c, p, env);
    DispatchesAreApart(Send(c, p, env).log, i, k);
  }

  lemma DispatchesAreApart(log: seq<Event>, i: nat, k: nat)
    requires Ordered(log) && i < k < |log| && log[i].Dispatched? && log[k].Dispatched?
    ensures i < k - 3 && log[k - 3].Invalidated? && log[k - 1] == CredentialsAsked(Granted)
  {
    assert InOrder(log, k) && InOrder(log, k - 1);
  }
}
