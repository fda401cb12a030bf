# Verification of the stateful core

This Dafny project models the parts of the repository that carry state from call to call, and proves what their
guards are for: two credential caches and the 401 replay, the resilience policy, the device property poller and its
subscription handlers, the MIoT device protocol, the raster arithmetic, the health cache and the DNS grouping.

Objects that the source updates in place are classes here, with the same fields and one method per synchronous
stretch of code. Where callbacks interleave, the object remembers, for the proof only, the run it has been through, and
every method keeps its fields equal to what that run leads to; the theorems are about every run of the events a module
lists. An event that cannot happen in a state is a step that changes nothing, so no order of these events is left out.
Nothing outside the code under study is assumed to behave well; the network, the devices, storage writes and the order
of callbacks are arbitrary. What is taken one at a time all the same is said under "Left out".

| module | what it is about |
|---|---|
| `CredentialProtocol`, `CredentialStrategies` | the epoch protocol over all runs, and the two strategies following it |
| `AuthReplay` | one client call through policy wrap, credentials, transport and 401 replay |
| `SharedCredentials` | any number of client calls on one strategy, interleaved with each other and with the fetches |
| `RetryLoop`, `CancellableWork` | the retry loop, the race of abort, timeout and work, the back-off wait |
| `PollerBackoff`, `PollerEvents`, `PollerSchedule`, `Poller` | back-off, change detection, the self-rearming timer, and the poller object that joins the first two |
| `NotificationSteps`, `Subscriptions` | the notification handlers over storage and the poller's cache: any number of requests interleaved await by await, and the handlers as an object |
| `MiotStamps`, `MiotSocket`, `MiotPackets` | stamps and the one refresh, one exchange over a socket, the binary packets |
| `SpecMerge`, `BulkRead` | published spec and overrides, the bulk read on top of them |
| `Raster` | pixels of coordinates, painting and sampling |
| `HealthChecks`, `Health` | one check racing its deadline, and the single-flight cache over passes of such checks |
| `DnsClusters` | grouping DNS records into clusters |
| `Wrappers`, `Arithmetic` | optional values and results, and a few facts about integers |

Verify with `dafny verify dfyconfig.toml`.

## What turned out not to hold

Five expectations are false of the code as they stand. The model shows where they fail and proves exactly when they
hold.

1. **A 401 is replayed at most once** (packages/http-provider/src/HttpProviderFactory.ts:261-272). A token request
   that is itself answered 401 rejects inside the request interceptor; axios hands that rejection, with the token
   request's config, to the response interceptor, which takes it for the provider's 401. It replays the token
   request, and the client receives the token endpoint's answer (`TokenAnswerReachesTheClient`); nothing bounds the
   replays of one call (`ReplaysWithoutBound`). `ReplayedAtMostOnce` counts them from what credentials and network
   do: one for the provider's own 401 and one for every token request answered 401 in a row when credentials are next
   asked for. So a call is replayed at most once if and only if the second credential request is not answered 401, or
   follows neither a first one answered 401 nor a 401 of the provider. `AnswerBelongsToTheCall` gives the condition
   for the client to get its own answer, also in those terms. The bound on calls of the base adapter holds regardless
   (`ClientCallCost`), and over all calls together the replays are at most one per call and one per failed fetch
   (`ReplaysAndFetches`).
2. **The poller's cache equals storage.** A pair can be stored twice, and a post can fail half-way; then equality is
   lost (`EqualityCanBeLost`). `RequestEffect` says exactly which requests keep it when none interrupts another, and
   `StepIsCleanIff` which steps do in any interleaving; through clean steps cache and storage are equal whenever nothing
   is in progress (`NotificationSteps.CleanRunsStayEqual`).
3. **`stop()` ends polling.** While the subscriptions are still loading there is no timer to clear, and the load arms
   one afterwards (`EarlyStopIsForgotten`). `StopIsFinalOnceStarted` proves that stop is final if and only if start-up
   is over.
4. **Fetches are bounded by one plus invalidations plus failures.** A token that expires is renewed, so two fetches
   can be started with nothing invalidated and nothing failed, whatever the lifetime (`PlainBoundFails`). The bound
   holds of all runs if and only if what is fetched never expires, as with the token exchange
   (`PlainBoundHoldsWithoutExpiry`). With renewals counted it always holds (`FetchEconomy`), and `RenewalSpacing` proves
   how far apart these are.
5. **The poller caches only what is stored.** Requests overlap: if all subscriptions of a device are deleted between a
   post's storage call and its announcement to the poller, the pair stays cached and is stored no more
   (`CacheCanRunAhead`). A removal is safe if and only if it leaves every pair that a post in progress has stored, and
   will not store again, with a record (`RemovalIsSafeIff`); as long as none takes such a pair's last record away, what
   is cached is stored or about to be forgotten, in every interleaving (`HarmlessRunsKeepTheCache`), and is stored
   whenever nothing is left to forget (`NotificationSteps.CacheIsStored`). A file written back must not take away the
   last record of a cached pair either (`CacheStep`). When no request interrupts another the expectation always holds
   (`CacheIsStoredOneAtATime`).

A `maxErrorCount` of 0 or less in the poller's configuration works as 1, because the first failure already reaches it,
and a negative `errorSkipCycles` works as 0. `PollerBackoff` covers every integer for both settings: in the table below
M is the configured maximum but at least 1, and s the configured skip cycles but at least 0.

## What is taken for granted

- axios runs request interceptors in reverse order of registration, passes a rejection in them on to the response
  interceptors, attaches the config to its errors and keeps private fields of a config.
- One event loop: code between two suspension points is not interrupted.
- An abort signal stays aborted. In `Health` the clock does not run backwards; in `CredentialProtocol` it may.
- Identifiers of stored devices contain no colon (they are generated UUIDs). A signed token is never empty.
- A storage call takes effect at one moment or, if it fails, not at all. The file store's way of reading everything and
  writing it back is an event of its own, `Overwritten`, which puts any earlier selection of records back.
- Record identifiers are never used again. Requests are served only once the subscriptions are loaded.
- MD5 and AES-128-CBC are parameters: a digest has 16 bytes, a ciphertext the length PKCS#7 padding gives it (RFC 5652,
  section 6.3), decryption inverts encryption.
- Rounding gives an integer at most one half away. Distances in kilometres are positive. Coordinates are real numbers;
  one that is not finite has no pixel.
- Locale order is the order of some real-valued rank. The server pattern, lower-casing and the subnet of an address
  are functions, and what the pattern captures is a number.
- A device reports JSON values; a text, number, boolean or null is the same as an equal one, an object or array only as
  itself.
- All callers waiting for one fetch receive the same error when it fails, and so the same config.
- Listeners of the poller's event do not throw, and the hook called on retry does not either.

## Model

| member | source | states |
|---|---|---|
| `CredentialProtocol.Freshness` | packages/http-provider/src/strategies/TokenExchangeStrategy.ts:28-59 | In every run, whatever a call yields (from cache, by joining a fetch, or by its own) was fetched with no invalidation between the start of that fetch and the call |
| `CredentialProtocol.AnswerIsFresh` | packages/http-provider/src/strategies/JwtSelfSignedStrategy.ts:18-50 | The promise or cached value a call gets belongs to the current epoch, and a cached value has more than the 30-second buffer of its lifetime left |
| `CredentialProtocol.CredentialsAfterInvalidate` | packages/http-provider/src/HttpProviderFactory.ts:265-268 | A call made after an invalidation, as the replay of a 401 is, yields only credentials whose fetch started after it |
| `CredentialProtocol.LateFetchIsInert` | packages/http-provider/src/strategies/TokenExchangeStrategy.ts:40-51 | A fetch overtaken by an invalidation neither changes the cache when it ends nor clears another fetch's in-flight entry |
| `CredentialProtocol.ProtocolInvariant` | packages/http-provider/src/strategies/TokenExchangeStrategy.ts:28-59 | The inductive invariant of all runs: epochs order the fetches, the current epoch's unfinished fetch is the in-flight one, the cached value comes from a fulfilled fetch of the current epoch, and every fetch after the first had a reason |
| `CredentialProtocol.UnfinishedFetchesHaveDistinctEpochs` | packages/http-provider/src/strategies/TokenExchangeStrategy.ts:33-38 | Two fetches that are both unfinished never belong to the same epoch |
| `CredentialProtocol.FetchEconomy` | packages/http-provider/src/strategies/TokenExchangeStrategy.ts:29-51 | However many callers, at most 1 + invalidations + failed fetches are started by a token exchange; with expiry, the renewals come on top |
| `CredentialProtocol.PlainBoundHoldsWithoutExpiry` | packages/http-provider/src/strategies/JwtSelfSignedStrategy.ts:18-50 | The bound without renewals holds of all runs if and only if what is fetched never expires |
| `CredentialProtocol.PlainBoundFails` | packages/http-provider/src/strategies/JwtSelfSignedStrategy.ts:19-24 | For every lifetime, a run with two fetches, no invalidation and no failure |
| `CredentialProtocol.RenewalSpacing` | packages/http-provider/src/strategies/JwtSelfSignedStrategy.ts:19-24 | A renewal starts only once the token it replaces is within the buffer of its expiry |
| `CredentialProtocol.FetchRecordIsStable` | packages/http-provider/src/strategies/TokenExchangeStrategy.ts:37-51 | What has become of a fetch is never rewritten later in the run |
| `CredentialProtocol.EqualCountsNoInvalidate` | packages/http-provider/src/strategies/TokenExchangeStrategy.ts:56-59 | Two moments have the same epoch if and only if nothing was invalidated in between |
| `CredentialStrategies.TokenExchangeStrategy.GetCredentials` | packages/http-provider/src/strategies/TokenExchangeStrategy.ts:28-54 | The fields stay the state the recorded run leads to; the answer is the protocol's for this call, and a token request is issued exactly when the answer is a new promise |
| `CredentialStrategies.TokenExchangeStrategy.OnFulfilled` | packages/http-provider/src/strategies/TokenExchangeStrategy.ts:40-45 | The callback is the fulfilment step of the run and hands the credentials on even when they are not cached |
| `CredentialStrategies.TokenExchangeStrategy.OnSettled` | packages/http-provider/src/strategies/TokenExchangeStrategy.ts:46-51 | The callback is the settling step of the run |
| `CredentialStrategies.TokenExchangeStrategy.Invalidate` | packages/http-provider/src/strategies/TokenExchangeStrategy.ts:56-59 | The call is the invalidation step of the run |
| `CredentialStrategies.JwtSelfSignedStrategy.GetCredentials` | packages/http-provider/src/strategies/JwtSelfSignedStrategy.ts:18-50 | The same for the self-signed token, whose cached value also has to be outside the expiry buffer |
| `CredentialStrategies.JwtSelfSignedStrategy.OnFulfilled` | packages/http-provider/src/strategies/JwtSelfSignedStrategy.ts:34-40 | The callback is the fulfilment step, dating the expiry from the moment of fulfilment |
| `CredentialStrategies.JwtSelfSignedStrategy.OnSettled` | packages/http-provider/src/strategies/JwtSelfSignedStrategy.ts:41-46 | The callback is the settling step of the run |
| `CredentialStrategies.JwtSelfSignedStrategy.Invalidate` | packages/http-provider/src/strategies/JwtSelfSignedStrategy.ts:52-56 | The call is the invalidation step of the run |
| `AuthReplay.ClientCallCost` | packages/http-provider/src/HttpProviderFactory.ts:212-273 | Whatever credentials and network do, a client call makes at most 2 * (retry count + 1) base-adapter calls in at most two dispatches, each inside exactly one policy layer |
| `AuthReplay.ReplayCarriesNewCredentials` | packages/http-provider/src/HttpProviderFactory.ts:255-272 | In the log of one call, a second dispatch directly follows a grant of credentials asked for after an invalidation |
| `SharedCredentials.SentAfterOwn401IsFresh` | packages/http-provider/src/HttpProviderFactory.ts:255-272 | Over any interleaving of client calls on one strategy: whatever a call sends after a 401 of its own carries the value of a fetch that started after the invalidation which that 401 caused |
| `SharedCredentials.EveryReplayIsFresh` | packages/http-provider/src/HttpProviderFactory.ts:261-272 | Between two requests sent for one call lies a 401 of its own, and the later request carries the value of a fetch started after the invalidation of it |
| `SharedCredentials.SystemInvariant` | packages/http-provider/src/HttpProviderFactory.ts:250-273 | The inductive invariant: what a call waits for was asked after all its 401s, and what it sent is what it received |
| `SharedCredentials.FetchesPerReplay` | packages/http-provider/src/strategies/TokenExchangeStrategy.ts:28-59 | When nothing else invalidates, a token exchange starts at most 1 + replays + failed fetches |
| `SharedCredentials.ReplaysAndFetches` | packages/http-provider/src/HttpProviderFactory.ts:265-268 | The replays of all calls together are at most one per call and one per failed fetch, and the fetches at most 1 + calls + 2 * failed fetches |
| `SharedCredentials.InvalidationsAreReplays` | packages/http-provider/src/HttpProviderFactory.ts:265-268 | When nothing else invalidates, the invalidations of the strategy are exactly the replays |
| `AuthReplay.SendIsOrdered` | packages/http-provider/src/HttpProviderFactory.ts:255-272 | Every dispatch directly follows a grant of credentials, and every later request for credentials an invalidation and replay |
| `AuthReplay.OneReplayAndTheOwnAnswer` | packages/http-provider/src/HttpProviderFactory.ts:265-268 | As long as no token request is answered 401: one replay exactly if the provider answers the first dispatch with 401, and only the call's own answer reaches the client |
| `AuthReplay.ReplayedAtMostOnce` | packages/http-provider/src/HttpProviderFactory.ts:265-268 | The exact number of replays, from what credentials and network do; at most one if and only if the second credential request is not answered 401, or follows neither a first one answered 401 nor a 401 of the provider |
| `AuthReplay.AnswerBelongsToTheCall` | packages/http-provider/src/HttpProviderFactory.ts:261-272 | An answered call got the answer to its own request if and only if the first credential request was not answered 401 nor, after a 401 of the provider, the second |
| `AuthReplay.TokenAnswerReachesTheClient` | packages/http-provider/src/HttpProviderFactory.ts:261-272 | The run in which the client is handed the token endpoint's answer |
| `AuthReplay.ReplaysWithoutBound` | packages/http-provider/src/HttpProviderFactory.ts:265-268 | For every n there is a run with n replays and no dispatch of the client's request |
| `AuthReplay.NestingCost` | packages/http-provider/src/HttpProviderFactory.ts:200-224 | A call through nested policies costs at most (retries + 1) to the power of the nesting depth |
| `AuthReplay.NestingCostIsReached` | packages/http-provider/src/HttpProviderFactory.ts:206-210 | That cost is reached when every reply is a network error, which is why the base adapter is memoised |
| `AuthReplay.WrapIsIdempotent` | packages/http-provider/src/HttpProviderFactory.ts:217-223 | Wrapping a config again leaves it as wrapped once, one layer deep |
| `AuthReplay.RequestConfig.WrapAdapterWithPolicy` | packages/http-provider/src/HttpProviderFactory.ts:212-224 | The unwrapped adapter is remembered on the first wrap and never replaced; the adapter is always one layer around it; a wrap of a wrapped config changes nothing |
| `AuthReplay.GuardedAdapterRunsTheRetryLoop` | packages/http-provider/src/HttpProviderFactory.ts:222-223 | The base calls of a guarded adapter are exactly the attempts of the resilience policy's retry loop, with the same end; an abort by the caller can only cut them short |
| `AuthReplay.RetriesExactly` | packages/http-provider/src/HttpProviderFactory.ts:37-46 | Network errors and answers with a configured status are retried, successes, cancellations, other errors and other statuses are not: the call ends with the first of these, or with the last attempt allowed, after exactly that many base calls |
| `AuthReplay.RetriesWait` | packages/http-provider/src/HttpProviderFactory.ts:37-46 | When the replies give out before that, the call has used them all and is still waiting |
| `RetryLoop.Execute` | packages/resilience/src/ResiliencePolicy.ts:211-238 | At most count + 1 attempts, none after an abort of the parent; hooks numbered 1, 2, 3 without gaps; a failing run under an aborted parent ends in the cancellation error |
| `RetryLoop.RunIsDetermined` | packages/resilience/src/ResiliencePolicy.ts:211-238 | The specification of a run leaves no freedom: policy and environment determine ending, attempts and hooks |
| `RetryLoop.ThrownErrorIsFinal` | packages/resilience/src/ResiliencePolicy.ts:225-231 | An error that surfaces is the last attempt's, and either that attempt was the final allowed one or its error is not handled; all earlier errors were handled |
| `CancellableWork.RunSettlesWithVerdict` | packages/resilience/src/ResiliencePolicy.ts:69-106 | In every order of callbacks the promise is settled exactly as the order of first abort, timeout, microtask and completion says, or not at all |
| `CancellableWork.RaceInvariant` | packages/resilience/src/ResiliencePolicy.ts:69-106 | Every field of the race after every run, read off the order of events |
| `CancellableWork.SettlesOnce` | packages/resilience/src/ResiliencePolicy.ts:69-106 | Once settled, always settled with the same value |
| `CancellableWork.NoListenerOnceSettled` | packages/resilience/src/ResiliencePolicy.ts:71-88 | A settled promise holds no abort listener |
| `CancellableWork.WorkRunsOnceUnlessAborted` | packages/resilience/src/ResiliencePolicy.ts:90-98 | The work is started at most once, and exactly when the microtask ran before any abort of the parent |
| `CancellableWork.EarlyAbortCancels` | packages/resilience/src/ResiliencePolicy.ts:75-88 | An abort of the parent before any timeout and before the work completes cancels, whatever follows |
| `CancellableWork.RaceObject.SettledAsTheOrderSays` | packages/resilience/src/ResiliencePolicy.ts:69-106 | The same of the object itself after any callbacks: its settlement is the verdict of the order of events, a settled one holds no listener, and the work was started at most once |
| `CancellableWork.RaceObject.ParentAbort` | packages/resilience/src/ResiliencePolicy.ts:75-78 | The run gains this event; an abort that finds its listener in place cancels |
| `CancellableWork.RaceObject.TimeoutAbort` | packages/resilience/src/ResiliencePolicy.ts:79-81 | The run gains this event; a timeout settles nothing and leaves no listener |
| `CancellableWork.RaceObject.Microtask` | packages/resilience/src/ResiliencePolicy.ts:90-95 | The run gains this event; the work starts, for the first time, or an aborted parent leaves the promise cancelled and the work never started |
| `CancellableWork.RaceObject.AfterResolve` | packages/resilience/src/ResiliencePolicy.ts:98-100 | The run gains this event; the value is the settlement unless the promise was cancelled before, the only other way to have settled |
| `CancellableWork.RaceObject.AfterReject` | packages/resilience/src/ResiliencePolicy.ts:101-104 | The run gains this event; the settlement is the cancellation under an aborted parent and the error otherwise |
| `CancellableWork.FirstEventEndsTheWait` | packages/resilience/src/ResiliencePolicy.ts:109-130 | The first of timer and abort ends the back-off wait for good and leaves neither timer nor listener |
| `CancellableWork.BackoffWait.OnTimer` | packages/resilience/src/ResiliencePolicy.ts:120-123 | The run gains this event; the wait is over, by the timer unless it was over before, and nothing is left registered |
| `CancellableWork.BackoffWait.OnAbort` | packages/resilience/src/ResiliencePolicy.ts:115-119 | The run gains this event; the wait is over, by cancellation unless it was over before, and nothing is left registered |
| `PollerBackoff.FailingDevicePolls` | apis/miot-bridge-api/src/services/DevicePropertyPollerService.ts:291-307 | A permanently failing device is read (n / (M + s)) * M + min(n mod (M + s), M) times in n ticks |
| `PollerBackoff.FailingDeviceState` | apis/miot-bridge-api/src/services/DevicePropertyPollerService.ts:408-445 | Error count and remaining skips of a failing device after n ticks, by the position of n in its cycle |
| `PollerBackoff.CountersStayWithinBounds` | apis/miot-bridge-api/src/services/DevicePropertyPollerService.ts:401-441 | Skip counters stay within 0..s, error counts below the maximum, and a skipping device has no error count |
| `PollerBackoff.EveryWindowPolls` | apis/miot-bridge-api/src/services/DevicePropertyPollerService.ts:291-307 | Every window of s + 1 ticks of a subscribed device contains a read, whatever the reads give |
| `PollerBackoff.PausesFollowFailuresInARow` | apis/miot-bridge-api/src/services/DevicePropertyPollerService.ts:401-441 | Over all runs of reads: the error count is the number of failed reads since the last successful one or the last pause; a failed read begins a pause if and only if it makes these as many as are tolerated, and the pause is as long as configured |
| `PollerBackoff.SeparateFailuresDoNotPause` | apis/miot-bridge-api/src/services/DevicePropertyPollerService.ts:401-405 | A device that never fails that often in a row is never paused |
| `PollerEvents.StreamIsStutterFree` | apis/miot-bridge-api/src/services/DevicePropertyPollerService.ts:374-399 | For any mix of devices, properties and removals, the events of one property are the stutter-free form of its own readings and the stored value is its last reading |
| `PollerEvents.EventsChain` | apis/miot-bridge-api/src/services/DevicePropertyPollerService.ts:388-398 | With change-only dispatch each event starts at the previous event's new value, none repeats a value, and the last emitted value is the last reading |
| `PollerEvents.EveryReadingIsAnnounced` | apis/miot-bridge-api/src/services/DevicePropertyPollerService.ts:388-398 | Without it there is exactly one event per successful reading, in order |
| `PollerEvents.CacheKeysAreDistinct` | apis/miot-bridge-api/src/services/DevicePropertyPollerService.ts:384 | The joined keys keep pairs apart, and a device's prefix matches its own keys only |
| `Poller.DevicePropertyPoller.AddSubscriptions` | apis/miot-bridge-api/src/services/DevicePropertyPollerService.ts:136-140 | The subscribed pairs gain exactly the device's listed properties |
| `Poller.DevicePropertyPoller.RemoveSubscription` | apis/miot-bridge-api/src/services/DevicePropertyPollerService.ts:147-156 | Exactly one pair goes, and its last value is forgotten |
| `Poller.DevicePropertyPoller.RemoveAllSubscriptions` | apis/miot-bridge-api/src/services/DevicePropertyPollerService.ts:162-167 | Exactly the device's pairs and last values go |
| `Poller.DevicePropertyPoller.LoadSubscriptions` | apis/miot-bridge-api/src/services/DevicePropertyPollerService.ts:198-204 | The subscribed pairs gain exactly the stored ones |
| `Poller.DevicePropertyPoller.DueDevices` | apis/miot-bridge-api/src/services/DevicePropertyPollerService.ts:291-307 | Exactly the subscribed devices that are not skipping are due, each once and with all its properties; the others count down by one |
| `Poller.DevicePropertyPoller.Publish` | apis/miot-bridge-api/src/services/DevicePropertyPollerService.ts:374-399 | The history of the poller gains exactly the successful readings, in order |
| `Poller.ReadingsAreTheSuccesses` | apis/miot-bridge-api/src/services/DevicePropertyPollerService.ts:374-382 | Exactly the results with code 0 are readings, each once, in order, with their own key and value |
| `Poller.DevicePropertyPoller.ReadDevice` | apis/miot-bridge-api/src/services/DevicePropertyPollerService.ts:359-447 | A read moves only its own device's back-off: a success clears the errors, a failure is one more or begins the pause, a read after polling was switched off changes nothing; and it publishes exactly its readings |
| `Poller.DevicePropertyPoller.Tick` | apis/miot-bridge-api/src/services/DevicePropertyPollerService.ts:255-283 | Every device subscribed when the tick begins moves exactly one step of its back-off and exactly the due ones publish, whatever the handlers do to the subscriptions while the reads are under way; and these changes take effect |
| `Poller.DevicePropertyPoller.EmittedIsStutterFree` | apis/miot-bridge-api/src/services/DevicePropertyPollerService.ts:384-398 | At any moment of the object's life, what was emitted about a property is the stutter-free form of its readings so far |
| `PollerSchedule.OneTimerOrOneTick` | apis/miot-bridge-api/src/services/DevicePropertyPollerService.ts:222-243 | At every reachable state armed timers and running ticks number at most one, so the `_ticking` guard is never taken |
| `PollerSchedule.ScheduleInvariant` | apis/miot-bridge-api/src/services/DevicePropertyPollerService.ts:173-243 | The inductive invariant of timer, tick and start-up |
| `PollerSchedule.NeverStallsUnlessStopped` | apis/miot-bridge-api/src/services/DevicePropertyPollerService.ts:235-242 | Once started and not stopped, a timer is armed or a tick is running |
| `PollerSchedule.StopIsFinalOnceStarted` | apis/miot-bridge-api/src/services/DevicePropertyPollerService.ts:214-220 | No tick begins after stop, even if it ran mid-tick, if and only if start-up is over |
| `PollerSchedule.EarlyStopIsForgotten` | apis/miot-bridge-api/src/services/DevicePropertyPollerService.ts:184-194 | A stop during the load is forgotten: a tick still begins |
| `PollerSchedule.DeadStaysDead` | apis/miot-bridge-api/src/services/DevicePropertyPollerService.ts:237-242 | A stopped poller begins no tick in any continuation |
| `PollerSchedule.PollLoop.OnTimer` | apis/miot-bridge-api/src/services/DevicePropertyPollerService.ts:226-236 | An expiry always gets past the `_ticking` guard: one more tick begins, it is the only one, and no timer is armed |
| `PollerSchedule.PollLoop.AfterWork` | apis/miot-bridge-api/src/services/DevicePropertyPollerService.ts:237-242 | The end of a tick leaves no tick running, and exactly one timer armed unless stop came in between |
| `PollerSchedule.PollLoop.StopPolling` | apis/miot-bridge-api/src/services/DevicePropertyPollerService.ts:214-220 | No timer is left armed; once start-up is over no tick begins in any continuation |
| `PollerSchedule.PollLoop.AfterLoad` | apis/miot-bridge-api/src/services/DevicePropertyPollerService.ts:184-195 | The end of start-up leaves exactly one timer armed if the load succeeded, else none |
| `NotificationSteps.RemovalIsSafeIff` | apis/miot-bridge-api/src/handlers/notifications/NotificationDeleteAllHandler.ts:13-16 | While all is well, a removal leaves the cache within storage, or what is about to be forgotten, in every continuation without further removals, if and only if it does not take away the last record of a pair that a post in progress will announce |
| `NotificationSteps.SafeIffPromisesKept` | apis/miot-bridge-api/src/handlers/notifications/NotificationPostHandler.ts:46-52 | In any state: every such continuation is safe if and only if what posts in progress have stored is still stored |
| `NotificationSteps.HarmlessRunsKeepTheCache` | apis/miot-bridge-api/src/handlers/notifications/NotificationPostHandler.ts:46-52 | In every interleaving of any number of requests whose steps take away no such record, every cached pair is stored or about to be forgotten |
| `NotificationSteps.CacheIsStored` | apis/miot-bridge-api/src/handlers/notifications/NotificationPostHandler.ts:46-52 | And then, whenever no request has anything left to forget, every cached pair is stored |
| `NotificationSteps.CacheCanRunAhead` | apis/miot-bridge-api/src/handlers/notifications/NotificationDeleteAllHandler.ts:13-16 | The run that ends with nothing in progress, nothing stored and a pair cached |
| `NotificationSteps.CacheStep` | apis/miot-bridge-api/src/handlers/notifications/NotificationPostHandler.ts:52 | Of all steps only an announcement, or a file written back, can let the cache run ahead, and exactly when it meets a pair neither stored nor about to be forgotten |
| `NotificationSteps.PromiseStep` | apis/miot-bridge-api/src/handlers/notifications/NotificationDeleteHandler.ts:23-24 | A step breaks what posts in progress rely on exactly if it takes away the last record of such a pair |
| `NotificationSteps.BrokenPromiseIsFatal` | apis/miot-bridge-api/src/handlers/notifications/NotificationPostHandler.ts:46-52 | Once such a record is gone, the requests in progress can finish so that the pair is cached and not stored |
| `NotificationSteps.StepIsCleanIff` | apis/miot-bridge-api/src/handlers/notifications/NotificationDeleteHandler.ts:15-25 | A step keeps cache and storage covering each other, up to what is about to be announced or forgotten, if and only if it is clean |
| `NotificationSteps.CleanRunsStayEqual` | apis/miot-bridge-api/src/services/DevicePropertyPollerService.ts:198-204 | Through any interleaved run of clean steps, from a restart on, cache and storage are equal whenever nothing is in progress |
| `Subscriptions.NotificationHandlers.CachedNowIsStored` | apis/miot-bridge-api/src/handlers/notifications/NotificationPostHandler.ts:46-52 | The same of the objects at any moment: after harmless steps, with nothing left to forget, what the poller has cached is stored |
| `Subscriptions.NotificationHandlers.BeginPost` | apis/miot-bridge-api/src/handlers/notifications/NotificationPostHandler.ts:28-44 | Validation up to the first storage call: unknown device, or a property that is missing or neither readable nor writable, or a post that has stored nothing yet |
| `Subscriptions.NotificationHandlers.StoreNext` | apis/miot-bridge-api/src/handlers/notifications/NotificationPostHandler.ts:47-50 | One storage call of a post: exactly its next property is stored, under a new identifier |
| `Subscriptions.NotificationHandlers.Announce` | apis/miot-bridge-api/src/handlers/notifications/NotificationPostHandler.ts:52 | The end of a post: the poller gains exactly its pairs |
| `Subscriptions.NotificationHandlers.BeginDelete` | apis/miot-bridge-api/src/handlers/notifications/NotificationDeleteHandler.ts:16-22 | The lookup of a deletion: each error case, or the property it is about |
| `Subscriptions.NotificationHandlers.RemoveRecord` | apis/miot-bridge-api/src/handlers/notifications/NotificationDeleteHandler.ts:23 | The storage call of a deletion: exactly that record goes, if it is still there |
| `Subscriptions.NotificationHandlers.RemoveRecords` | apis/miot-bridge-api/src/handlers/notifications/NotificationDeleteAllHandler.ts:14 | The storage call of a deletion of all: exactly the records of the device go |
| `Subscriptions.NotificationHandlers.Forget` | apis/miot-bridge-api/src/handlers/notifications/NotificationDeleteHandler.ts:24 | The end of a deletion: the poller loses exactly the pair the request was about, with the last value |
| `Subscriptions.NotificationHandlers.ForgetAll` | apis/miot-bridge-api/src/handlers/notifications/NotificationDeleteAllHandler.ts:15 | The end of a deletion of all: the poller loses exactly the pairs of the device, with the last values |
| `Subscriptions.NotificationHandlers.StateIsTheRuns` | apis/miot-bridge-api/src/handlers/notifications/NotificationDeleteAllHandler.ts:13-16 | At any moment storage, cache and requests in progress are what the steps so far lead to |
| `Subscriptions.NotificationHandlers.FailRequest` | apis/miot-bridge-api/src/handlers/notifications/NotificationPostHandler.ts:47-50 | A failed storage call ends the request and changes neither storage nor cache |
| `Subscriptions.NotificationHandlers.Post` | apis/miot-bridge-api/src/handlers/notifications/NotificationPostHandler.ts:27-57 | The whole request when nothing interrupts it: nothing is stored unless every property is acceptable; a failed write leaves the earlier ones stored and the cache alone; each error case and the new identifiers |
| `Subscriptions.NotificationHandlers.Delete` | apis/miot-bridge-api/src/handlers/notifications/NotificationDeleteHandler.ts:15-25 | The whole request when nothing interrupts it: unknown, foreign and failed deletions change nothing; otherwise record and cached pair go, and the last value is forgotten |
| `Subscriptions.NotificationHandlers.DeleteAll` | apis/miot-bridge-api/src/handlers/notifications/NotificationDeleteAllHandler.ts:13-16 | The whole request when nothing interrupts it: all or nothing of one device, in storage and cache |
| `Subscriptions.CacheIsStoredOneAtATime` | apis/miot-bridge-api/src/handlers/notifications/NotificationPostHandler.ts:46-52 | When no request interrupts another, the cached pairs are stored at every boundary of every run |
| `Subscriptions.RequestEffect` | apis/miot-bridge-api/src/handlers/notifications/NotificationDeleteHandler.ts:23-24 | A request keeps cache and storage equal if and only if it is clean: no half-failed post of a new pair, no deletion of one of two equal records |
| `Subscriptions.CleanRequestsStayEqual` | apis/miot-bridge-api/src/services/DevicePropertyPollerService.ts:198-204 | When no request interrupts another: after loading into an empty cache, equality lasts through any run of clean requests |
| `Subscriptions.EqualityCanBeLost` | apis/miot-bridge-api/src/handlers/notifications/NotificationPostHandler.ts:46-52 | Two runs that lose it: a pair stored twice, and a write that fails half-way |
| `MiotStamps.RunsKeepOrder` | packages/miot-device/src/MiotDevice.ts:156-222 | Over every run of operations command stamps strictly increase between resynchronisations, at no more than one handshake an operation |
| `MiotStamps.OperationKeepsOrder` | packages/miot-device/src/MiotDevice.ts:156-188 | One operation keeps stamps increasing and the cached stamp the highest of its cycle, whatever the device answers |
| `MiotStamps.OperationCost` | packages/miot-device/src/MiotDevice.ts:136-148 | An operation costs a handshake exactly if the cached stamp does not carry it through, and at most two executions of its body |
| `MiotStamps.BulkReadUsesConsecutiveStamps` | packages/miot-device/src/MiotTransport.ts:191-217 | A bulk read of n >= 1 properties that succeeds, at once or after a handshake, ends in exactly n consecutive command stamps and caches the last; they start one above the cached stamp or, after the handshake, the device's |
| `MiotStamps.NeighboursInOrder` | packages/miot-device/src/MiotDevice.ts:156-188 | Increasing neighbours mean increasing stamps across the whole cycle |
| `MiotStamps.MiotDevice.RunWithStamp` | packages/miot-device/src/MiotDevice.ts:156-188 | The whole new state; success exactly if a stamp is cached afterwards, with the values of the execution that succeeded; the exact error otherwise: the handshake's, or the one that ended the second execution, with its kind, code and method, marked as having survived a refresh |
| `MiotStamps.MiotDevice.RunWithFreshStamp` | packages/miot-device/src/MiotDevice.ts:190-217 | A handshake, then one execution starting one above its stamp; a failure has the kind, code and method of the reply that ended the execution, and a packet that could not be built is a transport error |
| `MiotStamps.MiotDevice.Attempt` | packages/miot-device/src/MiotDevice.ts:174-185 | A body that completes leaves its last stamp cached, one that does not leaves none and fails with the error of the reply that ended it |
| `MiotStamps.MiotDevice.Discover` | packages/miot-device/src/MiotDevice.ts:55-63 | One handshake; identity and stamp are taken from the answer or both left alone |
| `MiotStamps.MiotTransport.RunBulk` | packages/miot-device/src/MiotTransport.ts:191-217 | The packets sent are consecutive stamps up to the first that is not answered, whose reply decides the error; on success all items in order and the last stamp used |
| `MiotStamps.MiotTransport.RunSingle` | packages/miot-device/src/MiotTransport.ts:153-168 | One packet; the exact error by the kind of reply: the envelope's code, the item's code, none for a missing item, a timeout, or a transport error |
| `MiotStamps.ResultsByOperation` | packages/miot-device/src/MiotTransport.ts:153-259 | A read returns the one item, a write or an action nothing, a bulk read all items of all its replies |
| `MiotStamps.ItemsInOrder` | packages/miot-device/src/MiotTransport.ts:206-209 | The items of a run of replies are those of its parts, one after the other |
| `MiotStamps.MiotTransport.SendCommand` | packages/miot-device/src/MiotTransport.ts:261-339 | One command and its outcome by kind of answer; a packet that cannot be built, for its stamp, token, id or payload, fails before anything is sent |
| `MiotStamps.MiotTransport.SayHello` | packages/miot-device/src/MiotTransport.ts:96-148 | One hello and its outcome by kind of answer |
| `MiotSocket.FirstEventSettles` | packages/miot-device/src/MiotTransport.ts:266-338 | In any order of messages, errors and timeout the first decides; the socket is closed exactly once and no timer is left |
| `MiotSocket.SocketExchange.OnMessage` | packages/miot-device/src/MiotTransport.ts:121-134 | The datagram decides if it comes first and is ignored otherwise; the socket has been closed exactly once and no timer is left |
| `MiotSocket.SocketExchange.OnTimeout` | packages/miot-device/src/MiotTransport.ts:114-119 | A timer that still fires is the first event: the exchange times out |
| `MiotSocket.SocketExchange.OnError` | packages/miot-device/src/MiotTransport.ts:136-146 | The same for a socket error or a failed send |
| `MiotPackets.PacketRoundTrip` | packages/miot-device/src/packet/IncomingPacket.ts:82-111 | For every 16-byte token, 32-bit id and stamp and payload of up to 65487 bytes, parsing the built packet passes the checksum and gives all three back |
| `MiotPackets.Transmit` | packages/miot-device/src/packet/IncomingPacket.ts:38-54 | From one packet object to the other: building, sending and receiving fails exactly when token, id, stamp or payload does not fit, and otherwise all arrive, down to the text for the JSON parser |
| `MiotPackets.PacketFitsExactlyUpTo` | packages/miot-device/src/packet/OutgoingPacket.ts:99 | Building succeeds if and only if the payload has at most 65487 bytes |
| `MiotPackets.PacketsAreDistinct` | packages/miot-device/src/packet/OutgoingPacket.ts:85-110 | Different ids, stamps or payloads never share a packet |
| `MiotPackets.CommandPacketLayout` | packages/miot-device/src/packet/OutgoingPacket.ts:85-110 | Every byte of a command packet: magic number, length, zeros, id, stamp, checksum of the first 16 bytes with token and data, and the payload encrypted under the digest of the token and the digest of key and token |
| `MiotPackets.HelloLayout` | packages/miot-device/src/packet/BasePacket.ts:28-35 | A hello header is magic number and 0xFF |
| `MiotPackets.FieldsAreBigEndian` | packages/miot-device/src/packet/BasePacket.ts:64-71 | Both widths of field are big-endian |
| `MiotPackets.ParseRejects` | packages/miot-device/src/packet/IncomingPacket.ts:82-111 | What each kind of message parses to: which error, or which id, stamp and data |
| `MiotPackets.ParseHelloRejects` | packages/miot-device/src/packet/IncomingPacket.ts:65-80 | What each kind of hello response parses to |
| `MiotPackets.HelloRoundTrip` | packages/miot-device/src/packet/IncomingPacket.ts:65-80 | A response carrying id and stamp in the header fields is read back by `parseHello` |
| `MiotPackets.HeaderFields` | packages/miot-device/src/packet/OutgoingPacket.ts:45-58 | Id and stamp land in bytes 8 to 15 and nothing else of the header changes |
| `MiotPackets.U32RoundTrip` | packages/miot-device/src/packet/BasePacket.ts:64-71 | The big-endian fields hold every 32-bit value |
| `MiotPackets.StrippingIsExact` | packages/miot-device/src/packet/IncomingPacket.ts:51-52 | Stripping takes off exactly the null bytes at the end |
| `MiotPackets.StrippingKeepsJson` | packages/miot-device/src/packet/IncomingPacket.ts:52 | So it leaves a text alone if and only if that does not end in a null byte |
| `MiotPackets.IncomingPacket.Json` | packages/miot-device/src/packet/IncomingPacket.ts:47-54 | The text for the JSON parser is the data without its trailing null bytes, and none without data |
| `MiotPackets.IncomingPacket.Create` | packages/miot-device/src/packet/IncomingPacket.ts:38-41 | Every way in which receiving throws, and otherwise a packet whose header and data are what the message says |
| `MiotPackets.BasePacket.constructor` | packages/miot-device/src/packet/BasePacket.ts:28-56 | The header of a hello packet, filled in place, and key and IV of the token |
| `MiotPackets.OutgoingPacket.Create` | packages/miot-device/src/packet/OutgoingPacket.ts:45-67 | Fails exactly for a token of another length or an id or stamp beyond 32 bits; otherwise the header with both fields |
| `MiotPackets.OutgoingPacket.BuildCommandPacket` | packages/miot-device/src/packet/OutgoingPacket.ts:85-110 | The in-place writes give exactly the packet of the specification, and leave id and stamp in the header as they were |
| `MiotPackets.OutgoingPacket.Raw` | packages/miot-device/src/packet/OutgoingPacket.ts:75-83 | The hello packet or the command packet, the same however often it is asked for |
| `MiotPackets.Receive` | packages/miot-device/src/packet/IncomingPacket.ts:82-111 | The in-place parse gives exactly the result of the specification, in each error case too |
| `SpecMerge.OverridesWin` | apis/miot-bridge-api/src/mappers/SimplifiedMiotSpecV2Mapper.ts:30-86 | In whatever order the callbacks finish: every key of the merged spec is decided by the last applicable override and, only without one, by a published property of that key, the one there is if it is published once; its provenance says which |
| `SpecMerge.OrderIsIrrelevantIff` | apis/miot-bridge-api/src/mappers/SimplifiedMiotSpecV2Mapper.ts:30-52 | The finishing order makes no difference to a key if and only if the key is overridden or all its published properties are alike |
| `SpecMerge.PublishedEntriesAre` | apis/miot-bridge-api/src/mappers/SimplifiedMiotSpecV2Mapper.ts:30-50 | The published entries are exactly the properties of the services, under both short names, with the ids of both |
| `SpecMerge.LastOverrideIs` | apis/miot-bridge-api/src/mappers/SimplifiedMiotSpecV2Mapper.ts:69-86 | The override found for a key is the last one whose service exists and names that key, with its own ids, access and values |
| `SpecMerge.FindServiceFindsTheFirst` | apis/miot-bridge-api/src/mappers/SimplifiedMiotSpecV2Mapper.ts:70 | The service of an override is the first with its id |
| `SpecMerge.PublishingOrderIsIrrelevant` | apis/miot-bridge-api/src/mappers/SimplifiedMiotSpecV2Mapper.ts:30-52 | For distinct published keys the merged spec is the same in every order in which the concurrent callbacks finish |
| `SpecMerge.LookupAfterSetting` | apis/miot-bridge-api/src/mappers/SimplifiedMiotSpecV2Mapper.ts:44-77 | A map filled by successive sets holds the last entry of each key |
| `SpecMerge.MapSpec` | apis/miot-bridge-api/src/mappers/SimplifiedMiotSpecV2Mapper.ts:24-94 | In whatever order the concurrent callbacks finish: fails exactly if an action takes an input its service does not have; otherwise the published entries set in that order, overwritten by overrides in theirs |
| `SpecMerge.ApplyOverrides` | apis/miot-bridge-api/src/mappers/SimplifiedMiotSpecV2Mapper.ts:69-86 | Overrides of unknown services are passed over, the others set in order |
| `BulkRead.DeviceCommandService.GetProperties` | apis/miot-bridge-api/src/services/DeviceCommandService.ts:93-156 | Results for exactly the resolved keys in order, each from the first matching item or -1; every unresolved key counted on every call and warned about at most once per device and process; the error cases |
| `BulkRead.DeviceCommandService.ReportUnresolvedProperties` | apis/miot-bridge-api/src/services/DeviceCommandService.ts:175-192 | Counts all, warns about exactly the pairs not warned about before, no pair twice |
| `BulkRead.KeysAreSplit` | apis/miot-bridge-api/src/services/DeviceCommandService.ts:103-110 | Every requested key is read or reported, as often as it was requested |
| `BulkRead.ResolvedKeysAreInTheSpec` | apis/miot-bridge-api/src/services/DeviceCommandService.ts:103-110 | The split is by presence in the merged spec |
| `BulkRead.Collect` | apis/miot-bridge-api/src/services/DeviceCommandService.ts:135-145 | One result per key, in order, from the first matching item |
| `Raster.CreateCitiesImage` | apis/interactive-map-feeder-api/src/v1/services/RasterService.ts:36-59 | A pixel is red if and only if it is within the dot offset, on both axes, of some city's position; all others stay black |
| `Raster.EveryByteOfTheImage` | apis/interactive-map-feeder-api/src/v1/services/RasterService.ts:50-56 | Every byte of the buffer: 255 exactly in the red and alpha bytes of the pixels within the offset of some position on both axes, else 0 |
| `Raster.PaintDot` | apis/interactive-map-feeder-api/src/v1/services/RasterService.ts:46-58 | One dot turns exactly its pixels on the image red and touches no other |
| `Raster.PaintPixel` | apis/interactive-map-feeder-api/src/v1/services/RasterService.ts:51-55 | A write stays in the buffer and in its own pixel's four bytes |
| `Raster.PixelsDoNotOverlap` | apis/interactive-map-feeder-api/src/v1/services/RasterService.ts:51 | Two pixels never share a byte |
| `Raster.PointsOfTheBoxLandOnTheImage` | apis/interactive-map-feeder-api/src/v1/services/RasterService.ts:80-90 | A point of the bounding box lands on the image or on the line just past its right or bottom edge |
| `Raster.PositionsAreProportional` | apis/interactive-map-feeder-api/src/v1/services/RasterService.ts:80-90 | For any point and any box with an extent, x is proportional to the distance from the left edge and y to that from the top edge, within half a pixel: multiplied out |
| `Raster.CornersMapToCorners` | apis/interactive-map-feeder-api/src/v1/services/RasterService.ts:80-90 | The top-left corner of the box is at (0, 0) and the bottom-right one at (width, height) |
| `Raster.PositionsKeepOrder` | apis/interactive-map-feeder-api/src/v1/services/RasterService.ts:80-90 | Further east is never further left and further south never further up, but for what rounding makes of a tie |
| `Raster.CityPixelOffset` | apis/interactive-map-feeder-api/src/v1/services/RasterService.ts:69-78 | A dot is a four-hundredth of the shorter side wide, rounded, and the offset half of that, rounded down |
| `Raster.GetRGBAOnCoordinates` | apis/interactive-map-feeder-api/src/v1/services/RasterService.ts:18-34 | The mean of exactly the clipped window; inside the box and with more than half a pixel around, always a colour with channels in 0..255; a box without extent has no position |
| `Raster.GetPixelsWithRadius` | apis/interactive-map-feeder-api/src/v1/services/RasterService.ts:92-123 | Reads exactly the clipped window, all indices in bounds; refuses other than four channels exactly if there is a pixel to read |
| `Raster.RowMajorOrder` | apis/interactive-map-feeder-api/src/v1/services/RasterService.ts:111-120 | Every pixel of the window is listed exactly once, row j and column i at position j * n + i |
| `Raster.EveryNeighbourIsSampled` | apis/interactive-map-feeder-api/src/v1/services/RasterService.ts:100-120 | Every pixel within the radius on both axes is sampled, with its own four bytes |
| `Raster.WindowIsWithinTheRadius` | apis/interactive-map-feeder-api/src/v1/services/RasterService.ts:100-103 | The window on an axis is exactly what lies on the image within the radius |
| `Raster.AverageIsTheMean` | apis/interactive-map-feeder-api/src/v1/services/RasterService.ts:28-33 | An averaged channel is within one half of the mean: multiplied out |
| `Raster.MeanOfOneColour` | apis/interactive-map-feeder-api/src/v1/services/RasterService.ts:28-33 | A uniform neighbourhood has its own colour, channel by channel |
| `Raster.WindowIsNonEmpty` | apis/interactive-map-feeder-api/src/v1/services/RasterService.ts:100-103 | The window of a point of the box is empty exactly just past the edge with radius 0 |
| `Raster.ColourOfAPointOfTheBox` | apis/interactive-map-feeder-api/src/v1/services/RasterService.ts:18-33 | With a radius of at least one there is something to average, and the averages are channel values |
| `Raster.RadiusOfADistance` | apis/interactive-map-feeder-api/src/v1/services/RasterService.ts:128-138 | The radius is never negative and vanishes only for half a pixel or less |
| `Raster.RadiusIsTheMeanResolution` | apis/interactive-map-feeder-api/src/v1/services/RasterService.ts:132-137 | The radius before rounding is the distance times the mean of the two resolutions: multiplied out |
| `Health.PassesNeverOverlap` | packages/health/src/HealthRegistry.ts:54-70 | A pass ends before the next one starts, at least the cache window before |
| `Health.PassesPerWindow` | packages/health/src/HealthRegistry.ts:54-70 | At most W / ttl + 1 passes start in any window W when ttl > 0 |
| `Health.ResultsAreRecent` | packages/health/src/HealthRegistry.ts:54-70 | Every caller gets a pass completed less than the cache window before its call, or one not completed at its call |
| `Health.SingleFlightInvariant` | packages/health/src/HealthRegistry.ts:54-70 | The inductive invariant of cache and flight: only the last pass can be open, and the cache holds the last completed one |
| `Health.PassCoversEveryCheck` | packages/health/src/HealthRegistry.ts:78-115 | A finished pass has one result per check at the check's own place: its outcome if that came before its timer, else the timeout, or the name of the error it threw or rejected with; bounded details, no timer left |
| `Health.ResultsInPlainWords` | packages/health/src/HealthRegistry.ts:83-115 | A check that threw, or rejected before its timer, fails with the first 120 characters of the error name and no value; one whose timer came first fails with "timeout"; one that answered first keeps status and value, and the first 120 characters of its detail |
| `Health.ReportIsFinal` | packages/health/src/HealthRegistry.ts:63-67 | The results of a finished pass never change, whatever its checks still do |
| `Health.FlightIsNeverStuck` | packages/health/src/HealthRegistry.ts:63-69 | While a pass is in flight, a check has its timer armed or microtasks waiting, or the pass is ready to end |
| `Health.FlightEndsOnceTimersHaveFired` | packages/health/src/HealthRegistry.ts:78-115 | A flight whose timers have all fired ends, fills the cache and frees the flight, even if every check hangs |
| `HealthChecks.FirstSettlementWins` | packages/health/src/HealthRegistry.ts:88-99 | In every order of settlement, timer and microtasks the first of settlement and timer is the result, and once there is a result no timer is left |
| `HealthChecks.DecidedChecksEnd` | packages/health/src/HealthRegistry.ts:83-101 | A check that has settled or whose timer has fired has its result once the microtasks have run |
| `HealthChecks.FiredChecksEnd` | packages/health/src/HealthRegistry.ts:104-115 | From the moment the timer has fired, running what is queued, which is finite, yields the result |
| `HealthChecks.UndecidedChecksHaveATimer` | packages/health/src/HealthRegistry.ts:84-85 | Until a check is decided its timer is armed |
| `HealthChecks.ResultIsFinal` | packages/health/src/HealthRegistry.ts:88-100 | A result never changes, whatever settles or fires late |
| `HealthChecks.CheckInvariant` | packages/health/src/HealthRegistry.ts:83-115 | The inductive invariant of race, queue and timer over every order of events |
| `HealthChecks.CheckRunner.constructor` | packages/health/src/HealthRegistry.ts:83-97 | A check that throws at once has its result and no timer; any other has an armed timer and no result |
| `HealthChecks.CheckRunner.OnTimer` | packages/health/src/HealthRegistry.ts:85 | A timer that still fires finds no result, aborts and lets the deadline resolve |
| `HealthChecks.CheckRunner.RunMicrotask` | packages/health/src/HealthRegistry.ts:88-100 | One microtask less is left to run; a result, once there, is the verdict of the order of events and leaves no timer |
| `Health.HealthRegistry.Evaluate` | packages/health/src/HealthRegistry.ts:54-70 | A call serves what the run says; it starts a pass only when every earlier one has ended, at least the cache window ago |
| `Health.HealthRegistry.OnPassFinished` | packages/health/src/HealthRegistry.ts:63-67 | The end of a pass, always the last one started and possible once all its checks have results, fills the cache with it and frees the flight |
| `DnsClusters.ParseDnsRecords` | ui/homelab-dashboard-ui/src/lib/parseDns.ts:82-105 | With an anchor: non-empty clusters, strictly ascending, name-sorted, each holding exactly its own records and together exactly the shown ones; without: one cluster per subnet, together exactly the enabled, non-excluded address records |
| `DnsClusters.CollectedIsEverything` | ui/homelab-dashboard-ui/src/lib/parseDns.ts:55-77 | Grouping by anchor neither loses nor duplicates a record |
| `DnsClusters.AssignServices` | ui/homelab-dashboard-ui/src/lib/parseDns.ts:42-80 | The map holds exactly the anchors' indexes in ascending order, each with exactly the records whose address or alias target is that anchor's |
| `DnsClusters.HomeInPlainWords` | ui/homelab-dashboard-ui/src/lib/parseDns.ts:50-70 | A record is shown if it is enabled, neither named like an anchor nor excluded, and points at some anchor by address or alias: in the cluster of the last such anchor |
| `DnsClusters.ServiceInPlainWords` | ui/homelab-dashboard-ui/src/lib/parseDns.ts:16-21 | How a record is shown: lower-cased host, its first label as name, and the path of the whole host or, failing that, of that label |
| `DnsClusters.ShownInPlainWords` | ui/homelab-dashboard-ui/src/lib/parseDns.ts:55-77 | Exactly the records that have a home are shown, each in its own cluster |
| `DnsClusters.IpInPlainWords` | ui/homelab-dashboard-ui/src/lib/parseDns.ts:94 | The address of a cluster is that of the last anchor with its index |
| `DnsClusters.FindAnchors` | ui/homelab-dashboard-ui/src/lib/parseDns.ts:24-36 | The anchors are exactly the enabled, matching address records, in order |
| `DnsClusters.ParseAnchored` | ui/homelab-dashboard-ui/src/lib/parseDns.ts:93-104 | The clusters of the anchored case, well filled and complete |
| `DnsClusters.SortingSorts` | ui/homelab-dashboard-ui/src/lib/parseDns.ts:102 | The services of a cluster are in order of name |
| `DnsClusters.FallbackBySubnet` | ui/homelab-dashboard-ui/src/lib/parseDns.ts:107-136 | One cluster per subnet in order of first appearance, numbered from 1, together exactly the shown records |
| `DnsClusters.FallbackInPlainWords` | ui/homelab-dashboard-ui/src/lib/parseDns.ts:116-127 | Without anchors exactly the enabled address records whose names are not excluded are shown |
| `DnsClusters.FallbackCollectsEverything` | ui/homelab-dashboard-ui/src/lib/parseDns.ts:116-127 | Grouping by subnet neither loses nor duplicates a record |

## Left out

- External stamp store, and operations on one device that overlap: the code has no guard there, so `MiotStamps` takes
  one operation at a time and no store.
- What a tick asks a device for: the answer to a read is arbitrary, whatever the properties of the target.
- Configuration that changes while a device is in back-off: `Poller` takes any settings for each read, `PollerBackoff`
  proves its counts for one setting.
- Fields that are only copied into events (`miotDeviceId`, `timestamp`), and trace sampling (`shouldTrace`).
- Telemetry, spans, metrics and log text, except the set of warnings and the counter of unresolved keys.
  `reportRejectedProperties` only reports.
- The order in which JavaScript visits a map, where nothing depends on it: `DueDevices` and `RemoveAllSubscriptions`
  visit in any order.
- A poller that is started twice.
- Circuit breaker and timeout inside an attempt: how an attempt ends is arbitrary.
- The path of `executeWithParentCancellation` without a parent signal, which only calls the work in a microtask.
- `HttpProviderFactory.get` and its memo, the Kubernetes strategy, `resolveTransport`, and putting credentials on a
  request.
- JSON text, and the `id` and parameters inside a command.
- `executeRaw`, `resolveCommand` and validation of values: decisions without state.
- The actions map of a spec beyond the check of its inputs, and names and descriptions.
- A clock that runs backwards in the health cache, and `buildReport`.
- Sampling in a box without extent, beyond naming the case: what comes of positions and radii that are not finite is up
  to the library's arithmetic. Painting then paints nothing, which is modelled.
- When a timer fires: `HealthChecks` has the order of events and not their times.
- PNG encoding, reading and compositing images.
- Accent colours and labels of clusters, and a capture that is not a number.
- ResolvePath: takes the configured paths as a map; the source asks a plain object, where a host or label such as
  `constructor` finds an inherited member.
- Sockets, storage, `jose` and `fetch` themselves.
