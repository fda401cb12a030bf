/**
 The two caching auth strategies, as the objects the factory holds. Each method is one synchronous
 stretch of the source. A strategy remembers, for the proof only, the run it has been through; its
 fields are at all times the state that run leads to, so the theorems of `CredentialProtocol` about
 all runs are theorems about these objects.
 */
module CredentialStrategies {
  import opened Wrappers
  import opened CredentialProtocol

  type Credentials = map<string, string>

  class TokenExchangeStrategy {
    var cachedCredentials: Option<Credentials>
    var inFlightCredentials: Option<nat>  // the promise, named by its fetch
    var inFlightEpoch: Option<nat>
    var cacheEpoch: nat
    var requests: nat                     // token requests issued so far: names the next promise
    ghost var history: seq<Event<Credentials>>

    ghost function World(): World<Credentials>
      reads this
    {
      Exec(history, None)
    }

    ghost predicate Valid()
      reads this
    {
      && World().core == Core(cachedCredentials, None, inFlightCredentials, inFlightEpoch, cacheEpoch)
      && requests == |World().fetches|
    }

    constructor ()
      ensures Valid() && history == []
    {
      cachedCredentials, inFlightCredentials, inFlightEpoch, cacheEpoch := None, None, None, 0;
      requests, history := 0, [];
    }

    /** `now` only dates the call: a token exchange has no clock. */
    method GetCredentials(ghost now: int) returns (answer: Answer<Credentials>)
      requires Valid()
      modifies this
      ensures Valid() && history == old(history) + [Call(now)]
      ensures answer == AnswerTo(history, |old(history)|, None)
      ensures requests == old(requests) + (if answer == FromFetch(old(requests)) then 1 else 0)
    {
      history := history + [Call(now)];
      assert history[..|old(history)|] == old(history);
      if cachedCredentials.Some? {
        return FromCache(cachedCredentials.value);
      }
      if inFlightCredentials.Some? && inFlightEpoch == Some(cacheEpoch) {
        ProtocolInvariant(old(history), None);
        return FromFetch(inFlightCredentials.value);
      }
      var requestEpoch := cacheEpoch;
      inFlightEpoch := Some(requestEpoch);
      inFlightCredentials := Some(requests);
      requests := requests + 1;
      return FromFetch(requests - 1);
    }

    method Invalidate()
      requires Valid()
      modifies this
      ensures Valid() && history == old(history) + [Event.Invalidate]
    {
      history := history + [Event.Invalidate];
      assert history[..|old(history)|] == old(history);
      cacheEpoch := cacheEpoch + 1;
      cachedCredentials := None;
    }

    /** `.then` of the fetch `f`, which was started in `requestEpoch`. */
    method OnFulfilled(f: nat, requestEpoch: nat, credentials: Credentials, ghost now: int) returns (result: Credentials)
      requires Valid() && IsRunning(World(), f) && World().fetches[f].epoch == requestEpoch
      modifies this
      ensures Valid() && history == old(history) + [Fulfil(f, credentials, now)]
      ensures result == credentials
    {
      history := history + [Fulfil(f, credentials, now)];
      assert history[..|old(history)|] == old(history);
      if cacheEpoch == requestEpoch {
        cachedCredentials := Some(credentials);
      }
      return credentials;
    }

    /** The fetch `f` fails: no callback runs yet. */
    ghost method FetchFails(f: nat)
      requires Valid() && IsRunning(World(), f)
      modifies this`history
      ensures Valid() && history == old(history) + [Reject(f)]
    {
      history := history + [Reject(f)];
      assert history[..|old(history)|] == old(history);
    }

    /** `.finally` of the fetch `f`, which was started in `requestEpoch`. */
    method OnSettled(f: nat, requestEpoch: nat)
      requires Valid() && AwaitsSettling(World(), f) && World().fetches[f].epoch == requestEpoch
      modifies this
      ensures Valid() && history == old(history) + [Settle(f)]
    {
      history := history + [Settle(f)];
      assert history[..|old(history)|] == old(history);
      if inFlightEpoch == Some(requestEpoch) {
        inFlightCredentials := None;
        inFlightEpoch := None;
      }
    }
  }

  class JwtSelfSignedStrategy {
    var cachedToken: Option<string>
    var expiresAt: Option<int>
    var inFlightToken: Option<nat>
    var inFlightEpoch: Option<nat>
    var cacheEpoch: nat
    var requests: nat
    const lifetime: int  // claims.exp, in seconds
    ghost var history: seq<Event<string>>

    ghost function World(): World<string>
      reads this
    {
      Exec(history, Some(lifetime))
    }

    /** A signed token is never the empty string, so the source's truthiness test is a presence test. */
    ghost predicate Valid()
      reads this
    {
      && World().core == Core(cachedToken, expiresAt, inFlightToken, inFlightEpoch, cacheEpoch)
      && requests == |World().fetches|
      && cachedToken != Some("")
    }

    constructor (lifetime: int)
      ensures Valid() && history == [] && this.lifetime == lifetime
    {
      this.lifetime := lifetime;
      cachedToken, expiresAt, inFlightToken, inFlightEpoch, cacheEpoch := None, None, None, None, 0;
      requests, history := 0, [];
    }

    method GetCredentials(nowSeconds: int) returns (answer: Answer<string>)
      requires Valid()
      modifies this
      ensures Valid() && history == old(history) + [Call(nowSeconds)]
      ensures answer == AnswerTo(history, |old(history)|, Some(lifetime))
      ensures requests == old(requests) + (if answer == FromFetch(old(requests)) then 1 else 0)
    {
      history := history + [Call(nowSeconds)];
      assert history[..|old(history)|] == old(history);
      var isExpired := expiresAt.Some? && nowSeconds >= expiresAt.value - EXPIRY_BUFFER_SECONDS;
      if cachedToken.Some? && cachedToken.value != "" && !isExpired {
        return FromCache(cachedToken.value);
      }
      if inFlightToken.Some? && inFlightEpoch == Some(cacheEpoch) {
        ProtocolInvariant(old(history), Some(lifetime));
        return FromFetch(inFlightToken.value);
      }
      var requestEpoch := cacheEpoch;
      inFlightEpoch := Some(requestEpoch);
      inFlightToken := Some(requests);
      requests := requests + 1;
      return FromFetch(requests - 1);
    }

    method Invalidate()
      requires Valid()
      modifies this
      ensures Valid() && history == old(history) + [Event.Invalidate]
    {
      history := history + [Event.Invalidate];
      assert history[..|old(history)|] == old(history);
      cacheEpoch := cacheEpoch + 1;
      cachedToken := None;
      expiresAt := None;
    }

    method OnFulfilled(f: nat, requestEpoch: nat, token: string, nowSeconds: int) returns (result: string)
      requires Valid() && token != "" && IsRunning(World(), f) && World().fetches[f].epoch == requestEpoch
      modifies this
      ensures Valid() && history == old(history) + [Fulfil(f, token, nowSeconds)]
      ensures result == token
    {
      history := history + [Fulfil(f, token, nowSeconds)];
      assert history[..|old(history)|] == old(history);
      if cacheEpoch == requestEpoch {
        cachedToken := Some(token);
        expiresAt := Some(nowSeconds + lifetime);
      }
      return token;
    }

    ghost method FetchFails(f: nat)
      requires Valid() && IsRunning(World(), f)
      modifies this`history
      ensures Valid() && history == old(history) + [Reject(f)]
    {
      history := history + [Reject(f)];
      assert history[..|old(history)|] == old(history);
    }

    method OnSettled(f: nat, requestEpoch: nat)
      requires Valid() && AwaitsSettling(World(), f) && World().fetches[f].epoch == requestEpoch
      modifies this
      ensures Valid() && history == old(history) + [Settle(f)]
    {
      history := history + [Settle(f)];
      assert history[..|old(history)|] == old(history);
      if inFlightEpoch == Some(requestEpoch) {
        inFlightToken := None;
        inFlightEpoch := None;
      }
    }
  }
}
