/**
 The notification handlers (apis/miot-bridge-api/src/handlers/notifications/) as an object: each changes the
 stored subscriptions and then the poller's cache of them, one method for every stretch between two awaits.
 Then whole requests that nothing interrupts. Storage writes may fail; a failed write changes nothing.
 Nothing in storage keeps a pair from being stored twice.
 */
module Subscriptions {
  import opened Wrappers
  import opened PollerEvents
  import opened Poller
  import Steps = NotificationSteps

  datatype HttpError = NotFound | Forbidden | BadRequest | StorageFailed

  datatype Access = Access(read: bool, write: bool)

  /** Stored records by id, the next unused id, and the pairs the poller has cached. */
  datatype Books = Books(stored: map<nat, Steps.Pair>, nextId: nat, cached: set<Steps.Pair>)

  function Pairs(stored: map<nat, Steps.Pair>): set<Steps.Pair> {
    stored.Values
  }

  predicate Subscribable(spec: map<string, Access>, property: string) {
    property in spec && (spec[property].read || spec[property].write)
  }

  /** The records after storing `properties` one by one under new ids. */
  function Stored(stored: map<nat, Steps.Pair>, nextId: nat, d: DeviceId, properties: seq<string>): map<nat, Steps.Pair> {
    if properties == [] then stored
    else
      var n := |properties| - 1;
      Stored(stored, nextId, d, properties[..n])[nextId + n := (d, properties[n])]
  }

  function WithoutDevice(stored: map<nat, Steps.Pair>, d: DeviceId): map<nat, Steps.Pair> {
    map id | id in stored && stored[id].0 != d :: stored[id]
  }

  class NotificationStorage {
    var records: map<nat, Steps.Pair>
    var nextId: nat
    ghost var created: map<nat, Steps.Pair>  // every record there ever was

    ghost predicate Valid()
      reads this
    {
      && (forall id :: id in created ==> id < nextId)
      && (forall id :: id in records ==> id in created && records[id] == created[id])
    }

    constructor ()
      ensures Valid() && records == map[] && created == map[] && nextId == 0
    {
      records, created, nextId := map[], map[], 0;
    }

    method Create(d: DeviceId, property: string, succeeds: bool) returns (id: Option<nat>)
      requires Valid()
      modifies this
      ensures Valid()
      ensures if succeeds then id == Some(old(nextId)) && nextId == old(nextId) + 1
                               && records == old(records)[old(nextId) := (d, property)]
                               && created == old(created)[old(nextId) := (d, property)]
              else id == None && unchanged(this)
    {
      if !succeeds {
        return None;
      }
      records := records[nextId := (d, property)];
      created := created[nextId := (d, property)];
      nextId := nextId + 1;
      return Some(nextId - 1);
    }
  }

  class NotificationHandlers {
    const storage: NotificationStorage
    const poller: DevicePropertyPoller
    var handlers: map<nat, Steps.Progress>  // the requests in progress, as far as they have come
    ghost const initial: Steps.System
    ghost var events: seq<Steps.Event>
    ghost var trail: seq<Steps.System>  // the states these have led through

    ghost function System(): Steps.System
      reads this, storage, poller
    {
      Steps.System(storage.created, storage.records.Keys, poller.Pairs(), handlers)
    }

    /** The objects are at all times what the steps so far lead to. */
    ghost predicate Valid()
      reads this, storage, poller
    {
      storage.Valid() && poller.Valid() && Steps.Trail(initial, events, trail) && System() == trail[|events|]
    }

    constructor (storage: NotificationStorage, poller: DevicePropertyPoller)
      requires storage.Valid() && poller.Valid()
      ensures Valid() && this.storage == storage && this.poller == poller && handlers == map[] && events == []
      ensures initial == Steps.System(storage.created, storage.records.Keys, poller.Pairs(), map[])
    {
      this.storage, this.poller, handlers, events := storage, poller, map[], [];
      initial := Steps.System(storage.created, storage.records.Keys, poller.Pairs(), map[]);
      trail := [Steps.System(storage.created, storage.records.Keys, poller.Pairs(), map[])];
    }

    lemma StateIsTheRuns()
      requires Valid()
      ensures System() == Steps.Exec(initial, events)
    {
      Steps.TrailEndsWithTheRun(initial, events, trail);
    }

    ghost function State(): Books
      reads this, storage, poller
    {
      Books(storage.records, storage.nextId, poller.Pairs())
    }

    // ---------- from one await to the next ----------

    /** A step that moves requests on and nothing else. */
    method Advance(ghost e: Steps.Event, next: map<nat, Steps.Progress>)
      requires Valid() && Steps.Step(System(), e) == System().(handlers := next)
      modifies this`handlers, this`events, this`trail
      ensures Valid() && handlers == next && events == old(events) + [e]
    {
      ghost var reached := Steps.Step(System(), e);
      Steps.TrailGrows(initial, events, trail, e);
      handlers, events, trail := next, events + [e], trail + [reached];
    }

    /** Validation of a post: nothing is stored unless every property is acceptable. `spec` is None for an unknown device. */
    method BeginPost(h: nat, d: DeviceId, spec: Option<map<string, Access>>, properties: seq<string>)
        returns (r: Result<(), HttpError>)
      requires Valid() && h !in handlers
      modifies this`handlers, this`events, this`trail
      ensures Valid()
      ensures r == if spec.None? then Failure(NotFound)
                   else if !Accepted(spec, properties) then Failure(BadRequest) else Success(())
      ensures r == Failure(BadRequest) <==>
                && spec.Some?
                && exists p :: p in properties && (p !in spec.value || (!spec.value[p].read && !spec.value[p].write))
      ensures if r.Success? then handlers == old(handlers)[h := Steps.Posting(d, [], properties)]
                                 && events == old(events) + [Steps.StartPost(h, d, properties)]
              else handlers == old(handlers) && events == old(events)
    {
      if spec.None? {
        return Failure(NotFound);
      }
      for i := 0 to |properties|
        invariant forall p :: p in properties[..i] ==> Subscribable(spec.value, p)
      {
        assert properties[i] in properties;
        if properties[i] !in spec.value {
          return Failure(BadRequest);
        }
        var access := spec.value[properties[i]];
        if !access.read && !access.write {
          return Failure(BadRequest);
        }
      }
      assert properties[..|properties|] == properties;
      Advance(Steps.StartPost(h, d, properties), handlers[h := Steps.Posting(d, [], properties)]);
      return Success(());
    }

    /** A storage call fails: the request is over, and what it has stored stays. */
    method FailRequest(h: nat)
      requires Valid() && h in handlers && Steps.CanFail(handlers[h])
      modifies this`handlers, this`events, this`trail
      ensures Valid() && events == old(events) + [Steps.Fails(h)]
      ensures handlers == old(handlers) - {h}
    {
      Advance(Steps.Fails(h), handlers - {h});
    }

    /** One successful `create` of a post. */
    method StoreNext(h: nat) returns (id: nat)
      requires Valid() && h in handlers && handlers[h].Posting? && handlers[h].rest != []
      modifies this`handlers, this`events, this`trail, storage
      ensures Valid() && events == old(events) + [Steps.Stores(h, old(storage.nextId))]
      ensures id == old(storage.nextId) && storage.nextId == id + 1
      ensures var g := old(handlers[h]);
              && storage.records == old(storage.records)[id := (g.device, g.rest[0])]
              && handlers == old(handlers)[h := Steps.Posting(g.device, g.done + [g.rest[0]], g.rest[1..])]
    {
      var g := handlers[h];
      ghost var reached := Steps.Step(System(), Steps.Stores(h, storage.nextId));
      Steps.TrailGrows(initial, events, trail, Steps.Stores(h, storage.nextId));
      var created := storage.Create(g.device, g.rest[0], true);
      id := created.value;
      handlers := handlers[h := Steps.Posting(g.device, g.done + [g.rest[0]], g.rest[1..])];
      events, trail := events + [Steps.Stores(h, id)], trail + [reached];
    }

    /** The end of a post: everything is stored, now the poller is told. */
    method Announce(h: nat)
      requires Valid() && h in handlers && handlers[h].Posting? && handlers[h].rest == []
      modifies this`handlers, this`events, this`trail, poller`subscriptions
      ensures Valid() && events == old(events) + [Steps.Announces(h)]
      ensures poller.Pairs() == old(poller.Pairs()) + Steps.PairsFor(old(handlers[h].device), old(handlers[h].done))
      ensures handlers == old(handlers) - {h}
    {
      ghost var reached := Steps.Step(System(), Steps.Announces(h));
      Steps.TrailGrows(initial, events, trail, Steps.Announces(h));
      poller.AddSubscriptions(handlers[h].device, handlers[h].done);
      assert poller.Pairs() == reached.cached;
      handlers := handlers - {h};
      events, trail := events + [Steps.Announces(h)], trail + [reached];
    }

    /** The lookup of a deletion. */
    method BeginDelete(h: nat, d: DeviceId, id: nat) returns (r: Result<(), HttpError>)
      requires Valid() && h !in handlers
      modifies this`handlers, this`events, this`trail
      ensures Valid() && events == old(events) + [Steps.LookUp(h, d, id)]
      ensures r == if id !in storage.records then Failure(NotFound)
                   else if storage.records[id].0 != d then Failure(Forbidden) else Success(())
      ensures handlers == if r.Success? then old(handlers)[h := Steps.Deleting(d, id, storage.records[id].1)] else old(handlers)
    {
      if id !in storage.records {
        Advance(Steps.LookUp(h, d, id), handlers);
        return Failure(NotFound);
      }
      var (owner, property) := storage.records[id];
      if owner != d {
        Advance(Steps.LookUp(h, d, id), handlers);
        return Failure(Forbidden);
      }
      Advance(Steps.LookUp(h, d, id), handlers[h := Steps.Deleting(d, id, property)]);
      return Success(());
    }

    method BeginDeleteAll(h: nat, d: DeviceId)
      requires Valid() && h !in handlers
      modifies this`handlers, this`events, this`trail
      ensures Valid() && events == old(events) + [Steps.StartDeleteAll(h, d)]
      ensures handlers == old(handlers)[h := Steps.DeletingAll(d)]
    {
      Advance(Steps.StartDeleteAll(h, d), handlers[h := Steps.DeletingAll(d)]);
    }

    /** The storage call of a deletion; a record that is gone already is no failure. */
    method RemoveRecord(h: nat)
      requires Valid() && h in handlers && handlers[h].Deleting?
      modifies this`handlers, this`events, this`trail, storage`records
      ensures Valid() && events == old(events) + [Steps.Removes(h)]
      ensures var g := old(handlers[h]);
              && storage.records == old(storage.records) - {g.id}
              && handlers == old(handlers)[h := Steps.Forgetting(g.device, g.property)]
    {
      var g := handlers[h];
      ghost var reached := Steps.Step(System(), Steps.Removes(h));
      Steps.TrailGrows(initial, events, trail, Steps.Removes(h));
      OneRemoved(storage.created, storage.records, poller.Pairs(), handlers, h);
      storage.records := storage.records - {g.id};
      handlers := handlers[h := Steps.Forgetting(g.device, g.property)];
      events, trail := events + [Steps.Removes(h)], trail + [reached];
    }

    /** The storage call of a deletion of everything a device has. */
    method RemoveRecords(h: nat)
      requires Valid() && h in handlers && handlers[h].DeletingAll?
      modifies this`handlers, this`events, this`trail, storage`records
      ensures Valid() && events == old(events) + [Steps.Removes(h)]
      ensures var d := old(handlers[h]).device;
              && storage.records == WithoutDevice(old(storage.records), d)
              && handlers == old(handlers)[h := Steps.ForgettingAll(d)]
    {
      var d := handlers[h].device;
      ghost var reached := Steps.Step(System(), Steps.Removes(h));
      Steps.TrailGrows(initial, events, trail, Steps.Removes(h));
      AllRemoved(storage.created, storage.records, poller.Pairs(), handlers, h);
      storage.records := WithoutDevice(storage.records, d);
      handlers := handlers[h := Steps.ForgettingAll(d)];
      events, trail := events + [Steps.Removes(h)], trail + [reached];
    }

    /** The end of a deletion: now the poller forgets. */
    method Forget(h: nat)
      requires Valid() && h in handlers && handlers[h].Forgetting?
      modifies this`handlers, this`events, this`trail, poller`subscriptions, poller`lastValues, poller`items
      ensures Valid() && events == old(events) + [Steps.Forgets(h)]
      ensures handlers == old(handlers) - {h}
      ensures var g := old(handlers[h]);
              && poller.Pairs() == old(poller.Pairs()) - {(g.device, g.property)}
              && poller.items == old(poller.items) + [PollerEvents.Forget(g.device, g.property)]
    {
      ghost var reached := Steps.Step(System(), Steps.Forgets(h));
      Steps.TrailGrows(initial, events, trail, Steps.Forgets(h));
      poller.RemoveSubscription(handlers[h].device, handlers[h].property);
      handlers := handlers - {h};
      events, trail := events + [Steps.Forgets(h)], trail + [reached];
    }

    /** The end of a deletion of everything a device has. */
    method ForgetAll(h: nat)
      requires Valid() && h in handlers && handlers[h].ForgettingAll?
      modifies this`handlers, this`events, this`trail, poller`subscriptions, poller`lastValues, poller`items
      ensures Valid() && events == old(events) + [Steps.Forgets(h)]
      ensures handlers == old(handlers) - {h}
      ensures var d := old(handlers[h]).device;
              && poller.Pairs() == (set pair | pair in old(poller.Pairs()) && pair.0 != d)
              && poller.items == old(poller.items) + [PollerEvents.ForgetAll(d)]
    {
      ghost var reached := Steps.Step(System(), Steps.Forgets(h));
      Steps.TrailGrows(initial, events, trail, Steps.Forgets(h));
      poller.RemoveAllSubscriptions(handlers[h].device);
      handlers := handlers - {h};
      events, trail := events + [Steps.Forgets(h)], trail + [reached];
    }

    /** At any moment after harmless steps with nothing left to forget: what the poller has cached is stored. */
    lemma CachedNowIsStored()
      requires Valid() && Steps.RecordsInv(initial) && Steps.CacheInv(initial) && Steps.PromiseInv(initial)
      requires forall k :: 0 <= k < |events| ==> Steps.Harmless(Steps.Exec(initial, events[..k]), events[k])
      requires forall h :: h in handlers ==> !handlers[h].Forgetting? && !handlers[h].ForgettingAll?
      ensures poller.Pairs() <= storage.records.Values
    {
      StateIsTheRuns();
      Steps.CacheIsStored(initial, events);
      forall p | p in Steps.Pairs(System()) ensures p in storage.records.Values {
        var id :| id in storage.records && id in storage.created && storage.created[id] == p;
        assert storage.records[id] == p;
      }
    }

    // ---------- whole requests, uninterrupted ----------

    /** `NotificationPostHandler.execute`; the first `writes` storage writes succeed. */
    method Post(h: nat, d: DeviceId, spec: Option<map<string, Access>>, properties: seq<string>, writes: nat)
        returns (r: Result<seq<nat>, HttpError>)
      requires Valid() && h !in handlers
      modifies this`handlers, this`events, this`trail, storage, poller`subscriptions
      ensures Valid() && handlers == old(handlers)
      ensures State() == AfterPost(old(State()), d, Accepted(spec, properties), properties, writes)
      ensures r.Success? <==> Accepted(spec, properties) && writes >= |properties|
      ensures r.Failure? ==> r.error == if spec.None? then NotFound
                                        else if !Accepted(spec, properties) then BadRequest else StorageFailed
      ensures r.Success? ==> r.value == seq(|properties|, i => old(storage.nextId) + i)
    {
      var begun := BeginPost(h, d, spec, properties);
      if begun.Failure? {
        return Failure(begun.error);
      }
      ghost var begunAt := handlers;
      assert begunAt == old(handlers)[h := Steps.Posting(d, [], properties)];
      var stored, created := StoreAll(h, d, properties, writes);
      assert stored ==> handlers == old(handlers)[h := Steps.Posting(d, properties, [])];
      if !stored {
        RequestOver(old(handlers), h, Steps.Posting(d, [], properties));
        return Failure(StorageFailed);
      }
      Announce(h);
      RequestOver(old(handlers), h, Steps.Posting(d, properties, []));
      return Success(created);
    }

    /** All the `create`s of a post, up to the one that fails. */
    method StoreAll(h: nat, d: DeviceId, properties: seq<string>, writes: nat) returns (stored: bool, created: seq<nat>)
      requires Valid() && h in handlers && handlers[h] == Steps.Posting(d, [], properties)
      modifies this`handlers, this`events, this`trail, storage
      ensures Valid() && stored == (writes >= |properties|)
      ensures var kept := if stored then properties else properties[..writes];
              && storage.nextId == old(storage.nextId) + |kept|
              && storage.records == Stored(old(storage.records), old(storage.nextId), d, kept)
      ensures handlers == if stored then old(handlers)[h := Steps.Posting(d, properties, [])] else old(handlers) - {h}
      ensures stored ==> created == seq(|properties|, i => old(storage.nextId) + i)
    {
      created := [];
      for i := 0 to |properties|
        invariant Valid() && i <= writes
        invariant created == seq(i, k => old(storage.nextId) + k)
        invariant storage.nextId == old(storage.nextId) + i
        invariant storage.records == Stored(old(storage.records), old(storage.nextId), d, properties[..i])
        invariant handlers == old(handlers)[h := Steps.Posting(d, properties[..i], properties[i..])]
      {
        if i >= writes {
          FailRequest(h);
          return false, created;
        }
        RestOfPost(properties, i);
        var id := StoreNext(h);
        created := created + [id];
      }
      assert properties[..|properties|] == properties && properties[|properties|..] == [];
      return true, created;
    }

    /** `NotificationDeleteHandler.execute`. */
    method Delete(h: nat, d: DeviceId, id: nat, succeeds: bool) returns (r: Result<(), HttpError>)
      requires Valid() && h !in handlers
      modifies this`handlers, this`events, this`trail, storage, poller`subscriptions, poller`lastValues, poller`items
      ensures Valid() && handlers == old(handlers)
      ensures State() == AfterDelete(old(State()), d, id, succeeds)
      ensures r == if id !in old(storage.records) then Failure(NotFound)
                   else if old(storage.records)[id].0 != d then Failure(Forbidden)
                   else if !succeeds then Failure(StorageFailed) else Success(())
      ensures poller.items == old(poller.items) +
                if r.Success? then [PollerEvents.Forget(d, old(storage.records)[id].1)] else []
    {
      r := BeginDelete(h, d, id);
      if r.Failure? {
        return;
      }
      if !succeeds {
        FailRequest(h);
        return Failure(StorageFailed);
      }
      RemoveRecord(h);
      Forget(h);
      assert handlers == old(handlers);
    }

    /** `NotificationDeleteAllHandler.execute`. */
    method DeleteAll(h: nat, d: DeviceId, succeeds: bool) returns (r: Result<(), HttpError>)
      requires Valid() && h !in handlers
      modifies this`handlers, this`events, this`trail, storage, poller`subscriptions, poller`lastValues, poller`items
      ensures Valid() && handlers == old(handlers)
      ensures State() == AfterDeleteAll(old(State()), d, succeeds)
      ensures r.Success? <==> succeeds
      ensures poller.items == old(poller.items) + if succeeds then [PollerEvents.ForgetAll(d)] else []
    {
      BeginDeleteAll(h, d);
      if !succeeds {
        FailRequest(h);
        return Failure(StorageFailed);
      }
      RemoveRecords(h);
      ForgetAll(h);
      assert handlers == old(handlers);
      return Success(());
    }
  }

  /** What a removal does to the records is what the step does to their ids. */
  lemma OneRemoved(created: map<nat, Steps.Pair>, records: map<nat, Steps.Pair>, cached: set<Steps.Pair>, handlers: map<nat, Steps.Progress>, h: nat)
    requires h in handlers && handlers[h].Deleting?
    ensures Steps.Step(Steps.System(created, records.Keys, cached, handlers), Steps.Removes(h))
         == Steps.System(created, (records - {handlers[h].id}).Keys, cached,
                         handlers[h := Steps.Forgetting(handlers[h].device, handlers[h].property)])
  {
    assert (records - {handlers[h].id}).Keys == records.Keys - {handlers[h].id};
  }

  lemma AllRemoved(created: map<nat, Steps.Pair>, records: map<nat, Steps.Pair>, cached: set<Steps.Pair>, handlers: map<nat, Steps.Progress>, h: nat)
    requires h in handlers && handlers[h].DeletingAll?
    requires forall id :: id in records ==> id in created && records[id] == created[id]
    ensures Steps.Step(Steps.System(created, records.Keys, cached, handlers), Steps.Removes(h))
         == Steps.System(created, WithoutDevice(records, handlers[h].device).Keys, cached,
                         handlers[h := Steps.ForgettingAll(handlers[h].device)])
  {
    var d := handlers[h].device;
    assert WithoutDevice(records, d).Keys == set id | id in records.Keys && id in created && created[id].0 != d;
  }

  /** A request that has come and gone leaves the others as they were. */
  lemma RequestOver(handlers: map<nat, Steps.Progress>, h: nat, g: Steps.Progress)
    requires h !in handlers
    ensures handlers[h := g] - {h} == handlers
  {
  }

  lemma RestOfPost(properties: seq<string>, i: nat)
    requires i < |properties|
    ensures properties[..i + 1][..i] == properties[..i]
    ensures properties[i..][0] == properties[i] && properties[i..][1..] == properties[i + 1..]
    ensures properties[..i] + [properties[i]] == properties[..i + 1]
  {
  }

  predicate Accepted(spec: Option<map<string, Access>>, properties: seq<string>) {
    spec.Some? && forall p :: p in properties ==> Subscribable(spec.value, p)
  }

  function AfterPost(b: Books, d: DeviceId, accepted: bool, properties: seq<string>, writes: nat): Books {
    if !accepted then b
    else
      var kept := if writes < |properties| then properties[..writes] else properties;
      b.(stored := Stored(b.stored, b.nextId, d, kept), nextId := b.nextId + |kept|,
         cached := if writes < |properties| then b.cached else b.cached + Steps.PairsFor(d, properties))
  }

  function AfterDelete(b: Books, d: DeviceId, id: nat, succeeds: bool): Books {
    if id !in b.stored || b.stored[id].0 != d || !succeeds then b
    else b.(stored := b.stored - {id}, cached := b.cached - {b.stored[id]})
  }

  function AfterDeleteAll(b: Books, d: DeviceId, succeeds: bool): Books {
    if !succeeds then b
    else b.(stored := WithoutDevice(b.stored, d), cached := set pair | pair in b.cached && pair.0 != d)
  }

  // ---------- runs ----------

  datatype Request =
    | PostRequest(device: DeviceId, accepted: bool, properties: seq<string>, writes: nat)
    | DeleteRequest(device: DeviceId, id: nat, succeeds: bool)
    | DeleteAllRequest(device: DeviceId, succeeds: bool)
    | Restart  // a new process: empty cache, then `loadSubscriptions`

  function Handle(b: Books, r: Request): Books {
    match r
    case PostRequest(d, accepted, properties, writes) => AfterPost(b, d, accepted, properties, writes)
    case DeleteRequest(d, id, succeeds) => AfterDelete(b, d, id, succeeds)
    case DeleteAllRequest(d, succeeds) => AfterDeleteAll(b, d, succeeds)
    case Restart => b.(cached := Pairs(b.stored))
  }

  function HandleAll(b: Books, requests: seq<Request>): Books {
    if requests == [] then b
    else Handle(HandleAll(b, requests[..|requests| - 1]), requests[|requests| - 1])
  }

  ghost predicate Consistent(b: Books) {
    && (forall id :: id in b.stored ==> id < b.nextId)
    && b.cached <= Pairs(b.stored)
  }

  /** The requests that leave cache and storage equal, told from the request and the state before it. */
  predicate Clean(b: Books, r: Request) {
    match r
    case PostRequest(d, accepted, properties, writes) =>
      // everything stored is announced to the poller, or was cached already
      accepted && writes < |properties| ==> Steps.PairsFor(d, properties[..writes]) <= b.cached
    case DeleteRequest(d, id, succeeds) =>
      // no second record of the same pair stays behind
      id in b.stored && b.stored[id].0 == d && succeeds ==>
        forall twin :: twin in b.stored && twin != id ==> b.stored[twin] != b.stored[id]
    case DeleteAllRequest(_, _) => true
    case Restart => true
  }

  lemma {:induction false} StoredPairs(stored: map<nat, Steps.Pair>, nextId: nat, d: DeviceId, properties: seq<string>)
    requires forall id :: id in stored ==> id < nextId
    ensures var after := Stored(stored, nextId, d, properties);
            && (forall id :: id in after ==> id < nextId + |properties|)
            && Pairs(after) == Pairs(stored) + Steps.PairsFor(d, properties)
  {
    if properties != [] {
      var n := |properties| - 1;
      var before := Stored(stored, nextId, d, properties[..n]);
      StoredPairs(stored, nextId, d, properties[..n]);
      NewRecord(before, nextId + n, (d, properties[n]));
      assert properties == properties[..n] + [properties[n]];
    }
  }

  lemma NewRecord(stored: map<nat, Steps.Pair>, id: nat, pair: Steps.Pair)
    requires id !in stored
    ensures Pairs(stored[id := pair]) == Pairs(stored) + {pair}
  {
    var after := stored[id := pair];
    assert after[id] == pair;
    forall p | p in Pairs(stored) ensures p in Pairs(after) {
      var k :| k in stored && stored[k] == p;
      assert after[k] == p;
    }
  }

  lemma RecordGone(stored: map<nat, Steps.Pair>, id: nat)
    requires id in stored
    ensures forall p :: p != stored[id] ==> (p in Pairs(stored - {id}) <==> p in Pairs(stored))
    ensures stored[id] in Pairs(stored - {id}) <==> exists twin :: twin in stored && twin != id && stored[twin] == stored[id]
  {
    var after := stored - {id};
    forall k | k in after ensures after[k] == stored[k] {
    }
    forall p | p != stored[id] && p in Pairs(stored) ensures p in Pairs(after) {
      var k :| k in stored && stored[k] == p;
      assert after[k] == p;
    }
    forall twin | twin in stored && twin != id && stored[twin] == stored[id] ensures stored[id] in Pairs(after) {
      assert after[twin] == stored[id];
    }
  }

  lemma DeviceGone(stored: map<nat, Steps.Pair>, d: DeviceId)
    ensures Pairs(WithoutDevice(stored, d)) == set pair | pair in Pairs(stored) && pair.0 != d
  {
    var after := WithoutDevice(stored, d);
    forall pair | pair in Pairs(stored) && pair.0 != d ensures pair in Pairs(after) {
      var k :| k in stored && stored[k] == pair;
      assert after[k] == pair;
    }
  }

  /** One request: the cache never runs ahead of storage, and stays equal to it exactly when the request is clean. */
  lemma RequestEffect(b: Books, r: Request)
    requires Consistent(b)
    ensures Consistent(Handle(b, r))
    ensures b.cached == Pairs(b.stored) ==> (Handle(b, r).cached == Pairs(Handle(b, r).stored) <==> Clean(b, r))
  {
    match r
    case PostRequest(d, accepted, properties, writes) =>
      var kept := if writes < |properties| then properties[..writes] else properties;
      StoredPairs(b.stored, b.nextId, d, kept);
    case DeleteRequest(d, id, succeeds) =>
      if id in b.stored { RecordGone(b.stored, id); }
    case DeleteAllRequest(d, succeeds) =>
      DeviceGone(b.stored, d);
    case Restart =>
  }

  /** When no request interrupts another: at every boundary what the poller has cached is stored. */
  lemma {:induction false} CacheIsStoredOneAtATime(b: Books, requests: seq<Request>)
    requires Consistent(b)
    ensures Consistent(HandleAll(b, requests))
  {
    if requests != [] {
      CacheIsStoredOneAtATime(b, requests[..|requests| - 1]);
      RequestEffect(HandleAll(b, requests[..|requests| - 1]), requests[|requests| - 1]);
    }
  }

  /** And after hydration, cache and storage stay equal through any run of clean requests; a restart makes them equal again. */
  lemma {:induction false} CleanRequestsStayEqual(b: Books, requests: seq<Request>, since: nat)
    requires Consistent(b) && since <= |requests|
    requires since == 0 ==> b.cached == Pairs(b.stored)
    requires since > 0 ==> requests[since - 1].Restart?
    requires forall k :: since <= k < |requests| ==> Clean(HandleAll(b, requests[..k]), requests[k])
    ensures HandleAll(b, requests).cached == Pairs(HandleAll(b, requests).stored)
  {
    var n := |requests| - 1;
    if since <= n {
      forall k | since <= k < n ensures Clean(HandleAll(b, requests[..n][..k]), requests[..n][k]) {
        assert requests[..n][..k] == requests[..k];
      }
      CleanRequestsStayEqual(b, requests[..n], since);
      CacheIsStoredOneAtATime(b, requests[..n]);
      RequestEffect(HandleAll(b, requests[..n]), requests[n]);
    }
  }

  /** Why each guard of `Clean` is there: a pair stored twice, and a write failing half-way. */
  lemma EqualityCanBeLost(d: DeviceId)
    ensures var twice := HandleAll(Books(map[], 0, {}), [PostRequest(d, true, ["p", "p"], 2), DeleteRequest(d, 0, true)]);
            (d, "p") in Pairs(twice.stored) && twice.cached == {}
    ensures var halfway := Handle(Books(map[], 0, {}), PostRequest(d, true, ["p", "q"], 1));
            (d, "p") in Pairs(halfway.stored) && halfway.cached == {}
  {
    var post, delete := PostRequest(d, true, ["p", "p"], 2), DeleteRequest(d, 0, true);
    var start := Books(map[], 0, {});
    assert [post, delete][..1] == [post] && [post][..0] == [];
    assert ["p", "p"][..1] == ["p"] && ["p"][..0] == [];
    assert Stored(map[], 0, d, ["p"]) == map[0 := (d, "p")];
    assert Stored(map[], 0, d, ["p", "p"]) == map[0 := (d, "p"), 1 := (d, "p")];
    var posted := Handle(start, post);
    assert HandleAll(start, [post]) == posted;
    var after := Handle(posted, delete);
    assert after.stored[1] == (d, "p");
    assert ["p", "q"][..1] == ["p"];
    var halfway := Handle(start, PostRequest(d, true, ["p", "q"], 1));
    assert halfway.stored[0] == (d, "p");
  }
}
