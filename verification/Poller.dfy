/**
 The poller object itself
 (apis/miot-bridge-api/src/services/DevicePropertyPollerService.ts): its four maps, and the tick that
 works through the devices due. A device's read is given from outside: it fails, or yields one result
 per property; and while it is under way subscriptions come and go. JavaScript maps are visited in
 insertion order; here the order is arbitrary.
 */
module Poller {
  import opened Wrappers
  import opened PollerBackoff
  import opened PollerEvents

  datatype PropertyResult = PropertyResult(key: string, value: Reading, code: int)

  datatype ReadResult = ReadFailed | ReadOk(results: seq<PropertyResult>)

  /** `enabled` is what the configuration says once the read is back. */
  datatype Polling = Polling(enabled: bool, onChangeOnly: bool, backoff: Config)

  function OutcomeOf(r: ReadResult, cfg: Polling): Outcome {
    if r.ReadFailed? then Failed else if cfg.enabled then Succeeded else SwitchedOff
  }

  /** The successful readings of one device's read, in the order of its results. */
  function Readings(d: DeviceId, results: seq<PropertyResult>, cfg: Polling): seq<Item> {
    if results == [] then []
    else
      var n := |results| - 1;
      Readings(d, results[..n], cfg) +
      (if results[n].code == 0 then [Read(d, results[n].key, results[n].value, cfg.onChangeOnly)] else [])
  }

  /** Exactly the results with code 0 are readings, each once, in their order, with their own key and value. */
  lemma {:induction false} ReadingsAreTheSuccesses(d: DeviceId, results: seq<PropertyResult>, cfg: Polling)
    ensures |Readings(d, results, cfg)| == |Among(k => 0 <= k < |results| && results[k].code == 0, 0, |results|)|
    ensures forall i :: 0 <= i < |results| && results[i].code == 0 ==> IsReading(Readings(d, results, cfg), d, results, cfg, i)
  {
    if results != [] {
      var n := |results| - 1;
      ReadingsAreTheSuccesses(d, results[..n], cfg);
      SuccessesOneMore(results, n);
      forall i | 0 <= i < |results| && results[i].code == 0 ensures IsReading(Readings(d, results, cfg), d, results, cfg, i) {
        if i < n {
          assert IsReading(Readings(d, results[..n], cfg), d, results[..n], cfg, i);
          SuccessesOfPrefix(results, n, i);
        } else {
          SuccessesOfPrefix(results, n, n);
        }
      }
    }
  }

  /** The i-th result stands behind as many readings as there are successes before it. */
  ghost predicate IsReading(items: seq<Item>, d: DeviceId, results: seq<PropertyResult>, cfg: Polling, i: nat)
    requires i < |results|
  {
    var before := |Among(k => 0 <= k < |results| && results[k].code == 0, 0, i)|;
    before < |items| && items[before] == Read(d, results[i].key, results[i].value, cfg.onChangeOnly)
  }

  lemma SuccessesOfPrefix(results: seq<PropertyResult>, n: nat, i: nat)
    requires i <= n <= |results|
    ensures Among(k => 0 <= k < |results[..n]| && results[..n][k].code == 0, 0, i)
         == Among(k => 0 <= k < |results| && results[k].code == 0, 0, i)
  {
  }

  lemma SuccessesOneMore(results: seq<PropertyResult>, n: nat)
    requires n + 1 == |results|
    ensures |Among(k => 0 <= k < |results| && results[k].code == 0, 0, |results|)|
         == |Among(k => 0 <= k < |results[..n]| && results[..n][k].code == 0, 0, n)| + (if results[n].code == 0 then 1 else 0)
  {
    OneMoreAmong(k => 0 <= k < |results| && results[k].code == 0, 0, n);
    SuccessesOfPrefix(results, n, n);
  }

  function ItemsOfRead(d: DeviceId, r: ReadResult, cfg: Polling): seq<Item> {
    if r.ReadOk? && cfg.enabled then Readings(d, r.results, cfg) else []
  }

  /** A device to be read, and the properties subscribed when the tick began. */
  datatype Target = Target(deviceId: DeviceId, properties: set<string>)

  /** A change of the subscriptions by one of the notification handlers. */
  datatype Change =
    | Add(deviceId: DeviceId, properties: seq<string>)
    | Remove(deviceId: DeviceId, property: string)
    | RemoveAll(deviceId: DeviceId)

  function ItemsOfChanges(changes: seq<Change>): seq<Item> {
    if changes == [] then []
    else
      var n := |changes| - 1;
      ItemsOfChanges(changes[..n]) +
      match changes[n]
      case Add(_, _) => []
      case Remove(d, p) => [Forget(d, p)]
      case RemoveAll(d) => [ForgetAll(d)]
  }

  function PairsAfter(pairs: set<(DeviceId, string)>, changes: seq<Change>): set<(DeviceId, string)> {
    if changes == [] then pairs
    else
      var n := |changes| - 1;
      var before := PairsAfter(pairs, changes[..n]);
      match changes[n]
      case Add(d, properties) => before + set p | p in properties :: (d, p)
      case Remove(d, p) => before - {(d, p)}
      case RemoveAll(d) => set pair | pair in before && pair.0 != d
  }

  /** What happens around the reads of a tick: their answers, and the changes made while each is under way. */
  datatype Course = Course(answers: Target -> ReadResult, changes: nat -> seq<Change>)

  function ItemsOfTick(due: seq<Target>, course: Course, cfg: Polling): seq<Item> {
    if due == [] then []
    else
      var n := |due| - 1;
      ItemsOfTick(due[..n], course, cfg)
      + (ItemsOfChanges(course.changes(n)) + ItemsOfRead(due[n].deviceId, course.answers(due[n]), cfg))
  }

  function PairsAfterTick(pairs: set<(DeviceId, string)>, n: nat, course: Course): set<(DeviceId, string)> {
    if n == 0 then pairs else PairsAfter(PairsAfterTick(pairs, n - 1, course), course.changes(n - 1))
  }

  ghost predicate DistinctDevices(targets: seq<Target>) {
    forall i, j :: 0 <= i < j < |targets| ==> targets[i].deviceId != targets[j].deviceId
  }

  lemma OneMoreTarget(before: seq<Item>, targets: seq<Target>, i: nat, course: Course, cfg: Polling)
    requires i < |targets| && DistinctDevices(targets)
    ensures forall t :: t in targets[..i + 1] <==> t in targets[..i] || t == targets[i]
    ensures forall t :: t in targets[..i] ==> t.deviceId != targets[i].deviceId
    ensures before + ItemsOfTick(targets[..i + 1], course, cfg)
         == before + ItemsOfTick(targets[..i], course, cfg)
            + (ItemsOfChanges(course.changes(i)) + ItemsOfRead(targets[i].deviceId, course.answers(targets[i]), cfg))
  {
    assert targets[..i + 1] == targets[..i] + [targets[i]];
    assert targets[..i + 1][..i] == targets[..i];
  }

  lemma ChangesOneMore(before: seq<Item>, pairs: set<(DeviceId, string)>, changes: seq<Change>, i: nat)
    requires i < |changes|
    ensures before + ItemsOfChanges(changes[..i + 1])
         == before + ItemsOfChanges(changes[..i]) +
            match changes[i]
            case Add(_, _) => []
            case Remove(d, p) => [Forget(d, p)]
            case RemoveAll(d) => [ForgetAll(d)]
    ensures PairsAfter(pairs, changes[..i + 1])
         == match changes[i]
            case Add(d, properties) => PairsAfter(pairs, changes[..i]) + set p | p in properties :: (d, p)
            case Remove(d, p) => PairsAfter(pairs, changes[..i]) - {(d, p)}
            case RemoveAll(d) => set pair | pair in PairsAfter(pairs, changes[..i]) && pair.0 != d
  {
    assert changes[..i + 1][..i] == changes[..i];
  }

  ghost function PairsOf(m: map<DeviceId, set<string>>): set<(DeviceId, string)> {
    set d, p | d in m && p in m[d] :: (d, p)
  }

  lemma PairsOfUpdate(m: map<DeviceId, set<string>>, d: DeviceId, s: set<string>)
    ensures PairsOf(m[d := s]) == PairsOf(m - {d}) + set p | p in s :: (d, p)
    ensures PairsOf(m) == PairsOf(m - {d}) + set p | d in m && p in m[d] :: (d, p)
  {
  }

  lemma PairsOfRemove(m: map<DeviceId, set<string>>, d: DeviceId)
    ensures PairsOf(m - {d}) == set pair | pair in PairsOf(m) && pair.0 != d
  {
  }

  class DevicePropertyPoller {
    var subscriptions: map<DeviceId, set<string>>
    var lastValues: LastValues
    var errorCounts: map<DeviceId, nat>
    var skipCycles: map<DeviceId, int>
    ghost var emitted: seq<Event>  // everything passed to `emit`, in order
    ghost var items: seq<Item>     // every reading and every removal so far, in order

    /** The last values and the events are what the whole history makes of an empty map. */
    ghost predicate Valid()
      reads this`items, this`lastValues, this`emitted
    {
      var (last, events) := ApplyAll(map[], items);
      last == lastValues && events == emitted
    }

    ghost function BackoffOf(d: DeviceId): Backoff
      reads this
    {
      Backoff(if d in errorCounts then errorCounts[d] else 0, if d in skipCycles then skipCycles[d] else 0)
    }

    /** The subscribed (device, property) pairs. */
    ghost function Pairs(): set<(DeviceId, string)>
      reads this
    {
      PairsOf(subscriptions)
    }

    /** What one more item does to a valid object. */
    lemma Recorded(item: Item)
      requires Valid()
      ensures var (last, events) := ApplyAll(map[], items + [item]);
              && last == Apply(lastValues, item).0
              && events == emitted + Apply(lastValues, item).1
    {
      ApplyAllOneMore(map[], items, item);
    }

    constructor ()
      ensures Valid() && items == []
      ensures Pairs() == {} && lastValues == map[] && emitted == []
      ensures forall d :: BackoffOf(d) == FRESH
    {
      subscriptions, lastValues, errorCounts, skipCycles := map[], map[], map[], map[];
      emitted, items := [], [];
    }

    // ---------- subscriptions ----------

    method AddSubscriptions(deviceId: DeviceId, properties: seq<string>)
      modifies this`subscriptions
      ensures Pairs() == old(Pairs()) + set p | p in properties :: (deviceId, p)
    {
      var s := if deviceId in subscriptions then subscriptions[deviceId] else {};
      for i := 0 to |properties|
        invariant s == (if deviceId in subscriptions then subscriptions[deviceId] else {}) + set p | p in properties[..i]
      {
        s := s + {properties[i]};
      }
      assert properties[..|properties|] == properties;
      PairsOfUpdate(subscriptions, deviceId, s);
      subscriptions := subscriptions[deviceId := s];
    }

    method RemoveSubscription(deviceId: DeviceId, property: string)
      requires Valid()
      modifies this`subscriptions, this`lastValues, this`items
      ensures Valid() && items == old(items) + [Forget(deviceId, property)]
      ensures Pairs() == old(Pairs()) - {(deviceId, property)}
    {
      if deviceId in subscriptions {
        var s := subscriptions[deviceId] - {property};
        PairsOfUpdate(subscriptions, deviceId, s);
        PairsOfRemove(subscriptions, deviceId);
        subscriptions := if s == {} then subscriptions - {deviceId} else subscriptions[deviceId := s];
      }
      ForgetValue(deviceId, property);
    }

    method ForgetValue(deviceId: DeviceId, property: string)
      requires Valid()
      modifies this`lastValues, this`items
      ensures Valid() && items == old(items) + [Forget(deviceId, property)]
    {
      Recorded(Forget(deviceId, property));
      lastValues := lastValues - {CacheKey(deviceId, property)};
      items := items + [Forget(deviceId, property)];
    }

    method RemoveAllSubscriptions(deviceId: DeviceId)
      requires Valid()
      modifies this`subscriptions, this`lastValues, this`items
      ensures Valid() && items == old(items) + [ForgetAll(deviceId)]
      ensures Pairs() == set pair | pair in old(Pairs()) && pair.0 != deviceId
    {
      Recorded(ForgetAll(deviceId));
      PairsOfRemove(subscriptions, deviceId);
      subscriptions := subscriptions - {deviceId};
      var keys := lastValues.Keys;
      while keys != {}
        invariant subscriptions == old(subscriptions) - {deviceId}
        invariant items == old(items) && emitted == old(emitted)
        invariant keys <= old(lastValues).Keys
        invariant lastValues == map k | k in old(lastValues) && (k in keys || !StartsWith(k, deviceId + ":")) :: old(lastValues)[k]
        decreases keys
      {
        var key :| key in keys;
        if StartsWith(key, deviceId + ":") {
          lastValues := lastValues - {key};
        }
        keys := keys - {key};
      }
      items := items + [ForgetAll(deviceId)];
    }

    /** `loadSubscriptions`: adds every stored pair to what is cached already. */
    method LoadSubscriptions(all: seq<(DeviceId, string)>)
      modifies this`subscriptions
      ensures Pairs() == old(Pairs()) + set pair | pair in all
    {
      for i := 0 to |all|
        invariant Pairs() == old(Pairs()) + set pair | pair in all[..i]
      {
        var (deviceId, property) := all[i];
        var s := if deviceId in subscriptions then subscriptions[deviceId] else {};
        PairsOfUpdate(subscriptions, deviceId, s + {property});
        subscriptions := subscriptions[deviceId := s + {property}];
        assert all[..i + 1] == all[..i] + [all[i]];
      }
      assert all[..|all|] == all;
    }

    // ---------- the tick ----------

    /** Devices to read this tick, each with all it is subscribed to; the others count one skipped cycle. */
    method DueDevices() returns (due: seq<Target>)
      modifies this`skipCycles
      ensures forall t :: t in due <==>
                t.deviceId in subscriptions && Due(old(BackoffOf(t.deviceId))) && t.properties == subscriptions[t.deviceId]
      ensures DistinctDevices(due)
      ensures forall d :: BackoffOf(d) ==
                if d in subscriptions && !Due(old(BackoffOf(d))) then old(BackoffOf(d)).(skip := old(BackoffOf(d)).skip - 1)
                else old(BackoffOf(d))
    {
      due := [];
      var rest := subscriptions.Keys;
      while rest != {}
        invariant rest <= subscriptions.Keys
        invariant forall t :: t in due <==>
                    && t.deviceId in subscriptions && t.deviceId !in rest
                    && Due(old(BackoffOf(t.deviceId))) && t.properties == subscriptions[t.deviceId]
        invariant DistinctDevices(due)
        invariant forall d :: BackoffOf(d) ==
                    if d in subscriptions && d !in rest && !Due(old(BackoffOf(d)))
                    then old(BackoffOf(d)).(skip := old(BackoffOf(d)).skip - 1)
                    else old(BackoffOf(d))
        decreases rest
      {
        var deviceId :| deviceId in rest;
        var skipRemaining := if deviceId in skipCycles then skipCycles[deviceId] else 0;
        if skipRemaining > 0 {
          skipCycles := skipCycles[deviceId := skipRemaining - 1];
        } else {
          assert forall i :: 0 <= i < |due| ==> due[i] in due;
          due := due + [Target(deviceId, subscriptions[deviceId])];
        }
        rest := rest - {deviceId};
      }
    }

    /** Publishes the successful readings of one read, in order. */
    method Publish(deviceId: DeviceId, results: seq<PropertyResult>, cfg: Polling)
      requires Valid()
      modifies this`lastValues, this`emitted, this`items
      ensures Valid() && items == old(items) + Readings(deviceId, results, cfg)
    {
      for i := 0 to |results|
        invariant Valid() && items == old(items) + Readings(deviceId, results[..i], cfg)
      {
        assert results[..i + 1][..i] == results[..i];
        var PropertyResult(key, newValue, code) := results[i];
        if code != 0 {
          continue;
        }
        Recorded(Read(deviceId, key, newValue, cfg.onChangeOnly));
        var cacheKey := CacheKey(deviceId, key);
        var oldValue := Get(lastValues, cacheKey);
        var hasChanged := oldValue != newValue;
        if hasChanged || !cfg.onChangeOnly {
          lastValues := lastValues[cacheKey := newValue];
          emitted := emitted + [Event(deviceId, key, if hasChanged then oldValue else newValue, newValue)];
        }
        items := items + [Read(deviceId, key, newValue, cfg.onChangeOnly)];
      }
      assert results[..|results|] == results;
    }

    /** `readDevice`: publishes the readings, then clears the error count; a failure counts up to the pause. */
    method ReadDevice(deviceId: DeviceId, read: ReadResult, cfg: Polling)
      requires Valid()
      modifies this`lastValues, this`errorCounts, this`skipCycles, this`emitted, this`items
      ensures Valid() && items == old(items) + ItemsOfRead(deviceId, read, cfg)
      ensures BackoffOf(deviceId) == AfterRead(cfg.backoff, old(BackoffOf(deviceId)), OutcomeOf(read, cfg))
      ensures forall d :: d != deviceId ==> BackoffOf(d) == old(BackoffOf(d))
      // in plain words: a success clears the errors, a failure is one more or begins the pause, else nothing happens
      ensures read.ReadOk? && cfg.enabled ==> BackoffOf(deviceId) == old(BackoffOf(deviceId)).(errors := 0)
      ensures read.ReadOk? && !cfg.enabled ==> BackoffOf(deviceId) == old(BackoffOf(deviceId)) && items == old(items)
      ensures read.ReadFailed? ==>
                && items == old(items)
                && var errors := old(BackoffOf(deviceId)).errors + 1;
                   BackoffOf(deviceId) == if errors >= cfg.backoff.maxErrorCount then Backoff(0, cfg.backoff.errorSkipCycles)
                                          else old(BackoffOf(deviceId)).(errors := errors)
    {
      match read {
        case ReadFailed =>
          var count := (if deviceId in errorCounts then errorCounts[deviceId] else 0) + 1;
          errorCounts := errorCounts[deviceId := count];
          if count >= cfg.backoff.maxErrorCount {
            errorCounts := errorCounts - {deviceId};
            skipCycles := skipCycles[deviceId := cfg.backoff.errorSkipCycles];
          }
        case ReadOk(results) =>
          if !cfg.enabled {
            return;
          }
          Publish(deviceId, results, cfg);
          if deviceId in errorCounts {
            errorCounts := errorCounts - {deviceId};
          }
      }
    }

    method ApplyChanges(changes: seq<Change>)
      requires Valid()
      modifies this`subscriptions, this`lastValues, this`items
      ensures Valid() && items == old(items) + ItemsOfChanges(changes)
      ensures Pairs() == PairsAfter(old(Pairs()), changes)
    {
      for i := 0 to |changes|
        invariant Valid() && items == old(items) + ItemsOfChanges(changes[..i])
        invariant Pairs() == PairsAfter(old(Pairs()), changes[..i])
      {
        ChangesOneMore(old(items), old(Pairs()), changes, i);
        match changes[i] {
          case Add(d, properties) => AddSubscriptions(d, properties);
          case Remove(d, p) => RemoveSubscription(d, p);
          case RemoveAll(d) => RemoveAllSubscriptions(d);
        }
      }
      assert changes[..|changes|] == changes;
    }

    /** One read of the tick, with what the handlers do before it is back. */
    method ReadNext(target: Target, read: ReadResult, changes: seq<Change>, cfg: Polling)
      requires Valid()
      modifies this`subscriptions, this`lastValues, this`errorCounts, this`skipCycles, this`emitted, this`items
      ensures Valid() && items == old(items) + (ItemsOfChanges(changes) + ItemsOfRead(target.deviceId, read, cfg))
      ensures Pairs() == PairsAfter(old(Pairs()), changes)
      ensures BackoffOf(target.deviceId) == AfterRead(cfg.backoff, old(BackoffOf(target.deviceId)), OutcomeOf(read, cfg))
      ensures forall d :: d != target.deviceId ==> BackoffOf(d) == old(BackoffOf(d))
    {
      ApplyChanges(changes);
      ReadDevice(target.deviceId, read, cfg);
    }

    method ReadAll(targets: seq<Target>, course: Course, cfg: Polling)
      requires Valid() && DistinctDevices(targets)
      modifies this`subscriptions, this`lastValues, this`errorCounts, this`skipCycles, this`emitted, this`items
      ensures Valid() && items == old(items) + ItemsOfTick(targets, course, cfg)
      ensures Pairs() == PairsAfterTick(old(Pairs()), |targets|, course)
      ensures forall t :: t in targets ==>
                BackoffOf(t.deviceId) == AfterRead(cfg.backoff, old(BackoffOf(t.deviceId)), OutcomeOf(course.answers(t), cfg))
      ensures forall d :: (forall t :: t in targets ==> t.deviceId != d) ==> BackoffOf(d) == old(BackoffOf(d))
    {
      for i := 0 to |targets|
        invariant Valid() && items == old(items) + ItemsOfTick(targets[..i], course, cfg)
        invariant Pairs() == PairsAfterTick(old(Pairs()), i, course)
        invariant forall t :: t in targets[..i] ==>
                    BackoffOf(t.deviceId) == AfterRead(cfg.backoff, old(BackoffOf(t.deviceId)), OutcomeOf(course.answers(t), cfg))
        invariant forall d :: (forall t :: t in targets[..i] ==> t.deviceId != d) ==> BackoffOf(d) == old(BackoffOf(d))
      {
        OneMoreTarget(old(items), targets, i, course, cfg);
        ReadNext(targets[i], course.answers(targets[i]), course.changes(i), cfg);
      }
      assert targets[..|targets|] == targets;
    }

    /**
     One tick: every device subscribed when it begins moves one step of its back-off, and the due ones publish
     their readings, whatever the handlers do to the subscriptions in the meantime.
     */
    method Tick(course: Course, cfg: Polling) returns (ghost due: seq<Target>)
      requires Valid()
      modifies this`subscriptions, this`lastValues, this`errorCounts, this`skipCycles, this`emitted, this`items
      ensures Valid() && items == old(items) + ItemsOfTick(due, course, cfg)
      ensures Pairs() == PairsAfterTick(old(Pairs()), |due|, course)
      ensures forall t :: t in due <==>
                && t.deviceId in old(subscriptions) && Due(old(BackoffOf(t.deviceId)))
                && t.properties == old(subscriptions)[t.deviceId]
      ensures DistinctDevices(due)
      ensures forall d :: BackoffOf(d) ==
                if d in old(subscriptions)
                then AfterTick(cfg.backoff, old(BackoffOf(d)), OutcomeOf(course.answers(Target(d, old(subscriptions)[d])), cfg))
                else old(BackoffOf(d))
    {
      var targets := DueDevices();
      due := targets;
      ReadAll(targets, course, cfg);
      forall d ensures BackoffOf(d) ==
                if d in old(subscriptions)
                then AfterTick(cfg.backoff, old(BackoffOf(d)), OutcomeOf(course.answers(Target(d, old(subscriptions)[d])), cfg))
                else old(BackoffOf(d))
      {
        if d in old(subscriptions) && Due(old(BackoffOf(d))) {
          assert Target(d, old(subscriptions)[d]) in targets;
        }
      }
    }

    /**
     At any moment of the object's life: what was emitted about a property is the stutter-free form of its
     readings, and the stored last value is its last reading since it was last forgotten.
     */
    lemma EmittedIsStutterFree(d: DeviceId, p: string)
      requires Valid()
      ensures EventsOf(emitted, d, p) == Announcements(ItemsOf(items, d, p))
      ensures Get(lastValues, CacheKey(d, p)) == Known(ItemsOf(items, d, p), |ItemsOf(items, d, p)|)
    {
      StreamIsStutterFree(items, d, p);
    }
  }
}
