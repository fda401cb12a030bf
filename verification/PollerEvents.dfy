/**
 Change detection of the property poller
 (apis/miot-bridge-api/src/services/DevicePropertyPollerService.ts:374-399, and the resets of
 155 and 162-167): one map of last values, keyed by `${deviceId}:${property}`, serves every
 device and property.
 */
module PollerEvents {
  import opened Wrappers

  /** Storage ids are generated UUIDs; they contain no colon. */
  type DeviceId = s: string | ':' !in s witness ""

  /** What a JSON text can hold, compared as `===` does: an object or an array is the same only as itself. */
  datatype Value = Text(text: string) | Number(number: real) | Flag(flag: bool) | Null | Reference(identity: nat)

  /** None stands for `undefined`. */
  type Reading = Option<Value>

  datatype Event = Event(deviceId: DeviceId, property: string, oldValue: Reading, newValue: Reading)

  /** A successful reading, or the loss of last values when subscriptions are removed. */
  datatype Item =
    | Read(deviceId: DeviceId, property: string, value: Reading, onChangeOnly: bool)
    | Forget(deviceId: DeviceId, property: string)
    | ForgetAll(deviceId: DeviceId)

  type LastValues = map<string, Reading>

  function CacheKey(d: DeviceId, property: string): string {
    d + ":" + property
  }

  predicate StartsWith(s: string, prefix: string) {
    prefix <= s
  }

  function Get(m: LastValues, key: string): Reading {
    if key in m then m[key] else None
  }

  /** Effect of one item on the map, and the event it emits, if any. */
  function Apply(m: LastValues, item: Item): (LastValues, seq<Event>) {
    match item
    case Read(d, p, newValue, onChangeOnly) =>
      var key := CacheKey(d, p);
      var oldValue := Get(m, key);
      var hasChanged := oldValue != newValue;
      if hasChanged || !onChangeOnly then
        (m[key := newValue], [Event(d, p, if hasChanged then oldValue else newValue, newValue)])
      else (m, [])
    case Forget(d, p) => (m - {CacheKey(d, p)}, [])
    case ForgetAll(d) => (map k | k in m && !StartsWith(k, d + ":") :: m[k], [])
  }

  function ApplyAll(m: LastValues, items: seq<Item>): (LastValues, seq<Event>) {
    if items == [] then (m, [])
    else
      var n := |items| - 1;
      var (before, events) := ApplyAll(m, items[..n]);
      var (after, emitted) := Apply(before, items[n]);
      (after, events + emitted)
  }

  lemma ApplyAllOneMore(m: LastValues, items: seq<Item>, item: Item)
    ensures var (before, events) := ApplyAll(m, items);
            var (after, emitted) := Apply(before, item);
            ApplyAll(m, items + [item]) == (after, events + emitted)
  {
    assert (items + [item])[..|items|] == items;
  }

  // ---------- what the stream of one property should be ----------

  predicate Concerns(item: Item, d: DeviceId, p: string) {
    item.deviceId == d && (item.ForgetAll? || item.property == p)
  }

  /** The items about one property of one device. */
  function ItemsOf(items: seq<Item>, d: DeviceId, p: string): seq<Item> {
    if items == [] then []
    else
      var n := |items| - 1;
      ItemsOf(items[..n], d, p) + (if Concerns(items[n], d, p) then [items[n]] else [])
  }

  function EventsOf(events: seq<Event>, d: DeviceId, p: string): seq<Event> {
    if events == [] then []
    else
      var n := |events| - 1;
      EventsOf(events[..n], d, p) + (if events[n].deviceId == d && events[n].property == p then [events[n]] else [])
  }

  /** The reading known before position i: the previous reading, or nothing at the start and after a reset. */
  function Known(items: seq<Item>, i: nat): Reading
    requires i <= |items|
  {
    if i == 0 || !items[i - 1].Read? then None else items[i - 1].value
  }

  /** A reading is announced when it differs from the previous one, or whenever announcing every cycle is configured. */
  predicate Announced(items: seq<Item>, i: nat)
    requires i < |items|
  {
    items[i].Read? && (items[i].value != Known(items, i) || !items[i].onChangeOnly)
  }

  /** The readings with the stutter removed, each with its predecessor. */
  function Announcements(items: seq<Item>): seq<Event> {
    if items == [] then []
    else
      var n := |items| - 1;
      Announcements(items[..n]) +
      (if Announced(items, n)
       then [Event(items[n].deviceId, items[n].property, Known(items, n), items[n].value)]
       else [])
  }

  // ---------- keys ----------

  lemma CacheKeysAreDistinct(d: DeviceId, p: string, d': DeviceId, p': string)
    ensures CacheKey(d, p) == CacheKey(d', p') <==> d == d' && p == p'
    ensures StartsWith(CacheKey(d, p), d' + ":") <==> d == d'
  {
    var k, k' := CacheKey(d, p), CacheKey(d', p');
    assert k[..|d|] == d && k[|d|] == ':' && k[|d| + 1..] == p;
    assert k'[..|d'|] == d' && k'[|d'|] == ':' && k'[|d'| + 1..] == p';
    if k == k' || StartsWith(k, d' + ":") {
      assert (d' + ":")[|d'|] == ':' && k[|d'|] == ':';
      NoColonAt(d, d', k);
      NoColonAt(d', d, k);
      assert k[..|d'|] == (d' + ":")[..|d'|] == d';
    }
    if d == d' {
      assert k == (d' + ":") + p;
    }
  }

  /** A string that has a colon at |c| cannot start with a longer colon-free id. */
  lemma NoColonAt(c: DeviceId, longer: DeviceId, s: string)
    requires |c| < |s| && s[|c|] == ':' && longer <= s
    ensures |longer| <= |c|
  {
    assert forall i :: 0 <= i < |longer| ==> longer[i] == s[i] && longer[i] in longer;
  }

  /** An item touches the last value of exactly the properties it concerns. */
  lemma ItemTouchesOnlyItsProperty(m: LastValues, item: Item, d: DeviceId, p: string)
    ensures var (after, emitted) := Apply(m, item);
            && (!Concerns(item, d, p) ==> Get(after, CacheKey(d, p)) == Get(m, CacheKey(d, p)) && EventsOf(emitted, d, p) == [])
            && (Concerns(item, d, p) ==>
                  && Get(after, CacheKey(d, p)) == (if item.Read? then item.value else None)
                  && EventsOf(emitted, d, p) == emitted)
  {
    CacheKeysAreDistinct(d, p, item.deviceId, if item.ForgetAll? then p else item.property);
    var (after, emitted) := Apply(m, item);
    if emitted != [] {
      assert emitted[..0] == [] && EventsOf(emitted[..0], d, p) == [];
    }
  }

  lemma {:induction false} EventsOfAppends(a: seq<Event>, b: seq<Event>, d: DeviceId, p: string)
    ensures EventsOf(a + b, d, p) == EventsOf(a, d, p) + EventsOf(b, d, p)
    decreases |b|
  {
    if b == [] {
      assert a + b == a;
    } else {
      EventsOfAppends(a, b[..|b| - 1], d, p);
      assert (a + b)[..|a + b| - 1] == a + b[..|b| - 1];
    }
  }

  lemma AnnouncementsAppend(own: seq<Item>, item: Item)
    ensures Announcements(own + [item]) == Announcements(own) +
              (if item.Read? && (item.value != Known(own, |own|) || !item.onChangeOnly)
               then [Event(item.deviceId, item.property, Known(own, |own|), item.value)] else [])
    ensures Known(own + [item], |own| + 1) == if item.Read? then item.value else None
  {
    var all := own + [item];
    assert all[..|all| - 1] == own;
    assert Known(all, |own|) == Known(own, |own|);
  }

  // ---------- the theorem ----------

  /**
   For every device and property, whatever the readings of all the others: the events are the announcements
   of its own readings, and the stored last value is its last reading.
   */
  lemma {:induction false} StreamIsStutterFree(items: seq<Item>, d: DeviceId, p: string)
    ensures var (last, events) := ApplyAll(map[], items);
            var own := ItemsOf(items, d, p);
            && EventsOf(events, d, p) == Announcements(own)
            && Get(last, CacheKey(d, p)) == Known(own, |own|)
  {
    if items != [] {
      var n := |items| - 1;
      StreamIsStutterFree(items[..n], d, p);
      var (before, events) := ApplyAll(map[], items[..n]);
      var (after, emitted) := Apply(before, items[n]);
      ItemTouchesOnlyItsProperty(before, items[n], d, p);
      EventsOfAppends(events, emitted, d, p);
      var own, own' := ItemsOf(items[..n], d, p), ItemsOf(items, d, p);
      if Concerns(items[n], d, p) {
        assert own' == own + [items[n]];
        AnnouncementsAppend(own, items[n]);
      } else {
        assert own' == own;
      }
    }
  }

  predicate StartsWherePreviousEnded(events: seq<Event>, k: nat)
    requires k < |events|
  {
    events[k].oldValue == if k == 0 then None else events[k - 1].newValue
  }

  /** With change-only dispatch and no removal, each event starts where the previous one ended and no event repeats a value. */
  lemma {:induction false} EventsChain(items: seq<Item>)
    requires forall i :: 0 <= i < |items| ==> items[i].Read? && items[i].onChangeOnly
    ensures var events := Announcements(items);
            && (forall k :: 0 <= k < |events| ==> events[k].oldValue != events[k].newValue)
            && (forall k :: 0 <= k < |events| ==> StartsWherePreviousEnded(events, k))
            && Known(items, |items|) == if events == [] then None else events[|events| - 1].newValue
  {
    if items != [] {
      var n := |items| - 1;
      EventsChain(items[..n]);
      AnnouncementsAppend(items[..n], items[n]);
      assert items[..n] + [items[n]] == items;
      var before, events := Announcements(items[..n]), Announcements(items);
      forall k | 0 <= k < |events|
        ensures StartsWherePreviousEnded(events, k)
      {
        if k < |before| {
          assert StartsWherePreviousEnded(before, k);
        }
      }
    }
  }

  /** Without change-only dispatch there is exactly one event per successful reading, in order. */
  lemma {:induction false} EveryReadingIsAnnounced(items: seq<Item>)
    requires forall i :: 0 <= i < |items| ==> items[i].Read? && !items[i].onChangeOnly
    ensures var events := Announcements(items);
            |events| == |items| && forall k :: 0 <= k < |items| ==> events[k].newValue == items[k].value
  {
    if items != [] {
      EveryReadingIsAnnounced(items[..|items| - 1]);
    }
  }
}
