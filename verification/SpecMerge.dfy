/**
 Merging the published spec of a device with the overrides kept for its model
 (apis/miot-bridge-api/src/mappers/SimplifiedMiotSpecV2Mapper.ts:24-94).
 */
module SpecMerge {
  import opened Wrappers

  datatype Source = Spec | Override

  datatype Property = Property(source: Source, siid: int, piid: int, access: seq<string>, values: seq<string>)

  /** `key` is the short name inside the urn of the service or property. */
  datatype PublishedProperty = PublishedProperty(key: string, iid: int, access: seq<string>, values: seq<string>)

  datatype PublishedAction = PublishedAction(key: string, iid: int, inputs: seq<int>)

  datatype PublishedService = PublishedService(key: string, iid: int, properties: seq<PublishedProperty>, actions: seq<PublishedAction>)

  datatype ModelOverride = ModelOverride(siid: int, key: string, piid: int, access: seq<string>, values: seq<string>)

  datatype SpecError = MissingActionInput

  type Entry = (string, Property)

  type Properties = map<string, Property>

  // ---------- entries, in the order in which they are set ----------

  function PublishedEntry(svc: PublishedService, p: PublishedProperty): Entry {
    (svc.key + ":" + p.key, Property(Spec, svc.iid, p.iid, p.access, p.values))
  }

  function ServiceEntries(svc: PublishedService, properties: seq<PublishedProperty>): seq<Entry> {
    if properties == [] then []
    else ServiceEntries(svc, properties[..|properties| - 1]) + [PublishedEntry(svc, properties[|properties| - 1])]
  }

  function PublishedEntries(services: seq<PublishedService>): seq<Entry> {
    if services == [] then []
    else
      var last := services[|services| - 1];
      PublishedEntries(services[..|services| - 1]) + ServiceEntries(last, last.properties)
  }

  /** The first service with this id. */
  function FindService(services: seq<PublishedService>, iid: int): Option<PublishedService> {
    if services == [] then None
    else if services[0].iid == iid then Some(services[0])
    else FindService(services[1..], iid)
  }

  predicate Applies(services: seq<PublishedService>, o: ModelOverride) {
    FindService(services, o.siid).Some?
  }

  function OverrideEntry(services: seq<PublishedService>, o: ModelOverride): Entry
    requires Applies(services, o)
  {
    (FindService(services, o.siid).value.key + ":" + o.key, Property(Override, o.siid, o.piid, o.access, o.values))
  }

  function OverrideEntries(services: seq<PublishedService>, overrides: seq<ModelOverride>): seq<Entry> {
    if overrides == [] then []
    else
      var n := |overrides| - 1;
      OverrideEntries(services, overrides[..n]) +
      (if Applies(services, overrides[n]) then [OverrideEntry(services, overrides[n])] else [])
  }

  predicate InputsExist(svc: PublishedService) {
    forall a, piid :: a in svc.actions && piid in a.inputs ==> exists p :: p in svc.properties && p.iid == piid
  }

  // ---------- the map ----------

  /** Setting the entries one after the other. */
  function SetAll(m: Properties, entries: seq<Entry>): Properties {
    if entries == [] then m
    else
      var n := |entries| - 1;
      SetAll(m, entries[..n])[entries[n].0 := entries[n].1]
  }

  lemma {:induction false} SetAllAppends(m: Properties, a: seq<Entry>, b: seq<Entry>)
    ensures SetAll(m, a + b) == SetAll(SetAll(m, a), b)
    decreases |b|
  {
    if b == [] {
      assert a + b == a;
    } else {
      SetAllAppends(m, a, b[..|b| - 1]);
      assert (a + b)[..|a + b| - 1] == a + b[..|b| - 1];
    }
  }

  /** Some order in which the published properties can be set: their callbacks run concurrently. */
  ghost predicate Finishing(order: seq<Entry>, services: seq<PublishedService>) {
    multiset(order) == multiset(PublishedEntries(services))
  }

  /** The merged spec when the callbacks finish in this order. */
  function Merged(order: seq<Entry>, services: seq<PublishedService>, overrides: seq<ModelOverride>): Properties {
    SetAll(SetAll(map[], order), OverrideEntries(services, overrides))
  }

  /**
   `map`: the published properties in the order in which their callbacks finish, then the overrides on top; it throws if
   an action takes an unknown input.
   */
  method MapSpec(services: seq<PublishedService>, overrides: seq<ModelOverride>, order: seq<Entry>) returns (r: Result<Properties, SpecError>)
    requires Finishing(order, services)
    ensures r == if forall svc :: svc in services ==> InputsExist(svc) then Success(Merged(order, services, overrides))
                 else Failure(MissingActionInput)
    ensures r.Failure? <==>
              exists svc, a, piid :: svc in services && a in svc.actions && piid in a.inputs && forall p :: p in svc.properties ==> p.iid != piid
  {
    r := MapPublished(services, order);
    if r.Success? {
      var properties := ApplyOverrides(r.value, services, overrides);
      r := Success(properties);
    }
  }

  method MapPublished(services: seq<PublishedService>, order: seq<Entry>) returns (r: Result<Properties, SpecError>)
    requires Finishing(order, services)
    ensures r == if forall svc :: svc in services ==> InputsExist(svc) then Success(SetAll(map[], order)) else Failure(MissingActionInput)
  {
    var properties: Properties := map[];
    for i := 0 to |order|
      invariant properties == SetAll(map[], order[..i])
    {
      assert order[..i + 1][..i] == order[..i];
      properties := properties[order[i].0 := order[i].1];
    }
    assert order[..|order|] == order;
    for i := 0 to |services|
      invariant forall svc :: svc in services[..i] ==> InputsExist(svc)
    {
      assert services[..i + 1] == services[..i] + [services[i]];
      if !InputsExist(services[i]) {
        assert services[i] in services;
        return Failure(MissingActionInput);
      }
    }
    assert services[..|services|] == services;
    return Success(properties);
  }

  method ApplyOverrides(published: Properties, services: seq<PublishedService>, overrides: seq<ModelOverride>) returns (properties: Properties)
    ensures properties == SetAll(published, OverrideEntries(services, overrides))
  {
    properties := published;
    for i := 0 to |overrides|
      invariant properties == SetAll(published, OverrideEntries(services, overrides[..i]))
    {
      assert overrides[..i + 1][..i] == overrides[..i];
      var o := overrides[i];
      ghost var before := OverrideEntries(services, overrides[..i]);
      var svc := FindService(services, o.siid);
      if svc.None? {
        assert OverrideEntries(services, overrides[..i + 1]) == before;
        continue;
      }
      SetAllAppends(published, before, [OverrideEntry(services, o)]);
      properties := properties[svc.value.key + ":" + o.key := Property(Override, o.siid, o.piid, o.access, o.values)];
    }
    assert overrides[..|overrides|] == overrides;
  }

  // ---------- what is set ----------

  /** A published entry is a property of a service, under both short names, with the ids of both. */
  lemma {:induction false} PublishedEntriesAre(services: seq<PublishedService>, e: Entry)
    ensures e in PublishedEntries(services) <==>
              exists svc, p :: svc in services && p in svc.properties
                            && e == (svc.key + ":" + p.key, Property(Spec, svc.iid, p.iid, p.access, p.values))
  {
    if services != [] {
      var n := |services| - 1;
      PublishedEntriesAre(services[..n], e);
      ServiceEntriesAre(services[n], services[n].properties, e);
      assert services == services[..n] + [services[n]];
    }
  }

  lemma {:induction false} ServiceEntriesAre(svc: PublishedService, properties: seq<PublishedProperty>, e: Entry)
    ensures e in ServiceEntries(svc, properties) <==>
              exists p :: p in properties && e == (svc.key + ":" + p.key, Property(Spec, svc.iid, p.iid, p.access, p.values))
  {
    if properties != [] {
      var n := |properties| - 1;
      ServiceEntriesAre(svc, properties[..n], e);
      assert properties == properties[..n] + [properties[n]];
    }
  }

  /** The first service with the id names the key an override is set under. */
  lemma {:induction false} FindServiceFindsTheFirst(services: seq<PublishedService>, iid: int)
    ensures FindService(services, iid).None? <==> forall svc :: svc in services ==> svc.iid != iid
    ensures FindService(services, iid).Some? ==>
              exists k :: 0 <= k < |services| && services[k].iid == iid && FindService(services, iid) == Some(services[k])
                       && forall j :: 0 <= j < k ==> services[j].iid != iid
  {
    if services != [] && services[0].iid != iid {
      FindServiceFindsTheFirst(services[1..], iid);
      assert services == [services[0]] + services[1..];
      if FindService(services[1..], iid).Some? {
        var k :| 0 <= k < |services[1..]| && services[1..][k].iid == iid && FindService(services[1..], iid) == Some(services[1..][k])
                 && forall j :: 0 <= j < k ==> services[1..][j].iid != iid;
        assert services[k + 1].iid == iid && forall j :: 0 <= j < k + 1 ==> services[j].iid != iid by {
          assert forall j :: 1 <= j < k + 1 ==> services[j] == services[1..][j - 1];
        }
      }
    }
  }

  /** The last override that applies to a key is the one found: with its own ids, access and values. */
  lemma {:induction false} LastOverrideIs(services: seq<PublishedService>, overrides: seq<ModelOverride>, key: string)
    ensures var found := Last(OverrideEntries(services, overrides), key);
            if exists k :: 0 <= k < |overrides| && SetsKey(services, overrides[k], key) then
              exists k :: 0 <= k < |overrides| && LastSetter(services, overrides, key, k)
                       && found == Some(Property(Override, overrides[k].siid, overrides[k].piid, overrides[k].access, overrides[k].values))
            else found == None
    decreases |overrides|
  {
    if overrides != [] {
      var n := |overrides| - 1;
      if SetsKey(services, overrides[n], key) {
        assert OverrideEntries(services, overrides) == OverrideEntries(services, overrides[..n]) + [OverrideEntry(services, overrides[n])];
        assert LastSetter(services, overrides, key, n);
      } else {
        LastOverrideIs(services, overrides[..n], key);
        LastWithoutTheKey(services, overrides, key);
        forall k | 0 <= k < n ensures SetsKey(services, overrides[k], key) <==> SetsKey(services, overrides[..n][k], key) {
        }
        forall k | 0 <= k < n && LastSetter(services, overrides[..n], key, k) ensures LastSetter(services, overrides, key, k) {
        }
      }
    }
  }

  ghost predicate LastSetter(services: seq<PublishedService>, overrides: seq<ModelOverride>, key: string, k: nat)
    requires k < |overrides|
  {
    SetsKey(services, overrides[k], key) && forall j :: k < j < |overrides| ==> !SetsKey(services, overrides[j], key)
  }

  ghost predicate SetsKey(services: seq<PublishedService>, o: ModelOverride, key: string) {
    FindService(services, o.siid).Some? && key == FindService(services, o.siid).value.key + ":" + o.key
  }

  lemma LastWithoutTheKey(services: seq<PublishedService>, overrides: seq<ModelOverride>, key: string)
    requires overrides != [] && !SetsKey(services, overrides[|overrides| - 1], key)
    ensures Last(OverrideEntries(services, overrides), key) == Last(OverrideEntries(services, overrides[..|overrides| - 1]), key)
  {
    var n := |overrides| - 1;
    var before, after := OverrideEntries(services, overrides[..n]), OverrideEntries(services, overrides);
    if Applies(services, overrides[n]) {
      assert after[..|after| - 1] == before;
    } else {
      assert after == before;
    }
  }

  // ---------- who wins ----------

  /** The last entry with this key. */
  function Last(entries: seq<Entry>, key: string): Option<Property> {
    if entries == [] then None
    else if entries[|entries| - 1].0 == key then Some(entries[|entries| - 1].1)
    else Last(entries[..|entries| - 1], key)
  }

  lemma {:induction false} LookupAfterSetting(m: Properties, entries: seq<Entry>, key: string)
    ensures key in SetAll(m, entries) <==> key in m || Last(entries, key).Some?
    ensures key in SetAll(m, entries) ==>
              SetAll(m, entries)[key] == if Last(entries, key).Some? then Last(entries, key).value else m[key]
  {
    if entries != [] {
      LookupAfterSetting(m, entries[..|entries| - 1], key);
    }
  }

  lemma {:induction false} SourcesOfEntries(services: seq<PublishedService>, overrides: seq<ModelOverride>, key: string)
    ensures Last(OverrideEntries(services, overrides), key).Some? ==> Last(OverrideEntries(services, overrides), key).value.source == Override
    decreases |overrides|
  {
    if overrides != [] {
      var n := |overrides| - 1;
      SourcesOfEntries(services, overrides[..n], key);
      var before, after := OverrideEntries(services, overrides[..n]), OverrideEntries(services, overrides);
      if Applies(services, overrides[n]) {
        assert after[..|after| - 1] == before;
      } else {
        assert after == before;
      }
    }
  }

  lemma {:induction false} PublishedAreSpec(services: seq<PublishedService>)
    ensures forall e :: e in PublishedEntries(services) ==> e.1.source == Spec
  {
    if services != [] {
      var last := services[|services| - 1];
      PublishedAreSpec(services[..|services| - 1]);
      ServiceEntriesAreSpec(last, last.properties);
    }
  }

  lemma {:induction false} ServiceEntriesAreSpec(svc: PublishedService, properties: seq<PublishedProperty>)
    ensures forall e :: e in ServiceEntries(svc, properties) ==> e.1.source == Spec
  {
    if properties != [] {
      ServiceEntriesAreSpec(svc, properties[..|properties| - 1]);
    }
  }

  lemma {:induction false} LastIsAnEntry(entries: seq<Entry>, key: string)
    ensures Last(entries, key).Some? ==> (key, Last(entries, key).value) in entries
  {
    if entries != [] {
      LastIsAnEntry(entries[..|entries| - 1], key);
    }
  }

  function Lookup(m: Properties, key: string): Option<Property> {
    if key in m then Some(m[key]) else None
  }

  /** All published properties with this key are one and the same. */
  ghost predicate PublishedAlike(services: seq<PublishedService>, key: string) {
    forall e, e' :: e in PublishedEntries(services) && e' in PublishedEntries(services) && e.0 == key && e'.0 == key ==> e == e'
  }

  /**
   In whatever order the callbacks finish: every key of the merged spec is decided by the last override that applies to
   it and, only without one, by the published spec; and its provenance says which. A key published once, or
   overridden, does not depend on that order.
   */
  lemma OverridesWin(order: seq<Entry>, services: seq<PublishedService>, overrides: seq<ModelOverride>, key: string)
    requires Finishing(order, services)
    ensures var merged := Merged(order, services, overrides);
            var ours, theirs := Last(OverrideEntries(services, overrides), key), Last(PublishedEntries(services), key);
            && (key in merged <==> ours.Some? || theirs.Some?)
            && (key in merged ==> (merged[key].source == Override <==> ours.Some?))
            && (ours.Some? ==> merged[key] == ours.value)
            && (key in merged && ours.None? ==> (key, merged[key]) in PublishedEntries(services))
            && (key in merged && ours.None? && PublishedAlike(services, key) ==> merged[key] == theirs.value)
  {
    LookupAfterSetting(map[], order, key);
    LookupAfterSetting(SetAll(map[], order), OverrideEntries(services, overrides), key);
    SourcesOfEntries(services, overrides, key);
    PublishedAreSpec(services);
    LastInAnyOrder(order, services, key);
  }

  lemma LastInAnyOrder(order: seq<Entry>, services: seq<PublishedService>, key: string)
    requires Finishing(order, services)
    ensures Last(order, key).Some? <==> Last(PublishedEntries(services), key).Some?
    ensures Last(order, key).Some? ==> (key, Last(order, key).value) in PublishedEntries(services)
    ensures Last(PublishedEntries(services), key).Some? ==> (key, Last(PublishedEntries(services), key).value) in PublishedEntries(services)
  {
    var published := PublishedEntries(services);
    LastIsAnEntry(order, key);
    LastIsAnEntry(published, key);
    if Last(order, key).Some? {
      var e := (key, Last(order, key).value);
      assert e in multiset(order);
      EntriesAreFound(published, e);
    }
    if Last(published, key).Some? {
      var e := (key, Last(published, key).value);
      assert e in multiset(published);
      EntriesAreFound(order, e);
    }
  }

  lemma {:induction false} EntriesAreFound(entries: seq<Entry>, e: Entry)
    requires e in entries
    ensures Last(entries, e.0).Some?
  {
    var n := |entries| - 1;
    if entries[n].0 != e.0 {
      assert entries == entries[..n] + [entries[n]];
      EntriesAreFound(entries[..n], e);
    }
  }

  /** The finishing order in which entry `i` comes last. */
  function MovedLast(entries: seq<Entry>, i: nat): (r: seq<Entry>)
    requires i < |entries|
    ensures multiset(r) == multiset(entries)
    ensures Last(r, entries[i].0) == Some(entries[i].1)
  {
    assert entries == entries[..i] + [entries[i]] + entries[i + 1..];
    entries[..i] + entries[i + 1..] + [entries[i]]
  }

  /** The order of finishing makes no difference to a key if and only if it is overridden or published only alike. */
  lemma OrderIsIrrelevantIff(services: seq<PublishedService>, overrides: seq<ModelOverride>, key: string)
    ensures (forall a, b :: Finishing(a, services) && Finishing(b, services) ==>
               Lookup(Merged(a, services, overrides), key) == Lookup(Merged(b, services, overrides), key))
            <==> Last(OverrideEntries(services, overrides), key).Some? || PublishedAlike(services, key)
  {
    var published := PublishedEntries(services);
    if Last(OverrideEntries(services, overrides), key).Some? || PublishedAlike(services, key) {
      forall a, b | Finishing(a, services) && Finishing(b, services)
        ensures Lookup(Merged(a, services, overrides), key) == Lookup(Merged(b, services, overrides), key)
      {
        OverridesWin(a, services, overrides, key);
        OverridesWin(b, services, overrides, key);
      }
    } else {
      var e, e' :| e in published && e' in published && e.0 == key && e'.0 == key && e != e';
      var i :| 0 <= i < |published| && published[i] == e;
      var j :| 0 <= j < |published| && published[j] == e';
      var a, b := MovedLast(published, i), MovedLast(published, j);
      assert Finishing(a, services) && Finishing(b, services);
      WithoutOverride(a, services, overrides, key);
      WithoutOverride(b, services, overrides, key);
      assert Lookup(Merged(a, services, overrides), key) == Some(e.1);
      assert Lookup(Merged(b, services, overrides), key) == Some(e'.1);
    }
  }

  lemma WithoutOverride(order: seq<Entry>, services: seq<PublishedService>, overrides: seq<ModelOverride>, key: string)
    requires Last(OverrideEntries(services, overrides), key).None?
    ensures Lookup(Merged(order, services, overrides), key) == Last(order, key)
  {
    LookupAfterSetting(map[], order, key);
    LookupAfterSetting(SetAll(map[], order), OverrideEntries(services, overrides), key);
  }

  ghost predicate DistinctKeys(entries: seq<Entry>) {
    forall i, j :: 0 <= i < j < |entries| ==> entries[i].0 != entries[j].0
  }

  lemma {:induction false} DistinctLookup(entries: seq<Entry>, e: Entry)
    requires DistinctKeys(entries) && e in entries
    ensures Last(entries, e.0) == Some(e.1)
  {
    var n := |entries| - 1;
    if entries[n].0 != e.0 {
      assert entries == entries[..n] + [entries[n]];
      DistinctLookup(entries[..n], e);
    } else {
      var i :| 0 <= i < |entries| && entries[i] == e;
      assert i == n;
    }
  }

  /** When the published keys are distinct, the merged spec is the same in whatever order the callbacks finish. */
  lemma PublishingOrderIsIrrelevant(order: seq<Entry>, services: seq<PublishedService>, overrides: seq<ModelOverride>)
    requires Finishing(order, services) && DistinctKeys(PublishedEntries(services))
    ensures Merged(order, services, overrides) == Merged(PublishedEntries(services), services, overrides)
  {
    var a, b := Merged(order, services, overrides), Merged(PublishedEntries(services), services, overrides);
    forall key ensures Lookup(a, key) == Lookup(b, key) {
      SameForDistinct(order, services, overrides, key);
    }
    SameLookups(a, b);
  }

  lemma SameLookups(a: Properties, b: Properties)
    requires forall key :: Lookup(a, key) == Lookup(b, key)
    ensures a == b
  {
    assert forall key :: key in a ==> Lookup(a, key) == Lookup(b, key);
    assert forall key :: key in b ==> Lookup(a, key) == Lookup(b, key);
  }

  lemma SameForDistinct(order: seq<Entry>, services: seq<PublishedService>, overrides: seq<ModelOverride>, key: string)
    requires Finishing(order, services) && DistinctKeys(PublishedEntries(services))
    ensures Lookup(Merged(order, services, overrides), key) == Lookup(Merged(PublishedEntries(services), services, overrides), key)
  {
    DistinctAreAlike(services, key);
    OrderIsIrrelevantIff(services, overrides, key);
  }

  lemma DistinctAreAlike(services: seq<PublishedService>, key: string)
    requires DistinctKeys(PublishedEntries(services))
    ensures PublishedAlike(services, key)
  {
    var published := PublishedEntries(services);
    forall e, e' | e in published && e' in published && e.0 == key && e'.0 == key ensures e == e' {
      DistinctLookup(published, e);
      DistinctLookup(published, e');
    }
  }
}
