/**
 The bulk read of apis/miot-bridge-api/src/services/DeviceCommandService.ts:93-192: requested keys are
 looked up in the merged spec, the ones found are read from the device, the others are reported.
 */
module BulkRead {
  import opened Wrappers
  import opened PollerEvents
  import opened SpecMerge

  const MIOT_PROPERTY_CODE_MISSING := -1

  datatype RawResult = RawResult(siid: int, piid: int, value: Reading, code: int)

  datatype KeyedResult = KeyedResult(key: string, siid: int, piid: int, source: Source, value: Reading, code: int)

  /** An unknown device, a spec that cannot be mapped, or a device that did not answer. */
  datatype ReadError = DeviceNotFound | SpecUnusable | DeviceFailed

  function Resolved(keys: seq<string>, spec: Properties): seq<string> {
    if keys == [] then []
    else
      var n := |keys| - 1;
      Resolved(keys[..n], spec) + (if keys[n] in spec then [keys[n]] else [])
  }

  function Unresolved(keys: seq<string>, spec: Properties): seq<string> {
    if keys == [] then []
    else
      var n := |keys| - 1;
      Unresolved(keys[..n], spec) + (if keys[n] in spec then [] else [keys[n]])
  }

  lemma {:induction false} ResolvedKeysAreInTheSpec(keys: seq<string>, spec: Properties)
    ensures forall k :: k in Resolved(keys, spec) <==> k in keys && k in spec
    ensures forall k :: k in Unresolved(keys, spec) <==> k in keys && k !in spec
  {
    if keys != [] {
      var n := |keys| - 1;
      ResolvedKeysAreInTheSpec(keys[..n], spec);
      assert keys == keys[..n] + [keys[n]];
    }
  }

  /** Every requested key is read or reported, as often as it was requested. */
  lemma {:induction false} KeysAreSplit(keys: seq<string>, spec: Properties)
    ensures multiset(Resolved(keys, spec)) + multiset(Unresolved(keys, spec)) == multiset(keys)
  {
    if keys != [] {
      var n := |keys| - 1;
      KeysAreSplit(keys[..n], spec);
      assert keys == keys[..n] + [keys[n]];
      if keys[n] in spec {
        assert Unresolved(keys, spec) == Unresolved(keys[..n], spec);
      } else {
        assert Resolved(keys, spec) == Resolved(keys[..n], spec);
      }
    }
  }

  /** `result` is what the first item with the property's ids says, or a missing-code if none has them. */
  ghost predicate ReportsFirstMatch(result: KeyedResult, key: string, spec: Properties, raw: seq<RawResult>)
    requires key in spec
  {
    var p := spec[key];
    && result.key == key && result.siid == p.siid && result.piid == p.piid && result.source == p.source
    && if exists i :: 0 <= i < |raw| && raw[i].siid == p.siid && raw[i].piid == p.piid then
         exists i :: 0 <= i < |raw| && raw[i].siid == p.siid && raw[i].piid == p.piid
                  && (forall j :: 0 <= j < i ==> raw[j].siid != p.siid || raw[j].piid != p.piid)
                  && result.value == raw[i].value && result.code == raw[i].code
       else result.value == None && result.code == -1
  }

  /** Results for exactly the resolved keys, in the order requested. */
  ghost predicate Reported(results: seq<KeyedResult>, keys: seq<string>, spec: Properties, raw: seq<RawResult>)
    requires forall k :: k in keys ==> k in spec
  {
    && |results| == |keys|
    && forall i :: 0 <= i < |keys| ==> ReportsFirstMatch(results[i], keys[i], spec, raw)
  }

  /** A warning names the device and the key it is about. */
  type Warning = (DeviceId, string)

  class DeviceCommandService {
    var unresolvedLogged: set<string>
    var unresolvedCount: nat        // the counter of unresolved properties
    ghost var warnings: seq<Warning>

    /** Each pair is warned about at most once, and the dedupe set is exactly the pairs warned about. */
    ghost predicate Valid()
      reads this
    {
      && (forall i, j :: 0 <= i < j < |warnings| ==> warnings[i] != warnings[j])
      && unresolvedLogged == set w | w in warnings :: CacheKey(w.0, w.1)
    }

    constructor ()
      ensures Valid() && warnings == [] && unresolvedCount == 0
    {
      unresolvedLogged, unresolvedCount, warnings := {}, 0, [];
    }

    /** Counts every unresolved key of every call, warns about each pair once per process. */
    method ReportUnresolvedProperties(storageId: DeviceId, unresolved: seq<string>)
      requires Valid()
      modifies this
      ensures Valid()
      ensures unresolvedCount == old(unresolvedCount) + |unresolved|
      ensures old(warnings) <= warnings
      ensures forall w :: w in warnings <==> w in old(warnings) || (w.0 == storageId && w.1 in unresolved)
    {
      if |unresolved| == 0 {
        return;
      }
      unresolvedCount := unresolvedCount + |unresolved|;
      for i := 0 to |unresolved|
        invariant Valid()
        invariant unresolvedCount == old(unresolvedCount) + |unresolved|
        invariant old(warnings) <= warnings
        invariant forall w :: w in warnings <==> w in old(warnings) || (w.0 == storageId && w.1 in unresolved[..i])
      {
        var key := unresolved[i];
        ghost var warning: Warning := (storageId, key);
        assert unresolved[..i + 1] == unresolved[..i] + [key];
        forall w: Warning ensures CacheKey(w.0, w.1) == CacheKey(storageId, key) <==> w == warning {
          CacheKeysAreDistinct(w.0, w.1, storageId, key);
        }
        var seen := CacheKey(storageId, key);
        if seen in unresolvedLogged {
          assert warning in warnings;
          continue;
        }
        unresolvedLogged := unresolvedLogged + {seen};
        assert warning !in warnings;
        warnings := warnings + [warning];
      }
      assert unresolved[..|unresolved|] == unresolved;
    }

    /** `device` is the device's answer to a read of the resolved properties, if it answers at all. */
    method GetProperties(storageId: DeviceId, known: bool, spec: Result<Properties, SpecError>, keys: seq<string>, device: Option<seq<RawResult>>)
        returns (r: Result<seq<KeyedResult>, ReadError>)
      requires Valid()
      modifies this
      ensures Valid()
      ensures !known || spec.Failure? ==>
                r == Failure(if known then SpecUnusable else DeviceNotFound)
                && warnings == old(warnings) && unresolvedCount == old(unresolvedCount)
      ensures known && spec.Success? ==>
                && unresolvedCount == old(unresolvedCount) + |Unresolved(keys, spec.value)|
                && old(warnings) <= warnings
                && (forall w :: w in warnings <==> w in old(warnings) || (w.0 == storageId && w.1 in keys && w.1 !in spec.value))
                && (r.Failure? <==> Resolved(keys, spec.value) != [] && device.None?)
      ensures r.Success? ==>
                && (forall k :: k in Resolved(keys, spec.value) ==> k in spec.value)
                && Reported(r.value, Resolved(keys, spec.value), spec.value, if device.Some? then device.value else [])
    {
      if !known {
        return Failure(DeviceNotFound);
      }
      if spec.Failure? {
        return Failure(SpecUnusable);
      }
      var props: seq<string> := [];
      var unresolved: seq<string> := [];
      for i := 0 to |keys|
        invariant props == Resolved(keys[..i], spec.value)
        invariant unresolved == Unresolved(keys[..i], spec.value)
      {
        assert keys[..i + 1][..i] == keys[..i];
        if keys[i] in spec.value {
          props := props + [keys[i]];
        } else {
          unresolved := unresolved + [keys[i]];
        }
      }
      assert keys[..|keys|] == keys;
      ResolvedKeysAreInTheSpec(keys, spec.value);
      ReportUnresolvedProperties(storageId, unresolved);
      if |props| == 0 {
        return Success([]);
      }
      if device.None? {
        return Failure(DeviceFailed);
      }
      var results := Collect(props, spec.value, device.value);
      return Success(results);
    }
  }

  method FindFirst(raw: seq<RawResult>, p: Property) returns (i: nat)
    ensures i <= |raw|
    ensures i < |raw| ==> (raw[i].siid == p.siid && raw[i].piid == p.piid)
    ensures forall j :: 0 <= j < i ==> !(raw[j].siid == p.siid && raw[j].piid == p.piid)
  {
    i := 0;
    while i < |raw| && !(raw[i].siid == p.siid && raw[i].piid == p.piid)
      invariant i <= |raw|
      invariant forall j :: 0 <= j < i ==> !(raw[j].siid == p.siid && raw[j].piid == p.piid)
    {
      i := i + 1;
    }
  }

  method Collect(keys: seq<string>, spec: Properties, raw: seq<RawResult>) returns (results: seq<KeyedResult>)
    requires forall k :: k in keys ==> k in spec
    ensures Reported(results, keys, spec, raw)
  {
    results := [];
    for i := 0 to |keys|
      invariant |results| == i
      invariant forall k :: 0 <= k < i ==> ReportsFirstMatch(results[k], keys[k], spec, raw)
    {
      var p := spec[keys[i]];
      var found := FindFirst(raw, p);
      var result :=
        if found < |raw| then KeyedResult(keys[i], p.siid, p.piid, p.source, raw[found].value, raw[found].code)
        else KeyedResult(keys[i], p.siid, p.piid, p.source, None, MIOT_PROPERTY_CODE_MISSING);
      assert ReportsFirstMatch(result, keys[i], spec, raw);
      results := results + [result];
    }
  }
}
