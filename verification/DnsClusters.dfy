/**
 Grouping of DNS records into server clusters (ui/homelab-dashboard-ui/src/lib/parseDns.ts). The
 server pattern, lower-casing, the subnet of an address and locale order are parameters.
 */
module DnsClusters {
  import opened Wrappers

  datatype Record = Record(key: Option<string>, value: string, recordType: string, enabled: Option<bool>)

  datatype Service = Service(name: string, hostname: string, url: string)

  datatype Cluster = Cluster(index: int, ip: string, services: seq<Service>)

  datatype Anchor = Anchor(index: int, ip: string, hostname: string)

  /**
   `capture` is the number a key captures if it matches the server pattern. `rank` stands for locale
   order: strings are countable, so every total preorder of them is the order of some rank.
   */
  datatype Config = Config(
    capture: string -> Option<int>,
    lower: string -> string,
    subnet: string -> string,
    rank: string -> real,
    scheme: string,
    excluded: set<string>,
    paths: Option<map<string, string>>)

  // ---------- one record ----------

  function Key(r: Record): string {
    if r.key.Some? then r.key.value else ""
  }

  predicate Enabled(r: Record) {
    r.enabled != Some(false)
  }

  function FirstLabel(hostname: string): string {
    if hostname == "" || hostname[0] == '.' then "" else [hostname[0]] + FirstLabel(hostname[1..])
  }

  function ResolvePath(hostname: string, paths: Option<map<string, string>>): string {
    if paths.None? then ""
    else if hostname in paths.value then paths.value[hostname]
    else
      var first := FirstLabel(hostname);
      if first in paths.value then paths.value[first] else ""
  }

  function ServiceOf(r: Record, cfg: Config): Service {
    var hostname := cfg.lower(Key(r));
    Service(FirstLabel(hostname), hostname, cfg.scheme + "://" + hostname + ResolvePath(hostname, cfg.paths))
  }

  predicate IsAnchor(r: Record, cfg: Config) {
    Enabled(r) && r.recordType == "A" && cfg.capture(Key(r)).Some?
  }

  function AnchorOf(r: Record, cfg: Config): Anchor
    requires IsAnchor(r, cfg)
  {
    Anchor(cfg.capture(Key(r)).value, r.value, cfg.lower(Key(r)))
  }

  function Anchors(records: seq<Record>, cfg: Config): seq<Anchor> {
    if records == [] then []
    else
      var n := |records| - 1;
      Anchors(records[..n], cfg) + (if IsAnchor(records[n], cfg) then [AnchorOf(records[n], cfg)] else [])
  }

  method FindAnchors(records: seq<Record>, cfg: Config) returns (anchors: seq<Anchor>)
    ensures anchors == Anchors(records, cfg)
  {
    anchors := [];
    for i := 0 to |records|
      invariant anchors == Anchors(records[..i], cfg)
    {
      assert records[..i + 1][..i] == records[..i];
      var r := records[i];
      if r.enabled == Some(false) || r.recordType != "A" {
        continue;
      }
      var m := cfg.capture(Key(r));
      if m.Some? {
        anchors := anchors + [Anchor(m.value, r.value, cfg.lower(Key(r)))];
      }
    }
    assert records[..|records|] == records;
  }

  // ---------- where a record belongs ----------

  /** The last anchor with this address decides. */
  function IndexByIp(anchors: seq<Anchor>, ip: string): Option<int> {
    if anchors == [] then None
    else if anchors[|anchors| - 1].ip == ip then Some(anchors[|anchors| - 1].index)
    else IndexByIp(anchors[..|anchors| - 1], ip)
  }

  function IndexByHost(anchors: seq<Anchor>, hostname: string): Option<int> {
    if anchors == [] then None
    else if anchors[|anchors| - 1].hostname == hostname then Some(anchors[|anchors| - 1].index)
    else IndexByHost(anchors[..|anchors| - 1], hostname)
  }

  /** The anchor a record points at: by address, or by the target of its alias. */
  function Target(r: Record, anchors: seq<Anchor>, cfg: Config): Option<int> {
    if r.recordType == "A" then IndexByIp(anchors, r.value)
    else if r.recordType == "CNAME" then IndexByHost(anchors, cfg.lower(r.value))
    else None
  }

  /** The cluster a record is shown in, if it is shown at all. */
  function Home(r: Record, anchors: seq<Anchor>, cfg: Config): Option<int> {
    if !Enabled(r) || cfg.capture(Key(r)).Some? || cfg.lower(Key(r)) in cfg.excluded then None
    else Target(r, anchors, cfg)
  }

  function ServicesFor(records: seq<Record>, anchors: seq<Anchor>, cfg: Config, index: int): seq<Service> {
    if records == [] then []
    else
      var n := |records| - 1;
      ServicesFor(records[..n], anchors, cfg, index) +
      (if Home(records[n], anchors, cfg) == Some(index) then [ServiceOf(records[n], cfg)] else [])
  }

  /** Every record that is shown anywhere, in order. */
  function AllServices(records: seq<Record>, anchors: seq<Anchor>, cfg: Config): seq<Service> {
    if records == [] then []
    else
      var n := |records| - 1;
      AllServices(records[..n], anchors, cfg) +
      (if Home(records[n], anchors, cfg).Some? then [ServiceOf(records[n], cfg)] else [])
  }

  lemma {:induction false} IndexesExist(anchors: seq<Anchor>, s: string)
    ensures IndexByIp(anchors, s).Some? ==> exists a :: a in anchors && a.index == IndexByIp(anchors, s).value
    ensures IndexByHost(anchors, s).Some? ==> exists a :: a in anchors && a.index == IndexByHost(anchors, s).value
  {
    if anchors != [] {
      var last := anchors[|anchors| - 1];
      assert last in anchors;
      IndexesExist(anchors[..|anchors| - 1], s);
      assert forall a :: a in anchors[..|anchors| - 1] ==> a in anchors;
    }
  }

  ghost predicate Ascending(order: seq<int>) {
    forall i, j :: 0 <= i < j < |order| ==> order[i] < order[j]
  }

  ghost predicate Covers(order: seq<int>, anchors: seq<Anchor>) {
    forall i :: i in order <==> HasIndex(anchors, i)
  }

  ghost predicate HasIndex(anchors: seq<Anchor>, index: int) {
    exists a :: a in anchors && a.index == index
  }

  lemma HasIndexOneMore(anchors: seq<Anchor>, k: nat, index: int)
    requires k < |anchors|
    ensures HasIndex(anchors[..k + 1], index) <==> HasIndex(anchors[..k], index) || anchors[k].index == index
  {
    assert anchors[..k + 1] == anchors[..k] + [anchors[k]];
    if HasIndex(anchors[..k], index) {
      var a :| a in anchors[..k] && a.index == index;
      assert a in anchors[..k + 1];
    }
    assert anchors[k] in anchors[..k + 1];
  }

  /** `[...anchors].sort(...)` by index, as an ascending list without repetitions: the keys of the cluster map in order. */
  method OrderedIndexes(anchors: seq<Anchor>) returns (order: seq<int>)
    ensures Ascending(order) && Covers(order, anchors)
  {
    order := [];
    for k := 0 to |anchors|
      invariant Ascending(order)
      invariant Covers(order, anchors[..k])
    {
      var index := anchors[k].index;
      var at := 0;
      while at < |order| && order[at] < index
        invariant at <= |order|
        invariant forall i :: 0 <= i < at ==> order[i] < index
      {
        at := at + 1;
      }
      ghost var before := order;
      if at == |order| || order[at] != index {
        order := order[..at] + [index] + order[at..];
      }
      assert forall i :: i in order <==> i in before || i == index;
      forall i { HasIndexOneMore(anchors, k, i); }
    }
    assert anchors[..|anchors|] == anchors;
  }

  method AssignServices(records: seq<Record>, anchors: seq<Anchor>, cfg: Config) returns (order: seq<int>, clusterMap: map<int, seq<Service>>)
    ensures Ascending(order) && Covers(order, anchors)
    ensures forall i :: i in clusterMap <==> i in order
    ensures forall i :: i in clusterMap ==> clusterMap[i] == ServicesFor(records, anchors, cfg, i)
  {
    var ipToIndex: map<string, int> := map[];
    var hostToIndex: map<string, int> := map[];
    for k := 0 to |anchors|
      invariant forall s :: IndexByIp(anchors[..k], s) == if s in ipToIndex then Some(ipToIndex[s]) else None
      invariant forall s :: IndexByHost(anchors[..k], s) == if s in hostToIndex then Some(hostToIndex[s]) else None
    {
      assert anchors[..k + 1][..k] == anchors[..k];
      ipToIndex := ipToIndex[anchors[k].ip := anchors[k].index];
      hostToIndex := hostToIndex[anchors[k].hostname := anchors[k].index];
    }
    assert anchors[..|anchors|] == anchors;
    order := OrderedIndexes(anchors);
    clusterMap := map i | i in order :: [];
    for k := 0 to |records|
      invariant forall i :: i in clusterMap <==> i in order
      invariant forall i :: i in clusterMap ==> clusterMap[i] == ServicesFor(records[..k], anchors, cfg, i)
    {
      assert records[..k + 1][..k] == records[..k];
      var r := records[k];
      if r.enabled == Some(false) {
        continue;
      }
      var key := Key(r);
      if cfg.capture(key).Some? {
        continue;
      }
      var targetIdx: Option<int> := None;
      if r.recordType == "A" {
        targetIdx := if r.value in ipToIndex then Some(ipToIndex[r.value]) else None;
      } else if r.recordType == "CNAME" {
        var target := cfg.lower(r.value);
        targetIdx := if target in hostToIndex then Some(hostToIndex[target]) else None;
      }
      assert targetIdx == Target(r, anchors, cfg);
      if targetIdx.None? {
        continue;
      }
      TargetIsCovered(r, anchors, cfg, order);
      var hostname := cfg.lower(key);
      if hostname in cfg.excluded {
        continue;
      }
      var service := Service(FirstLabel(hostname), hostname, cfg.scheme + "://" + hostname + ResolvePath(hostname, cfg.paths));
      clusterMap := clusterMap[targetIdx.value := clusterMap[targetIdx.value] + [service]];
    }
    assert records[..|records|] == records;
  }

  lemma TargetIsCovered(r: Record, anchors: seq<Anchor>, cfg: Config, order: seq<int>)
    requires Covers(order, anchors) && Target(r, anchors, cfg).Some?
    ensures Target(r, anchors, cfg).value in order
  {
    assert HasIndex(anchors, Target(r, anchors, cfg).value) by {
      IndexesExist(anchors, r.value);
      IndexesExist(anchors, cfg.lower(r.value));
    }
  }

  // ---------- the same in plain words ----------

  /**
   How a record is shown: under its lower-cased key, named by the first label of it, with the path configured for the
   whole host name or, failing that, for its first label.
   */
  lemma ServiceInPlainWords(r: Record, cfg: Config)
    ensures var s := ServiceOf(r, cfg);
            var host := cfg.lower(if r.key.Some? then r.key.value else "");
            && s.hostname == host
            && '.' !in s.name && (host == s.name || s.name + "." <= host)
            && s.url == cfg.scheme + "://" + host +
                 (if cfg.paths.None? then ""
                  else if host in cfg.paths.value then cfg.paths.value[host]
                  else if s.name in cfg.paths.value then cfg.paths.value[s.name] else "")
  {
    FirstLabelEndsAtADot(cfg.lower(Key(r)));
  }

  lemma {:induction false} FirstLabelEndsAtADot(host: string)
    ensures var first := FirstLabel(host); '.' !in first && (host == first || first + "." <= host)
  {
    if host != "" && host[0] != '.' {
      FirstLabelEndsAtADot(host[1..]);
      assert host == [host[0]] + host[1..];
    }
  }

  /** The record is an anchor, and the other one an address record of its address or an alias of its name. */
  ghost predicate PointsAt(r: Record, anchor: Record, cfg: Config) {
    var name := if anchor.key.Some? then anchor.key.value else "";
    && anchor.enabled != Some(false) && anchor.recordType == "A" && cfg.capture(name).Some?
    && ((r.recordType == "A" && anchor.value == r.value)
        || (r.recordType == "CNAME" && cfg.lower(name) == cfg.lower(r.value)))
  }

  /** The last anchor the record points at. */
  ghost predicate LastAnchor(r: Record, records: seq<Record>, cfg: Config, k: nat)
    requires k < |records|
  {
    PointsAt(r, records[k], cfg) && forall j :: k < j < |records| ==> !PointsAt(r, records[j], cfg)
  }

  /**
   Where a record is shown: if it is enabled, neither named like an anchor nor excluded, and points at some anchor, then
   in the cluster of the last anchor it points at.
   */
  lemma HomeInPlainWords(r: Record, records: seq<Record>, cfg: Config)
    ensures var home := Home(r, Anchors(records, cfg), cfg);
            var name := if r.key.Some? then r.key.value else "";
            if r.enabled != Some(false) && cfg.capture(name).None? && cfg.lower(name) !in cfg.excluded
               && exists k :: 0 <= k < |records| && PointsAt(r, records[k], cfg)
            then exists k :: 0 <= k < |records| && LastAnchor(r, records, cfg, k)
                          && home == cfg.capture(if records[k].key.Some? then records[k].key.value else "")
            else home == None
  {
    TargetInPlainWords(r, records, cfg);
  }

  lemma {:induction false} TargetInPlainWords(r: Record, records: seq<Record>, cfg: Config)
    ensures var target := Target(r, Anchors(records, cfg), cfg);
            if exists k :: 0 <= k < |records| && PointsAt(r, records[k], cfg)
            then exists k :: 0 <= k < |records| && LastAnchor(r, records, cfg, k)
                          && target == cfg.capture(if records[k].key.Some? then records[k].key.value else "")
            else target == None
    decreases |records|
  {
    if records != [] {
      var n := |records| - 1;
      if PointsAt(r, records[n], cfg) {
        TargetIsTheLast(r, records, cfg);
        assert LastAnchor(r, records, cfg, n);
      } else {
        TargetInPlainWords(r, records[..n], cfg);
        TargetOneMore(r, records, cfg);
        forall k | 0 <= k < n ensures PointsAt(r, records[k], cfg) <==> PointsAt(r, records[..n][k], cfg) {
        }
        forall k | 0 <= k < n && LastAnchor(r, records[..n], cfg, k) ensures LastAnchor(r, records, cfg, k) {
        }
      }
    }
  }

  lemma TargetIsTheLast(r: Record, records: seq<Record>, cfg: Config)
    requires records != [] && PointsAt(r, records[|records| - 1], cfg)
    ensures Target(r, Anchors(records, cfg), cfg) == cfg.capture(Key(records[|records| - 1]))
  {
    var n := |records| - 1;
    assert Anchors(records, cfg) == Anchors(records[..n], cfg) + [AnchorOf(records[n], cfg)];
  }

  lemma TargetOneMore(r: Record, records: seq<Record>, cfg: Config)
    requires records != [] && !PointsAt(r, records[|records| - 1], cfg)
    ensures Target(r, Anchors(records, cfg), cfg) == Target(r, Anchors(records[..|records| - 1], cfg), cfg)
  {
    var n := |records| - 1;
    var before, after := Anchors(records[..n], cfg), Anchors(records, cfg);
    if IsAnchor(records[n], cfg) {
      assert after == before + [AnchorOf(records[n], cfg)];
      assert after[..|after| - 1] == before;
    } else {
      assert after == before;
    }
  }

  /** Without anchors: exactly the enabled address records whose names are not excluded are shown. */
  lemma {:induction false} FallbackInPlainWords(records: seq<Record>, cfg: Config, s: Service)
    ensures s in FallbackServices(records, cfg) <==>
              exists r :: r in records && r.recordType == "A" && r.enabled != Some(false)
                       && cfg.lower(if r.key.Some? then r.key.value else "") !in cfg.excluded && s == ServiceOf(r, cfg)
  {
    if records != [] {
      var n := |records| - 1;
      FallbackInPlainWords(records[..n], cfg, s);
      assert records == records[..n] + [records[n]];
    }
  }

  /** With anchors: exactly the records that have a home are shown, and each in the cluster that is its home. */
  lemma {:induction false} ShownInPlainWords(records: seq<Record>, anchors: seq<Anchor>, cfg: Config, index: int, s: Service)
    ensures s in ServicesFor(records, anchors, cfg, index) <==>
              exists r :: r in records && Home(r, anchors, cfg) == Some(index) && s == ServiceOf(r, cfg)
    ensures s in AllServices(records, anchors, cfg) <==>
              exists r :: r in records && Home(r, anchors, cfg).Some? && s == ServiceOf(r, cfg)
  {
    if records != [] {
      var n := |records| - 1;
      ShownInPlainWords(records[..n], anchors, cfg, index, s);
      assert records == records[..n] + [records[n]];
    }
  }

  // ---------- sorting by name ----------

  ghost predicate SortedByName(s: seq<Service>, rank: string -> real) {
    forall i, j :: 0 <= i < j < |s| ==> rank(s[i].name) <= rank(s[j].name)
  }

  /** Stable insertion from the right. */
  function Insert(s: seq<Service>, x: Service, rank: string -> real): (r: seq<Service>)
    ensures multiset(r) == multiset(s) + multiset{x}
  {
    if s == [] then [x]
    else
      var n := |s| - 1;
      assert s == s[..n] + [s[n]];
      if rank(s[n].name) <= rank(x.name) then s + [x] else Insert(s[..n], x, rank) + [s[n]]
  }

  /** `sort` by name. */
  function SortByName(s: seq<Service>, rank: string -> real): (r: seq<Service>)
    ensures multiset(r) == multiset(s)
  {
    if s == [] then []
    else
      assert s == s[..|s| - 1] + [s[|s| - 1]];
      Insert(SortByName(s[..|s| - 1], rank), s[|s| - 1], rank)
  }

  lemma {:induction false} InsertKeepsOrder(s: seq<Service>, x: Service, rank: string -> real)
    requires SortedByName(s, rank)
    ensures SortedByName(Insert(s, x, rank), rank)
  {
    if s != [] && rank(s[|s| - 1].name) > rank(x.name) {
      var n := |s| - 1;
      InsertKeepsOrder(s[..n], x, rank);
      var r := Insert(s[..n], x, rank);
      forall i | 0 <= i < |r| ensures rank(r[i].name) <= rank(s[n].name) {
        assert r[i] in multiset(r);
        assert r[i] in s[..n] || r[i] == x;
      }
    }
  }

  lemma {:induction false} SortingSorts(s: seq<Service>, rank: string -> real)
    ensures SortedByName(SortByName(s, rank), rank)
  {
    if s != [] {
      SortingSorts(s[..|s| - 1], rank);
      InsertKeepsOrder(SortByName(s[..|s| - 1], rank), s[|s| - 1], rank);
    }
  }

  // ---------- the clusters ----------

  /** All services of a list of clusters, counted. */
  function Shown(clusters: seq<Cluster>): multiset<Service> {
    if clusters == [] then multiset{}
    else Shown(clusters[..|clusters| - 1]) + multiset(clusters[|clusters| - 1].services)
  }

  lemma ShownOneMore(clusters: seq<Cluster>, c: Cluster)
    ensures Shown(clusters + [c]) == Shown(clusters) + multiset(c.services)
  {
    assert (clusters + [c])[..|clusters|] == clusters;
  }

  /** The services of the listed indexes together. */
  ghost function Collected(order: seq<int>, records: seq<Record>, anchors: seq<Anchor>, cfg: Config): multiset<Service> {
    if order == [] then multiset{}
    else Collected(order[..|order| - 1], records, anchors, cfg)
         + multiset(ServicesFor(records, anchors, cfg, order[|order| - 1]))
  }

  lemma CollectedOneMore(order: seq<int>, k: nat, records: seq<Record>, anchors: seq<Anchor>, cfg: Config)
    requires k < |order|
    ensures Collected(order[..k + 1], records, anchors, cfg)
         == Collected(order[..k], records, anchors, cfg) + multiset(ServicesFor(records, anchors, cfg, order[k]))
  {
    assert order[..k + 1][..k] == order[..k];
  }

  lemma {:induction false} NothingCollectedWithoutRecords(order: seq<int>, anchors: seq<Anchor>, cfg: Config)
    ensures Collected(order, [], anchors, cfg) == multiset{}
  {
    if order != [] {
      NothingCollectedWithoutRecords(order[..|order| - 1], anchors, cfg);
    }
  }

  /** One more record adds its service to what is collected, once, if its home is among the indexes. */
  lemma {:induction false} OneMoreRecord(order: seq<int>, records: seq<Record>, anchors: seq<Anchor>, cfg: Config)
    requires records != [] && Ascending(order)
    ensures var n := |records| - 1;
            var home := Home(records[n], anchors, cfg);
            Collected(order, records, anchors, cfg) ==
              Collected(order, records[..n], anchors, cfg) +
              (if home.Some? && home.value in order then multiset{ServiceOf(records[n], cfg)} else multiset{})
  {
    if order != [] {
      var m := |order| - 1;
      OneMoreRecord(order[..m], records, anchors, cfg);
      ServicesOneMore(records, anchors, cfg, order[m]);
      LastIsNew(order);
    }
  }

  lemma ServicesOneMore(records: seq<Record>, anchors: seq<Anchor>, cfg: Config, index: int)
    requires records != []
    ensures var n := |records| - 1;
            multiset(ServicesFor(records, anchors, cfg, index)) ==
              multiset(ServicesFor(records[..n], anchors, cfg, index)) +
              (if Home(records[n], anchors, cfg) == Some(index) then multiset{ServiceOf(records[n], cfg)} else multiset{})
  {
    var n := |records| - 1;
    var before := ServicesFor(records[..n], anchors, cfg, index);
    if Home(records[n], anchors, cfg) == Some(index) {
      assert ServicesFor(records, anchors, cfg, index) == before + [ServiceOf(records[n], cfg)];
    } else {
      assert ServicesFor(records, anchors, cfg, index) == before;
    }
  }

  lemma LastIsNew(order: seq<int>)
    requires order != [] && Ascending(order)
    ensures var m := |order| - 1;
            order[m] !in order[..m] && forall i :: i in order <==> i in order[..m] || i == order[m]
  {
    var m := |order| - 1;
    assert order == order[..m] + [order[m]];
  }

  /** Collecting the services of all anchors loses and duplicates nothing. */
  lemma {:induction false} CollectedIsEverything(order: seq<int>, records: seq<Record>, anchors: seq<Anchor>, cfg: Config)
    requires Ascending(order) && Covers(order, anchors)
    ensures Collected(order, records, anchors, cfg) == multiset(AllServices(records, anchors, cfg))
  {
    if records == [] {
      NothingCollectedWithoutRecords(order, anchors, cfg);
    } else {
      var n := |records| - 1;
      CollectedIsEverything(order, records[..n], anchors, cfg);
      OneMoreRecord(order, records, anchors, cfg);
      if Home(records[n], anchors, cfg).Some? {
        TargetIsCovered(records[n], anchors, cfg, order);
      }
    }
  }

  /** A cluster has services: exactly those at home in it, sorted by name. */
  ghost predicate WellFilled(c: Cluster, records: seq<Record>, anchors: seq<Anchor>, cfg: Config) {
    && c.services != []
    && SortedByName(c.services, cfg.rank)
    && multiset(c.services) == multiset(ServicesFor(records, anchors, cfg, c.index))
    && IpOf(anchors, c.index) == Some(c.ip)
  }

  /** Clusters ascend by index. */
  ghost predicate WellClustered(clusters: seq<Cluster>, records: seq<Record>, anchors: seq<Anchor>, cfg: Config) {
    && (forall i, j :: 0 <= i < j < |clusters| ==> clusters[i].index < clusters[j].index)
    && (forall i :: 0 <= i < |clusters| ==> WellFilled(clusters[i], records, anchors, cfg))
  }

  /** The clusters so far, all below the index to come. */
  ghost predicate ClusteredBelow(clusters: seq<Cluster>, order: seq<int>, k: nat, records: seq<Record>, anchors: seq<Anchor>, cfg: Config) {
    && WellClustered(clusters, records, anchors, cfg)
    && (k < |order| ==> forall i :: 0 <= i < |clusters| ==> clusters[i].index < order[k])
  }

  lemma OneMoreCluster(clusters: seq<Cluster>, c: Cluster, order: seq<int>, k: nat, records: seq<Record>, anchors: seq<Anchor>, cfg: Config)
    requires k < |order| && Ascending(order) && c.index == order[k]
    requires ClusteredBelow(clusters, order, k, records, anchors, cfg)
    ensures ClusteredBelow(clusters, order, k + 1, records, anchors, cfg)
    ensures WellFilled(c, records, anchors, cfg) ==> ClusteredBelow(clusters + [c], order, k + 1, records, anchors, cfg)
  {
  }

  /** The address of the last anchor with this index. */
  function IpOf(anchors: seq<Anchor>, index: int): Option<string> {
    if anchors == [] then None
    else if anchors[|anchors| - 1].index == index then Some(anchors[|anchors| - 1].ip)
    else IpOf(anchors[..|anchors| - 1], index)
  }

  lemma {:induction false} IpInPlainWords(anchors: seq<Anchor>, index: int)
    ensures if exists k :: 0 <= k < |anchors| && anchors[k].index == index
            then exists k :: 0 <= k < |anchors| && anchors[k].index == index && IpOf(anchors, index) == Some(anchors[k].ip)
                          && forall j :: k < j < |anchors| ==> anchors[j].index != index
            else IpOf(anchors, index) == None
  {
    if anchors != [] && anchors[|anchors| - 1].index != index {
      IpInPlainWords(anchors[..|anchors| - 1], index);
      assert forall k :: 0 <= k < |anchors| - 1 ==> anchors[..|anchors| - 1][k] == anchors[k];
    }
  }

  lemma {:induction false} AnchoredIndexHasIp(anchors: seq<Anchor>, a: Anchor)
    requires a in anchors
    ensures IpOf(anchors, a.index).Some?
  {
    var n := |anchors| - 1;
    if anchors[n].index != a.index {
      assert anchors == anchors[..n] + [anchors[n]];
      AnchoredIndexHasIp(anchors[..n], a);
    }
  }

  method IpByIndex(anchors: seq<Anchor>) returns (ipByIndex: map<int, string>)
    ensures forall i :: IpOf(anchors, i) == if i in ipByIndex then Some(ipByIndex[i]) else None
  {
    ipByIndex := map[];
    for k := 0 to |anchors|
      invariant forall i :: IpOf(anchors[..k], i) == if i in ipByIndex then Some(ipByIndex[i]) else None
    {
      assert anchors[..k + 1][..k] == anchors[..k];
      ipByIndex := ipByIndex[anchors[k].index := anchors[k].ip];
    }
    assert anchors[..|anchors|] == anchors;
  }

  method ParseAnchored(records: seq<Record>, anchors: seq<Anchor>, cfg: Config) returns (clusters: seq<Cluster>)
    ensures WellClustered(clusters, records, anchors, cfg)
    ensures Shown(clusters) == multiset(AllServices(records, anchors, cfg))
  {
    var order, clusterMap := AssignServices(records, anchors, cfg);
    var ipByIndex := IpByIndex(anchors);
    clusters := [];
    for k := 0 to |order|
      invariant ClusteredBelow(clusters, order, k, records, anchors, cfg)
      invariant Shown(clusters) == Collected(order[..k], records, anchors, cfg)
    {
      var idx := order[k];
      assert idx in order && HasIndex(anchors, idx);
      ghost var a :| a in anchors && a.index == idx;
      AnchoredIndexHasIp(anchors, a);
      CollectedOneMore(order, k, records, anchors, cfg);
      var services := SortByName(clusterMap[idx], cfg.rank);
      SortingSorts(clusterMap[idx], cfg.rank);
      var cluster := Cluster(idx, ipByIndex[idx], services);
      OneMoreCluster(clusters, cluster, order, k, records, anchors, cfg);
      if |services| > 0 {
        ShownOneMore(clusters, cluster);
        clusters := clusters + [cluster];
      }
    }
    assert order[..|order|] == order;
    CollectedIsEverything(order, records, anchors, cfg);
  }

  // ---------- no anchors: one cluster per subnet ----------

  predicate InFallback(r: Record) {
    r.recordType == "A" && Enabled(r)
  }

  predicate ShownInFallback(r: Record, cfg: Config) {
    InFallback(r) && cfg.lower(Key(r)) !in cfg.excluded
  }

  function SubnetServices(records: seq<Record>, cfg: Config, subnet: string): seq<Service> {
    if records == [] then []
    else
      var n := |records| - 1;
      SubnetServices(records[..n], cfg, subnet) +
      (if ShownInFallback(records[n], cfg) && cfg.subnet(records[n].value) == subnet then [ServiceOf(records[n], cfg)] else [])
  }

  function FallbackServices(records: seq<Record>, cfg: Config): seq<Service> {
    if records == [] then []
    else
      var n := |records| - 1;
      FallbackServices(records[..n], cfg) + (if ShownInFallback(records[n], cfg) then [ServiceOf(records[n], cfg)] else [])
  }

  /** Subnets in the order in which they first appear. */
  function Subnets(records: seq<Record>, cfg: Config): seq<string> {
    if records == [] then []
    else
      var n := |records| - 1;
      var before := Subnets(records[..n], cfg);
      if InFallback(records[n]) && cfg.subnet(records[n].value) !in before then before + [cfg.subnet(records[n].value)] else before
  }

  ghost function SubnetsCollected(subnets: seq<string>, records: seq<Record>, cfg: Config): multiset<Service> {
    if subnets == [] then multiset{}
    else SubnetsCollected(subnets[..|subnets| - 1], records, cfg)
         + multiset(SubnetServices(records, cfg, subnets[|subnets| - 1]))
  }

  lemma SubnetsCollectedOneMore(subnets: seq<string>, k: nat, records: seq<Record>, cfg: Config)
    requires k < |subnets|
    ensures SubnetsCollected(subnets[..k + 1], records, cfg)
         == SubnetsCollected(subnets[..k], records, cfg) + multiset(SubnetServices(records, cfg, subnets[k]))
  {
    assert subnets[..k + 1][..k] == subnets[..k];
  }

  method GroupBySubnet(records: seq<Record>, cfg: Config) returns (subnets: seq<string>, groups: map<string, seq<Service>>)
    ensures subnets == Subnets(records, cfg)
    ensures forall s :: s in groups <==> s in subnets
    ensures forall s :: s in groups ==> groups[s] == SubnetServices(records, cfg, s)
  {
    subnets, groups := [], map[];
    for k := 0 to |records|
      invariant subnets == Subnets(records[..k], cfg)
      invariant forall s :: s in groups <==> s in subnets
      invariant forall s :: s in groups ==> groups[s] == SubnetServices(records[..k], cfg, s)
    {
      assert records[..k + 1][..k] == records[..k];
      var r := records[k];
      if r.recordType != "A" || r.enabled == Some(false) {
        continue;
      }
      var subnet := cfg.subnet(r.value);
      if subnet !in groups {
        NothingInUnseenSubnet(records[..k], cfg, subnet);
        groups := groups[subnet := []];
        subnets := subnets + [subnet];
      }
      var hostname := cfg.lower(Key(r));
      if hostname in cfg.excluded {
        continue;
      }
      var service := Service(FirstLabel(hostname), hostname, cfg.scheme + "://" + hostname + ResolvePath(hostname, cfg.paths));
      groups := groups[subnet := groups[subnet] + [service]];
    }
    assert records[..|records|] == records;
  }

  /** The i-th cluster of the fallback: numbered from 1, one subnet, everything shown of it. */
  ghost predicate FallbackCluster(c: Cluster, i: nat, subnet: string, records: seq<Record>, cfg: Config) {
    && c.index == i + 1
    && c.ip == subnet + ".x"
    && SortedByName(c.services, cfg.rank)
    && multiset(c.services) == multiset(SubnetServices(records, cfg, subnet))
  }

  ghost predicate FallbackClusters(clusters: seq<Cluster>, subnets: seq<string>, records: seq<Record>, cfg: Config) {
    && |clusters| == |subnets|
    && forall i :: 0 <= i < |clusters| ==> FallbackCluster(clusters[i], i, subnets[i], records, cfg)
  }

  lemma OneMoreFallbackCluster(clusters: seq<Cluster>, c: Cluster, subnets: seq<string>, k: nat, records: seq<Record>, cfg: Config)
    requires k < |subnets| && FallbackClusters(clusters, subnets[..k], records, cfg)
    requires FallbackCluster(c, k, subnets[k], records, cfg)
    ensures FallbackClusters(clusters + [c], subnets[..k + 1], records, cfg)
  {
  }

  method FallbackBySubnet(records: seq<Record>, cfg: Config) returns (clusters: seq<Cluster>)
    ensures FallbackClusters(clusters, Subnets(records, cfg), records, cfg)
    ensures Shown(clusters) == multiset(FallbackServices(records, cfg))
  {
    var subnets, groups := GroupBySubnet(records, cfg);
    clusters := [];
    for k := 0 to |subnets|
      invariant FallbackClusters(clusters, subnets[..k], records, cfg)
      invariant Shown(clusters) == SubnetsCollected(subnets[..k], records, cfg)
    {
      assert subnets[k] in subnets;
      SubnetsCollectedOneMore(subnets, k, records, cfg);
      var services := SortByName(groups[subnets[k]], cfg.rank);
      SortingSorts(groups[subnets[k]], cfg.rank);
      var cluster := Cluster(k + 1, subnets[k] + ".x", services);
      OneMoreFallbackCluster(clusters, cluster, subnets, k, records, cfg);
      ShownOneMore(clusters, cluster);
      clusters := clusters + [cluster];
    }
    assert subnets[..|subnets|] == subnets;
    FallbackCollectsEverything(records, cfg);
  }

  lemma {:induction false} NothingInUnseenSubnet(records: seq<Record>, cfg: Config, subnet: string)
    requires subnet !in Subnets(records, cfg)
    ensures SubnetServices(records, cfg, subnet) == []
  {
    if records != [] {
      NothingInUnseenSubnet(records[..|records| - 1], cfg, subnet);
    }
  }

  ghost predicate Distinct(s: seq<string>) {
    forall i, j :: 0 <= i < j < |s| ==> s[i] != s[j]
  }

  lemma {:induction false} SubnetsAreDistinct(records: seq<Record>, cfg: Config)
    ensures Distinct(Subnets(records, cfg))
  {
    if records != [] {
      var before := Subnets(records[..|records| - 1], cfg);
      SubnetsAreDistinct(records[..|records| - 1], cfg);
      assert forall i :: 0 <= i < |before| ==> before[i] in before;
    }
  }

  lemma {:induction false} OneMoreFallbackRecord(subnets: seq<string>, records: seq<Record>, cfg: Config)
    requires records != [] && Distinct(subnets)
    ensures var r := records[|records| - 1];
            SubnetsCollected(subnets, records, cfg) ==
              SubnetsCollected(subnets, records[..|records| - 1], cfg) +
              (if ShownInFallback(r, cfg) && cfg.subnet(r.value) in subnets then multiset{ServiceOf(r, cfg)} else multiset{})
  {
    if subnets != [] {
      var m, n := |subnets| - 1, |records| - 1;
      OneMoreFallbackRecord(subnets[..m], records, cfg);
      assert forall s :: s in subnets <==> s in subnets[..m] || s == subnets[m];
      assert subnets[m] !in subnets[..m];
      var before, after := SubnetServices(records[..n], cfg, subnets[m]), SubnetServices(records, cfg, subnets[m]);
      if ShownInFallback(records[n], cfg) && cfg.subnet(records[n].value) == subnets[m] {
        assert multiset(after) == multiset(before) + multiset{ServiceOf(records[n], cfg)};
      } else {
        assert after == before;
      }
    }
  }

  /** A record's subnet is listed; a newly listed one held nothing before. */
  lemma SubnetsGrow(records: seq<Record>, cfg: Config)
    requires records != []
    ensures var n := |records| - 1;
            && SubnetsCollected(Subnets(records, cfg), records[..n], cfg) == SubnetsCollected(Subnets(records[..n], cfg), records[..n], cfg)
            && (InFallback(records[n]) ==> cfg.subnet(records[n].value) in Subnets(records, cfg))
  {
    var n := |records| - 1;
    var before, after := Subnets(records[..n], cfg), Subnets(records, cfg);
    if after != before {
      var k := |before|;
      assert after[..k] == before && after[..k + 1] == after;
      SubnetsCollectedOneMore(after, k, records[..n], cfg);
      NothingInUnseenSubnet(records[..n], cfg, after[k]);
    }
  }

  /** The fallback shows every enabled, non-excluded address record exactly once. */
  lemma {:induction false} FallbackCollectsEverything(records: seq<Record>, cfg: Config)
    ensures SubnetsCollected(Subnets(records, cfg), records, cfg) == multiset(FallbackServices(records, cfg))
  {
    if records != [] {
      var n := |records| - 1;
      var before, after := Subnets(records[..n], cfg), Subnets(records, cfg);
      FallbackCollectsEverything(records[..n], cfg);
      SubnetsAreDistinct(records, cfg);
      OneMoreFallbackRecord(after, records, cfg);
      SubnetsGrow(records, cfg);
    }
  }

  method ParseDnsRecords(records: seq<Record>, cfg: Config) returns (clusters: seq<Cluster>)
    ensures Anchors(records, cfg) != [] ==>
              && WellClustered(clusters, records, Anchors(records, cfg), cfg)
              && Shown(clusters) == multiset(AllServices(records, Anchors(records, cfg), cfg))
    ensures Anchors(records, cfg) == [] ==>
              && FallbackClusters(clusters, Subnets(records, cfg), records, cfg)
              && Shown(clusters) == multiset(FallbackServices(records, cfg))
  {
    var anchors := FindAnchors(records, cfg);
    if |anchors| == 0 {
      clusters := FallbackBySubnet(records, cfg);
    } else {
      clusters := ParseAnchored(records, anchors, cfg);
    }
  }
}
