/**
 The notification handlers, await by await
 (apis/miot-bridge-api/src/handlers/notifications/NotificationPostHandler.ts:46-52,
 NotificationDeleteHandler.ts:15-25 and NotificationDeleteAllHandler.ts:13-16): any number of requests are in
 progress at once, and between two awaits of one of them the others go on.

 A storage call takes effect in one step. The file store reads everything and writes it back
 (apis/miot-bridge-api/src/storage/notification-local-storage/NotificationLocalStorageRepository.ts:34-51),
 so its writes can undo one another: `Overwritten` puts back whatever was read.
 */
module NotificationSteps {
  import opened Wrappers
  import opened PollerEvents

  type Pair = (DeviceId, string)

  /** A request in progress: what it has stored and has yet to store, or what it has yet to remove or forget. */
  datatype Progress =
    | Posting(device: DeviceId, done: seq<string>, rest: seq<string>)
    | Deleting(device: DeviceId, id: nat, property: string)
    | DeletingAll(device: DeviceId)
    | Forgetting(device: DeviceId, property: string)
    | ForgettingAll(device: DeviceId)

  /**
   `ledger` has every record ever created, under an id that is never used again; `stored` are the ids of those
   still there.
   */
  datatype System = System(ledger: map<nat, Pair>, stored: set<nat>, cached: set<Pair>, handlers: map<nat, Progress>)

  datatype Event =
    | StartPost(handler: nat, device: DeviceId, properties: seq<string>)
    | LookUp(handler: nat, device: DeviceId, id: nat)
    | StartDeleteAll(handler: nat, device: DeviceId)
    | Stores(handler: nat, id: nat)
    | Announces(handler: nat)
    | Removes(handler: nat)
    | Forgets(handler: nat)
    | Fails(handler: nat)
    | Overwritten(stored: set<nat>)
    | Restart  // a new process: nothing in progress, then `loadSubscriptions`

  predicate Holds(s: System, id: nat) {
    id in s.stored && id in s.ledger
  }

  /** The stored pairs. */
  function Pairs(s: System): set<Pair> {
    set id | id in s.stored && id in s.ledger :: s.ledger[id]
  }

  function PairsFor(d: DeviceId, properties: seq<string>): set<Pair> {
    set p | p in properties :: (d, p)
  }

  function Begin(s: System, h: nat, g: Progress): System {
    if h in s.handlers then s else s.(handlers := s.handlers[h := g])
  }

  /** What cannot happen in this state is skipped. */
  function Step(s: System, e: Event): System {
    match e
    case StartPost(h, d, properties) => Begin(s, h, Posting(d, [], properties))
    case LookUp(h, d, id) => if Holds(s, id) && s.ledger[id].0 == d then Begin(s, h, Deleting(d, id, s.ledger[id].1)) else s
    case StartDeleteAll(h, d) => Begin(s, h, DeletingAll(d))
    case Stores(h, id) => if h in s.handlers && id !in s.ledger then AfterStore(s, h, s.handlers[h], id) else s
    case Announces(h) => if h in s.handlers then AfterAnnouncement(s, h, s.handlers[h]) else s
    case Removes(h) => if h in s.handlers then AfterRemoval(s, h, s.handlers[h]) else s
    case Forgets(h) => if h in s.handlers then AfterForgetting(s, h, s.handlers[h]) else s
    case Fails(h) => if h in s.handlers && CanFail(s.handlers[h]) then s.(handlers := s.handlers - {h}) else s
    case Overwritten(stored) => s.(stored := set id | id in stored && id in s.ledger)
    case Restart => s.(cached := Pairs(s), handlers := map[])
  }

  function AfterStore(s: System, h: nat, g: Progress, id: nat): System {
    match g
    case Posting(d, done, rest) =>
      if rest == [] then s
      else s.(ledger := s.ledger[id := (d, rest[0])], stored := s.stored + {id},
              handlers := s.handlers[h := Posting(d, done + [rest[0]], rest[1..])])
    case _ => s
  }

  function AfterAnnouncement(s: System, h: nat, g: Progress): System {
    match g
    case Posting(d, done, rest) =>
      if rest != [] then s else s.(cached := s.cached + PairsFor(d, done), handlers := s.handlers - {h})
    case _ => s
  }

  function AfterRemoval(s: System, h: nat, g: Progress): System {
    match g
    case Deleting(d, id, p) => s.(stored := s.stored - {id}, handlers := s.handlers[h := Forgetting(d, p)])
    case DeletingAll(d) => s.(stored := (set id | id in s.stored && id in s.ledger && s.ledger[id].0 != d), handlers := s.handlers[h := ForgettingAll(d)])
    case _ => s
  }

  function AfterForgetting(s: System, h: nat, g: Progress): System {
    match g
    case Forgetting(d, p) => s.(cached := s.cached - {(d, p)}, handlers := s.handlers - {h})
    case ForgettingAll(d) => s.(cached := (set pair | pair in s.cached && pair.0 != d), handlers := s.handlers - {h})
    case _ => s
  }

  /** A storage call that fails changes nothing; once the removal is through there is no call left to fail. */
  predicate CanFail(g: Progress) {
    g.Posting? || g.Deleting? || g.DeletingAll?
  }

  function Exec(s: System, es: seq<Event>): System {
    if es == [] then s else Step(Exec(s, es[..|es| - 1]), es[|es| - 1])
  }

  lemma ExecOneMore(s: System, es: seq<Event>, e: Event)
    ensures Exec(s, es + [e]) == Step(Exec(s, es), e)
  {
    assert (es + [e])[..|es|] == es;
  }

  /** The states a run passes through, the first and the last included. */
  ghost predicate Trail(s: System, es: seq<Event>, states: seq<System>) {
    && |states| == |es| + 1
    && states[0] == s
    && forall k :: 0 <= k < |es| ==> LeadsOn(states[k], es[k], states[k + 1])
  }

  ghost predicate LeadsOn(s: System, e: Event, s': System) {
    s' == Step(s, e)
  }

  lemma TrailGrows(s: System, es: seq<Event>, states: seq<System>, e: Event)
    requires Trail(s, es, states)
    ensures Trail(s, es + [e], states + [Step(states[|es|], e)])
  {
    var longer := states + [Step(states[|es|], e)];
    forall k | 0 <= k < |es| + 1 ensures LeadsOn(longer[k], (es + [e])[k], longer[k + 1]) {
      assert k < |es| ==> LeadsOn(states[k], es[k], states[k + 1]);
    }
  }

  lemma {:induction false} TrailEndsWithTheRun(s: System, es: seq<Event>, states: seq<System>)
    requires Trail(s, es, states)
    ensures Exec(s, es) == states[|es|]
  {
    if es != [] {
      var n := |es| - 1;
      forall k | 0 <= k < n ensures LeadsOn(states[..n + 1][k], es[..n][k], states[..n + 1][k + 1]) {
        assert LeadsOn(states[k], es[k], states[k + 1]);
      }
      TrailEndsWithTheRun(s, es[..n], states[..n + 1]);
      assert LeadsOn(states[n], es[n], states[n + 1]);
    }
  }

  lemma {:induction false} ExecAppends(s: System, a: seq<Event>, b: seq<Event>)
    ensures Exec(s, a + b) == Exec(Exec(s, a), b)
    decreases |b|
  {
    if b == [] {
      assert a + b == a;
    } else {
      ExecAppends(s, a, b[..|b| - 1]);
      assert (a + b)[..|a + b| - 1] == a + b[..|b| - 1];
    }
  }

  // ---------- who is about to do what ----------

  predicate WillForget(g: Progress, p: Pair) {
    g == Forgetting(p.0, p.1) || g == ForgettingAll(p.0)
  }

  ghost predicate ToBeForgotten(s: System, p: Pair) {
    exists h :: h in s.handlers && WillForget(s.handlers[h], p)
  }

  predicate WillAnnounce(g: Progress, p: Pair) {
    g.Posting? && g.device == p.0 && p.1 in g.done
  }

  ghost predicate ToBeAnnounced(s: System, p: Pair) {
    exists h :: h in s.handlers && WillAnnounce(s.handlers[h], p)
  }

  /** The post will announce the pair and will not store it again before that. */
  predicate Promises(g: Progress, p: Pair) {
    WillAnnounce(g, p) && p.1 !in g.rest
  }

  // ---------- what is cached is stored ----------

  /** Records keep their pairs: what a deletion has looked up is still what its id stands for. */
  ghost predicate RecordsInv(s: System) {
    && s.stored <= s.ledger.Keys
    && forall h :: h in s.handlers && s.handlers[h].Deleting? ==>
         var g := s.handlers[h]; g.id in s.ledger && s.ledger[g.id] == (g.device, g.property)
  }

  /** Every cached pair is stored, or about to be forgotten. */
  ghost predicate CacheInv(s: System) {
    forall p :: p in s.cached ==> p in Pairs(s) || ToBeForgotten(s, p)
  }

  /** What a post has stored and not announced is still stored. */
  ghost predicate PromiseInv(s: System) {
    forall h, p :: h in s.handlers && Promises(s.handlers[h], p) ==> p in Pairs(s)
  }

  /** The steps that may let the cache run ahead: an announcement, and a file written back. */
  ghost predicate CacheSafe(s: System, e: Event) {
    match e
    case Announces(h) =>
      h in s.handlers && s.handlers[h].Posting? && s.handlers[h].rest == [] ==>
        forall p :: WillAnnounce(s.handlers[h], p) ==> p in Pairs(s) || ToBeForgotten(s, p)
    case Overwritten(_) => forall p :: p in s.cached && p !in Pairs(Step(s, e)) ==> ToBeForgotten(s, p)
    case _ => true
  }

  /** The step takes away the last record of a pair that a post in progress has stored and not announced. */
  ghost predicate Endangers(s: System, e: Event) {
    && (e.Removes? || e.Overwritten?)
    && exists h, p :: h in s.handlers && Promises(s.handlers[h], p) && p in Pairs(s) && p !in Pairs(Step(s, e))
  }

  lemma {:induction false} RecordsStay(s: System, es: seq<Event>)
    requires RecordsInv(s)
    ensures RecordsInv(Exec(s, es))
  {
    if es != [] {
      RecordsStay(s, es[..|es| - 1]);
      RecordsStep(Exec(s, es[..|es| - 1]), es[|es| - 1]);
    }
  }

  lemma RecordsStep(s: System, e: Event)
    requires RecordsInv(s)
    ensures RecordsInv(Step(s, e))
  {
  }

  lemma PairAdded(s: System, h: nat, id: nat)
    requires RecordsInv(s) && h in s.handlers && id !in s.ledger && s.handlers[h].Posting? && s.handlers[h].rest != []
    ensures Pairs(Step(s, Stores(h, id))) == Pairs(s) + {(s.handlers[h].device, s.handlers[h].rest[0])}
  {
    var s' := Step(s, Stores(h, id));
    forall p | p in Pairs(s) ensures p in Pairs(s') {
      var k :| k in s.stored && k in s.ledger && s.ledger[k] == p;
      assert s'.ledger[k] == p;
    }
    assert s'.ledger[id] == (s.handlers[h].device, s.handlers[h].rest[0]);
  }

  /** A handler that goes on keeps the pairs the others are about to forget. */
  lemma OthersStillForget(s: System, s': System, h: nat, p: Pair)
    requires forall g :: g in s.handlers && g != h ==> g in s'.handlers && s'.handlers[g] == s.handlers[g]
    requires h in s.handlers && WillForget(s.handlers[h], p) ==> h in s'.handlers && WillForget(s'.handlers[h], p)
    requires ToBeForgotten(s, p)
    ensures ToBeForgotten(s', p)
  {
    var g :| g in s.handlers && WillForget(s.handlers[g], p);
    assert g in s'.handlers && WillForget(s'.handlers[g], p);
  }

  lemma OthersStillAnnounce(s: System, s': System, h: nat, p: Pair)
    requires forall g :: g in s.handlers && g != h ==> g in s'.handlers && s'.handlers[g] == s.handlers[g]
    requires h in s.handlers && WillAnnounce(s.handlers[h], p) ==> h in s'.handlers && WillAnnounce(s'.handlers[h], p)
    requires ToBeAnnounced(s, p)
    ensures ToBeAnnounced(s', p)
  {
    var g :| g in s.handlers && WillAnnounce(s.handlers[g], p);
    assert g in s'.handlers && WillAnnounce(s'.handlers[g], p);
  }

  /** Whether the cache stays within storage is decided at announcements and at files written back, exactly. */
  lemma CacheStep(s: System, e: Event)
    requires RecordsInv(s) && CacheInv(s)
    ensures CacheInv(Step(s, e)) <==> CacheSafe(s, e)
  {
    match e
    case StartPost(h, d, properties) => HandlerGoesOn(s, e, h);
    case LookUp(h, _, _) => HandlerGoesOn(s, e, h);
    case StartDeleteAll(h, _) => HandlerGoesOn(s, e, h);
    case Stores(h, id) => HandlerGoesOn(s, e, h);
    case Announces(h) => AnnouncementIsSafe(s, h);
    case Removes(h) => RemovalKeepsCache(s, h);
    case Forgets(h) => ForgettingKeepsCache(s, h);
    case Fails(h) => HandlerGoesOn(s, e, h);
    case Overwritten(_) =>
      forall p ensures ToBeForgotten(Step(s, e), p) <==> ToBeForgotten(s, p) {
      }
    case Restart =>
  }

  lemma HandlerGoesOn(s: System, e: Event, h: nat)
    requires RecordsInv(s) && CacheInv(s)
    requires e == Stores(h, if e.Stores? then e.id else 0) || e == Fails(h)
             || (e.StartPost? && e.handler == h) || (e.LookUp? && e.handler == h) || (e.StartDeleteAll? && e.handler == h)
    ensures CacheInv(Step(s, e))
  {
    var s' := Step(s, e);
    if e.Stores? && h in s.handlers && e.id !in s.ledger && s.handlers[h].Posting? && s.handlers[h].rest != [] {
      PairAdded(s, h, e.id);
    }
    forall p | p in s'.cached ensures p in Pairs(s') || ToBeForgotten(s', p) {
      if ToBeForgotten(s, p) {
        OthersStillForget(s, s', h, p);
      }
    }
  }

  lemma AnnouncementIsSafe(s: System, h: nat)
    requires RecordsInv(s) && CacheInv(s)
    ensures CacheInv(Step(s, Announces(h))) <==> CacheSafe(s, Announces(h))
  {
    var s' := Step(s, Announces(h));
    if h in s.handlers && s.handlers[h].Posting? && s.handlers[h].rest == [] {
      forall p ensures ToBeForgotten(s', p) <==> ToBeForgotten(s, p) {
        if ToBeForgotten(s, p) {
          OthersStillForget(s, s', h, p);
        }
      }
      forall p ensures p in s'.cached <==> p in s.cached || WillAnnounce(s.handlers[h], p) {
      }
    }
  }

  /** A removal leaves its own request behind, about to forget what is gone. */
  lemma RemovalKeepsCache(s: System, h: nat)
    requires RecordsInv(s) && CacheInv(s)
    ensures CacheInv(Step(s, Removes(h)))
  {
    var s' := Step(s, Removes(h));
    if h in s.handlers && (s.handlers[h].Deleting? || s.handlers[h].DeletingAll?) {
      forall p | p in s'.cached ensures p in Pairs(s') || ToBeForgotten(s', p) {
        if ToBeForgotten(s, p) {
          OthersStillForget(s, s', h, p);
        } else {
          RemovedPairs(s, h, p);
        }
      }
    }
  }

  lemma RemovedPairs(s: System, h: nat, p: Pair)
    requires h in s.handlers && (s.handlers[h].Deleting? || s.handlers[h].DeletingAll?) && p in Pairs(s)
    requires RecordsInv(s)
    ensures var s' := Step(s, Removes(h)); p in Pairs(s') || ToBeForgotten(s', p)
  {
    var s' := Step(s, Removes(h));
    var k :| k in s.stored && k in s.ledger && s.ledger[k] == p;
    if k in s'.stored {
      assert s'.ledger[k] == p;
    } else {
      assert h in s'.handlers && WillForget(s'.handlers[h], p);
    }
  }

  lemma ForgettingKeepsCache(s: System, h: nat)
    requires RecordsInv(s) && CacheInv(s)
    ensures CacheInv(Step(s, Forgets(h)))
  {
    var s' := Step(s, Forgets(h));
    forall p | p in s'.cached ensures p in Pairs(s') || ToBeForgotten(s', p) {
      if ToBeForgotten(s, p) {
        OthersStillForget(s, s', h, p);
      }
    }
  }

  // ---------- which removals are safe ----------

  /** Nothing is taken out of storage along the run. */
  ghost predicate NothingRemoved(es: seq<Event>) {
    forall k :: 0 <= k < |es| ==> !es[k].Removes? && !es[k].Overwritten?
  }

  /** A step breaks a promise exactly if it takes away the last record of the promised pair. */
  lemma PromiseStep(s: System, e: Event)
    requires RecordsInv(s) && PromiseInv(s)
    ensures PromiseInv(Step(s, e)) <==> !Endangers(s, e)
  {
    if e.Stores? {
      StoringKeepsPromises(s, e.handler, e.id);
    } else {
      SamePromises(s, e);
    }
  }

  /** Apart from storing, no step makes a promise, and a step that takes records away ends none. */
  lemma SamePromises(s: System, e: Event)
    requires !e.Stores?
    ensures var s' := Step(s, e);
            && (forall h, p :: h in s'.handlers && Promises(s'.handlers[h], p) ==> h in s.handlers && Promises(s.handlers[h], p))
            && (e.Removes? || e.Overwritten? ==>
                  forall h, p :: h in s.handlers && Promises(s.handlers[h], p) ==> h in s'.handlers && Promises(s'.handlers[h], p))
            && (!e.Removes? && !e.Overwritten? ==> Pairs(s') == Pairs(s))
  {
  }

  lemma StoringKeepsPromises(s: System, h: nat, id: nat)
    requires RecordsInv(s) && PromiseInv(s)
    ensures PromiseInv(Step(s, Stores(h, id)))
  {
    var s' := Step(s, Stores(h, id));
    if s' != s {
      PairAdded(s, h, id);
      var was := s.handlers[h];
      forall g, p | g in s'.handlers && Promises(s'.handlers[g], p) ensures p in Pairs(s') {
        assert g == h && p != (was.device, was.rest[0]) ==> Promises(s.handlers[h], p);
      }
    }
  }

  /** An announcement of a kept promise is safe. */
  lemma PromisesMakeSafe(s: System, e: Event)
    requires PromiseInv(s) && !e.Overwritten?
    ensures CacheSafe(s, e)
  {
  }

  /** As long as every step is harmless, what is cached is stored or about to be forgotten, in every interleaving. */
  lemma {:induction false} HarmlessRunsKeepTheCache(s: System, es: seq<Event>)
    requires RecordsInv(s) && CacheInv(s) && PromiseInv(s)
    requires forall k :: 0 <= k < |es| ==> Harmless(Exec(s, es[..k]), es[k])
    ensures var s' := Exec(s, es); RecordsInv(s') && CacheInv(s') && PromiseInv(s')
  {
    if es != [] {
      var n := |es| - 1;
      forall k | 0 <= k < n ensures Harmless(Exec(s, es[..n][..k]), es[..n][k]) {
        assert es[..n][..k] == es[..k];
      }
      HarmlessRunsKeepTheCache(s, es[..n]);
      assert Harmless(Exec(s, es[..n]), es[n]);
      HarmlessStep(Exec(s, es[..n]), es[n]);
    }
  }

  /** Neither a pair of a post in progress nor, by a file written back, a cached one loses its last record. */
  ghost predicate Harmless(s: System, e: Event) {
    !Endangers(s, e) && (e.Overwritten? ==> CacheSafe(s, e))
  }

  lemma HarmlessStep(s: System, e: Event)
    requires RecordsInv(s) && CacheInv(s) && PromiseInv(s) && Harmless(s, e)
    ensures var s' := Step(s, e); RecordsInv(s') && CacheInv(s') && PromiseInv(s')
  {
    RecordsStep(s, e);
    PromiseStep(s, e);
    CacheStep(s, e);
    if !e.Overwritten? {
      PromisesMakeSafe(s, e);
    }
  }

  /** And whenever no request has something left to forget, what is cached is stored. */
  lemma CacheIsStored(s: System, es: seq<Event>)
    requires RecordsInv(s) && CacheInv(s) && PromiseInv(s)
    requires forall k :: 0 <= k < |es| ==> Harmless(Exec(s, es[..k]), es[k])
    requires forall h :: h in Exec(s, es).handlers ==> !Exec(s, es).handlers[h].Forgetting? && !Exec(s, es).handlers[h].ForgettingAll?
    ensures Exec(s, es).cached <= Pairs(Exec(s, es))
  {
    HarmlessRunsKeepTheCache(s, es);
  }

  /** The requests that have removed records and not yet forgotten them, brought to their ends. */
  lemma {:induction false} AllForget(s: System, forgetters: set<nat>) returns (es: seq<Event>)
    requires forall h :: h in forgetters <==> h in s.handlers && (s.handlers[h].Forgetting? || s.handlers[h].ForgettingAll?)
    ensures NothingRemoved(es)
    ensures var s' := Exec(s, es);
            && s'.ledger == s.ledger && s'.stored == s.stored
            && s'.handlers == s.handlers - forgetters
            && forall p :: !ToBeForgotten(s', p)
    decreases |forgetters|
  {
    if forgetters == {} {
      es := [];
      assert s.handlers - forgetters == s.handlers;
    } else {
      var h :| h in forgetters;
      var next := Step(s, Forgets(h));
      var rest := AllForget(next, forgetters - {h});
      es := [Forgets(h)] + rest;
      ExecAppends(s, [Forgets(h)], rest);
      ExecOneMore(s, [], Forgets(h));
      assert [] + [Forgets(h)] == [Forgets(h)];
      assert s.handlers - {h} - (forgetters - {h}) == s.handlers - forgetters;
    }
  }

  lemma {:induction false} UnusedId(ids: set<nat>) returns (id: nat)
    ensures id !in ids && forall k :: k in ids ==> k < id
    decreases |ids|
  {
    if ids == {} {
      id := 0;
    } else {
      var k :| k in ids;
      var above := UnusedId(ids - {k});
      id := if k < above then above else k + 1;
      assert forall other :: other in ids ==> other == k || other in ids - {k};
    }
  }

  /** A post stores what it has left to store. */
  lemma {:induction false} StoresTheRest(s: System, h: nat) returns (es: seq<Event>)
    requires RecordsInv(s) && h in s.handlers && s.handlers[h].Posting?
    ensures NothingRemoved(es)
    ensures var s', g := Exec(s, es), s.handlers[h];
            && RecordsInv(s')
            && s'.cached == s.cached
            && s'.handlers == s.handlers[h := Posting(g.device, g.done + g.rest, [])]
            && Pairs(s') == Pairs(s) + PairsFor(g.device, g.rest)
    decreases |s.handlers[h].rest|
  {
    var g := s.handlers[h];
    if g.rest == [] {
      es := [];
      assert g.done + g.rest == g.done && s.handlers[h := g] == s.handlers;
    } else {
      var id := UnusedId(s.ledger.Keys);
      var next := Step(s, Stores(h, id));
      PairAdded(s, h, id);
      RecordsStep(s, Stores(h, id));
      var more := StoresTheRest(next, h);
      es := [Stores(h, id)] + more;
      ExecAppends(s, [Stores(h, id)], more);
      ExecOneMore(s, [], Stores(h, id));
      assert [] + [Stores(h, id)] == [Stores(h, id)];
      assert (g.done + [g.rest[0]]) + g.rest[1..] == g.done + g.rest;
      assert g.rest == [g.rest[0]] + g.rest[1..];
      assert next.handlers[h := Posting(g.device, g.done + g.rest, [])] == s.handlers[h := Posting(g.device, g.done + g.rest, [])];
    }
  }

  /** Once a promise is broken, the requests in progress can finish so that a pair stays cached and not stored. */
  lemma BrokenPromiseIsFatal(s: System, h: nat, p: Pair) returns (es: seq<Event>)
    requires RecordsInv(s) && h in s.handlers && Promises(s.handlers[h], p) && p !in Pairs(s)
    ensures NothingRemoved(es) && !CacheInv(Exec(s, es))
    ensures p in Exec(s, es).cached && p !in Pairs(Exec(s, es))
  {
    var forgetters := set g | g in s.handlers && (s.handlers[g].Forgetting? || s.handlers[g].ForgettingAll?);
    var forgetting := AllForget(s, forgetters);
    var forgotten := Exec(s, forgetting);
    RecordsStay(s, forgetting);
    assert forgotten.handlers[h] == s.handlers[h];
    var storing := StoresTheRest(forgotten, h);
    var stored := Exec(forgotten, storing);
    es := forgetting + storing + [Announces(h)];
    ExecAppends(s, forgetting, storing);
    ExecOneMore(s, forgetting + storing, Announces(h));
    assert Pairs(forgotten) == Pairs(s);
    NobodyElseForgets(forgotten, stored, h, p);
    AnnouncedUnstored(stored, h, p);
  }

  lemma NobodyElseForgets(s: System, s': System, h: nat, p: Pair)
    requires !ToBeForgotten(s, p)
    requires forall g :: g in s'.handlers && g != h ==> g in s.handlers && s'.handlers[g] == s.handlers[g]
    requires h in s'.handlers && s'.handlers[h].Posting?
    ensures !ToBeForgotten(s', p)
  {
  }

  lemma AnnouncedUnstored(s: System, h: nat, p: Pair)
    requires h in s.handlers && WillAnnounce(s.handlers[h], p) && s.handlers[h].rest == []
    requires p !in Pairs(s) && !ToBeForgotten(s, p)
    ensures var s' := Step(s, Announces(h)); p in s'.cached && p !in Pairs(s') && !CacheInv(s')
  {
    var s' := Step(s, Announces(h));
    assert !ToBeForgotten(s', p);
  }

  /**
   While every promise is kept, and only then, the cache stays within storage (or what is about to be forgotten)
   however the requests in progress and later ones go on, as long as nothing more is removed.
   */
  lemma SafeIffPromisesKept(s: System)
    requires RecordsInv(s) && CacheInv(s)
    ensures (forall more :: NothingRemoved(more) ==> CacheInv(Exec(s, more))) <==> PromiseInv(s)
  {
    if PromiseInv(s) {
      forall more | NothingRemoved(more) ensures CacheInv(Exec(s, more)) {
        assert forall k :: 0 <= k < |more| ==> Harmless(Exec(s, more[..k]), more[k]);
        HarmlessRunsKeepTheCache(s, more);
      }
    } else {
      var h, p :| h in s.handlers && Promises(s.handlers[h], p) && p !in Pairs(s);
      var more := BrokenPromiseIsFatal(s, h, p);
    }
  }

  /**
   A removal is safe if and only if it leaves every pair that a post in progress has stored, and will announce, with
   a record: otherwise the announcement can come after the removal's own cache step.
   */
  lemma RemovalIsSafeIff(s: System, e: Event)
    requires RecordsInv(s) && CacheInv(s) && PromiseInv(s) && e.Removes?
    ensures (forall more :: NothingRemoved(more) ==> CacheInv(Exec(Step(s, e), more))) <==> !Endangers(s, e)
  {
    RecordsStep(s, e);
    CacheStep(s, e);
    PromiseStep(s, e);
    SafeIffPromisesKept(Step(s, e));
  }

  /** The run in which it goes wrong: all subscriptions of a device are deleted while one is being posted. */
  lemma CacheCanRunAhead(d: DeviceId)
    ensures var es := [StartPost(0, d, ["p"]), Stores(0, 0), StartDeleteAll(1, d), Removes(1), Forgets(1), Announces(0)];
            var s := Exec(System(map[], {}, {}, map[]), es);
            s.handlers == map[] && Pairs(s) == {} && s.cached == {(d, "p")}
  {
    SixSteps(System(map[], {}, {}, map[]),
             StartPost(0, d, ["p"]), Stores(0, 0), StartDeleteAll(1, d), Removes(1), Forgets(1), Announces(0));
    HalfPosted(d);
    DeletedMeanwhile(d);
    var s := Step(System(map[0 := (d, "p")], {}, {}, map[0 := Posting(d, ["p"], [])]), Announces(0));
    assert s.handlers == map[] && s.cached == {(d, "p")};
  }

  lemma HalfPosted(d: DeviceId)
    ensures Step(Step(System(map[], {}, {}, map[]), StartPost(0, d, ["p"])), Stores(0, 0))
         == System(map[0 := (d, "p")], {0}, {}, map[0 := Posting(d, ["p"], [])])
  {
    assert ["p"][1..] == [] && [] + ["p"] == ["p"];
    var started := Step(System(map[], {}, {}, map[]), StartPost(0, d, ["p"]));
    assert started == System(map[], {}, {}, map[0 := Posting(d, [], ["p"])]);
  }

  lemma DeletedMeanwhile(d: DeviceId)
    ensures var posted := System(map[0 := (d, "p")], {0}, {}, map[0 := Posting(d, ["p"], [])]);
            Step(Step(Step(posted, StartDeleteAll(1, d)), Removes(1)), Forgets(1)) == posted.(stored := {})
  {
    var post := Posting(d, ["p"], []);
    var s := Step(System(map[0 := (d, "p")], {0}, {}, map[0 := post]), StartDeleteAll(1, d));
    assert s == System(map[0 := (d, "p")], {0}, {}, map[0 := post, 1 := DeletingAll(d)]);
    var s' := Step(s, Removes(1));
    assert s' == System(map[0 := (d, "p")], {}, {}, map[0 := post, 1 := ForgettingAll(d)]);
    assert Step(s', Forgets(1)).handlers == map[0 := post];
  }

  lemma SixSteps(s: System, a: Event, b: Event, c: Event, d: Event, e: Event, f: Event)
    ensures Exec(s, [a, b, c, d, e, f]) == Step(Step(Step(Step(Step(Step(s, a), b), c), d), e), f)
  {
    assert [a, b, c, d, e, f] == [a, b, c] + [d, e, f];
    ExecAppends(s, [a, b, c], [d, e, f]);
    ThreeSteps(s, a, b, c);
    ThreeSteps(Exec(s, [a, b, c]), d, e, f);
  }

  lemma ThreeSteps(s: System, a: Event, b: Event, c: Event)
    ensures Exec(s, [a, b, c]) == Step(Step(Step(s, a), b), c)
  {
    assert [] + [a] == [a] && [a] + [b] == [a, b] && [a, b] + [c] == [a, b, c];
    ExecOneMore(s, [], a);
    ExecOneMore(s, [a], b);
    ExecOneMore(s, [a, b], c);
  }

  // ---------- cache and storage equal ----------

  /** Every stored pair is cached, or about to be announced. */
  ghost predicate StoredInv(s: System) {
    forall p :: p in Pairs(s) ==> p in s.cached || ToBeAnnounced(s, p)
  }

  /** The steps that keep stored pairs covered, told from the step and the state before it. */
  ghost predicate StoredSafe(s: System, e: Event) {
    match e
    case Forgets(h) =>
      // no other record of a forgotten pair is left, unless a post is about to announce it
      h in s.handlers ==> forall p :: p in Pairs(s) && WillForget(s.handlers[h], p) ==> ToBeAnnounced(s, p)
    case Fails(h) =>
      // what a failing post has stored is cached already, or another post will announce it
      h in s.handlers ==>
        forall p :: p in Pairs(s) && WillAnnounce(s.handlers[h], p) ==> p in s.cached || AnnouncedByAnother(s, h, p)
    case Overwritten(_) => forall p :: p in Pairs(Step(s, e)) && p !in s.cached ==> ToBeAnnounced(s, p)
    case _ => true
  }

  ghost predicate AnnouncedByAnother(s: System, h: nat, p: Pair) {
    exists g :: g in s.handlers && g != h && WillAnnounce(s.handlers[g], p)
  }

  lemma StoredStep(s: System, e: Event)
    requires RecordsInv(s) && StoredInv(s)
    ensures StoredInv(Step(s, e)) <==> StoredSafe(s, e)
  {
    match e
    case StartPost(h, _, _) => OtherStepsKeepStored(s, e, h);
    case LookUp(h, _, _) => OtherStepsKeepStored(s, e, h);
    case StartDeleteAll(h, _) => OtherStepsKeepStored(s, e, h);
    case Stores(h, id) => StoringKeepsStored(s, h, id);
    case Announces(h) => AnnouncingKeepsStored(s, h);
    case Removes(h) => RemovingKeepsStored(s, h);
    case Forgets(h) => ForgettingIsCleanIff(s, h);
    case Fails(h) => FailingIsCleanIff(s, h);
    case Overwritten(_) =>
      forall p ensures ToBeAnnounced(Step(s, e), p) <==> ToBeAnnounced(s, p) {
      }
    case Restart =>
  }

  lemma OtherStepsKeepStored(s: System, e: Event, h: nat)
    requires StoredInv(s)
    requires (e.StartPost? && e.handler == h) || (e.LookUp? && e.handler == h) || (e.StartDeleteAll? && e.handler == h)
    ensures StoredInv(Step(s, e))
  {
    var s' := Step(s, e);
    forall p | p in Pairs(s') ensures p in s'.cached || ToBeAnnounced(s', p) {
      if ToBeAnnounced(s, p) {
        OthersStillAnnounce(s, s', h, p);
      }
    }
  }

  lemma StoringKeepsStored(s: System, h: nat, id: nat)
    requires RecordsInv(s) && StoredInv(s)
    ensures StoredInv(Step(s, Stores(h, id)))
  {
    var s' := Step(s, Stores(h, id));
    if s' != s {
      PairAdded(s, h, id);
      forall p | p in Pairs(s') ensures p in s'.cached || ToBeAnnounced(s', p) {
        if p == (s.handlers[h].device, s.handlers[h].rest[0]) {
          assert h in s'.handlers && WillAnnounce(s'.handlers[h], p);
        } else if ToBeAnnounced(s, p) {
          OthersStillAnnounce(s, s', h, p);
        }
      }
    }
  }

  lemma AnnouncingKeepsStored(s: System, h: nat)
    requires StoredInv(s)
    ensures StoredInv(Step(s, Announces(h)))
  {
    var s' := Step(s, Announces(h));
    if s' != s {
      assert Pairs(s') == Pairs(s);
      forall p | p in Pairs(s') ensures p in s'.cached || ToBeAnnounced(s', p) {
        if ToBeAnnounced(s, p) && !WillAnnounce(s.handlers[h], p) {
          OthersStillAnnounce(s, s', h, p);
        }
      }
    }
  }

  lemma RemovingKeepsStored(s: System, h: nat)
    requires StoredInv(s)
    ensures StoredInv(Step(s, Removes(h)))
  {
    var s' := Step(s, Removes(h));
    forall p | p in Pairs(s') ensures p in s'.cached || ToBeAnnounced(s', p) {
      assert p in Pairs(s);
      if ToBeAnnounced(s, p) {
        OthersStillAnnounce(s, s', h, p);
      }
    }
  }

  lemma ForgettingIsCleanIff(s: System, h: nat)
    requires StoredInv(s)
    ensures StoredInv(Step(s, Forgets(h))) <==> StoredSafe(s, Forgets(h))
  {
    var s' := Step(s, Forgets(h));
    assert Pairs(s') == Pairs(s);
    forall p ensures ToBeAnnounced(s', p) <==> ToBeAnnounced(s, p) {
      if ToBeAnnounced(s, p) {
        OthersStillAnnounce(s, s', h, p);
      }
    }
    assert forall p :: p in s'.cached <==> p in s.cached && !(h in s.handlers && WillForget(s.handlers[h], p));
  }

  lemma FailingIsCleanIff(s: System, h: nat)
    requires StoredInv(s)
    ensures StoredInv(Step(s, Fails(h))) <==> StoredSafe(s, Fails(h))
  {
    var s' := Step(s, Fails(h));
    assert Pairs(s') == Pairs(s);
    if h in s.handlers && CanFail(s.handlers[h]) {
      forall p ensures ToBeAnnounced(s', p) <==> AnnouncedByAnother(s, h, p) {
        if AnnouncedByAnother(s, h, p) {
          var g :| g in s.handlers && g != h && WillAnnounce(s.handlers[g], p);
          assert g in s'.handlers && WillAnnounce(s'.handlers[g], p);
        }
      }
      forall p | ToBeAnnounced(s, p) ensures AnnouncedByAnother(s, h, p) || WillAnnounce(s.handlers[h], p) {
      }
    }
  }

  /** A step is clean if it keeps both sides covered. */
  ghost predicate Clean(s: System, e: Event) {
    CacheSafe(s, e) && StoredSafe(s, e)
  }

  /** Cache and storage cover each other, up to what requests in progress are about to announce or to forget. */
  ghost predicate Covered(s: System) {
    RecordsInv(s) && CacheInv(s) && StoredInv(s)
  }

  /** One step keeps them so if and only if it is clean. */
  lemma StepIsCleanIff(s: System, e: Event)
    requires Covered(s)
    ensures Covered(Step(s, e)) <==> Clean(s, e)
  {
    RecordsStep(s, e);
    CacheStep(s, e);
    StoredStep(s, e);
  }

  /**
   Through any interleaved run of clean steps they stay so, from a restart on if there is one; and whenever nothing is
   in progress, the cache is exactly what is stored.
   */
  lemma {:induction false} CleanRunsStayEqual(s: System, es: seq<Event>, since: nat)
    requires RecordsInv(s) && since <= |es|
    requires if since == 0 then Covered(s) else es[since - 1].Restart?
    requires forall k :: since <= k < |es| ==> Clean(Exec(s, es[..k]), es[k])
    ensures Covered(Exec(s, es))
    ensures Exec(s, es).handlers == map[] ==> Exec(s, es).cached == Pairs(Exec(s, es))
  {
    var n := |es| - 1;
    if since <= n {
      forall k | since <= k < n ensures Clean(Exec(s, es[..n][..k]), es[..n][k]) {
        assert es[..n][..k] == es[..k];
      }
      CleanRunsStayEqual(s, es[..n], since);
      StepIsCleanIff(Exec(s, es[..n]), es[n]);
    } else if since > 0 {
      RecordsStay(s, es);
    }
  }
}
