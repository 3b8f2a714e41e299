// What the container promises its callers over every run of lookups,
// reconfigurations, registrations and reaper checks.
module ContainerTheorems {
  import opened Prelude
  import opened Config
  import opened Container
  import opened ContainerInvariant

  // ---- Lookups follow the configuration ---------------------------------------------

  /** Which configuration governs a name: an existing namespace never falls through
      to the global default. */
  function Resolve(sc: ServiceConfig, k: string, name: string): Option<BucketConfig> {
    if k !in sc.namespaces then sc.globalDefaultBucket
    else
      var ns := sc.namespaces[k];
      if name in ns.buckets then Some(ns.buckets[name])
      else if ns.dynamicBucketTemplate.Some? then ns.dynamicBucketTemplate
      else ns.defaultBucket
  }

  function ConfigFound(r: Lookup): Option<BucketConfig> {
    if r.Found? then Some(r.bucket.cfg) else None
  }

  /** The only reason for a lookup not to follow the configuration is a namespace
      that is exactly full of other dynamic buckets. */
  ghost predicate Full(c: State, k: string, name: string) {
    && k in c.shelf.namespaces
    && var ns := c.shelf.namespaces[k];
       && name !in ns.buckets
       && ns.cfg.dynamicBucketTemplate.Some?
       && 0 < ns.cfg.maxDynamicBuckets == |DynamicNames(ns)|
  }

  lemma LookupFollowsConfig(c: State, now: int, k: string, name: string)
    requires Inv(c) && c.shelf.cfg.Some?
    ensures
      var r := Find(c, now, k, name).1;
      && (r.CapReached? <==> Full(c, k, name))
      && (!r.CapReached? ==> ConfigFound(r) == Resolve(c.shelf.cfg.value, k, name))
      && (r.Found? ==> (r.bucket.dynamic <==>
            k in c.shelf.namespaces && name !in c.shelf.namespaces[k].cfg.buckets &&
            c.shelf.namespaces[k].cfg.dynamicBucketTemplate.Some?))
  {
    if k in c.shelf.namespaces {
      var ns := c.shelf.namespaces[k];
      assert NamespaceOk(k, ns);
      if name in ns.buckets {
        assert BucketOk(k, ns.cfg, name, ns.buckets[name]);
      }
    }
  }

  /** Where the configuration says to look for a name. */
  function PlaceOf(cfg: Option<ServiceConfig>, k: string, name: string): Slot {
    if cfg.None? || k !in cfg.value.namespaces then GlobalDefault
    else
      var ns := cfg.value.namespaces[k];
      if name in ns.buckets || ns.dynamicBucketTemplate.Some? then Named(k, name) else NamespaceDefault(k)
  }

  /** What a lookup may change: a new bucket in the empty place it looked at, queued for the
      reaper if it can be reaped, and the report of the bucket it returns. */
  ghost predicate LooksUp(c: State, c': State, now: int, k: string, name: string, slot: Slot, r: Lookup) {
    var made := r.Found? && BucketAt(c.shelf, slot).None?;
    && c'.shelf.cfg == c.shelf.cfg && c'.watchers == c.watchers && c'.now == now
    && (forall other :: other != slot ==> BucketAt(c'.shelf, other) == BucketAt(c.shelf, other))
    && BucketAt(c'.shelf, slot) == (if r.Found? then Some(r.bucket) else BucketAt(c.shelf, slot))
    && c'.live == c.live + (if made then {r.bucket.id} else {})
    && c'.queue == c.queue + (if made && r.bucket.cfg.maxIdleMillis > 0
                              then [Watcher(r.bucket.id, k, name, r.bucket.cfg.maxIdleMillis * 1_000_000, 0)] else [])
    && if r.Found? && r.bucket.dynamic && r.bucket.cfg.maxIdleMillis > 0 then
         c'.signals == c.signals[r.bucket.id := true] && c'.reported == c.reported[r.bucket.id := now]
       else
         c'.signals == c.signals && c'.reported == c.reported
  }

  /** A lookup looks at one place only. What stands there it returns as it is; an empty
      place it fills with a dynamic bucket if the name has none of its own; and nothing
      else changes. */
  lemma LookupExactly(c: State, now: int, k: string, name: string)
    requires Inv(c)
    ensures
      var slot := PlaceOf(c.shelf.cfg, k, name);
      var r := Find(c, now, k, name).1;
      && (BucketAt(c.shelf, slot).Some? ==> r == Found(BucketAt(c.shelf, slot).value))
      && (r.Found? && BucketAt(c.shelf, slot).None? ==>
            slot == Named(k, name) && r.bucket.id == BucketId(c.epoch, slot) && r.bucket.dynamic)
      && LooksUp(c, Find(c, now, k, name).0, now, k, name, slot, r)
  {
    var slot := PlaceOf(c.shelf.cfg, k, name);
    if k in c.shelf.namespaces {
      assert NamespaceOk(k, c.shelf.namespaces[k]);
    }
    if slot.Named? {
      NamedLookup(c, now, k, name);
    } else {
      DefaultLookup(c, now, k, name, slot);
    }
  }

  lemma DefaultLookup(c: State, now: int, k: string, name: string, slot: Slot)
    requires slot == GlobalDefault || slot == NamespaceDefault(k)
    requires slot == GlobalDefault <==> k !in c.shelf.namespaces
    requires k in c.shelf.namespaces ==>
      name !in c.shelf.namespaces[k].buckets && c.shelf.namespaces[k].cfg.dynamicBucketTemplate.None?
    requires BucketAt(c.shelf, slot).Some? ==> !BucketAt(c.shelf, slot).value.dynamic
    ensures Find(c, now, k, name).1 == FoundIfAny(BucketAt(c.shelf, slot))
    ensures LooksUp(c, Find(c, now, k, name).0, now, k, name, slot, Find(c, now, k, name).1)
  {
  }

  lemma NamedLookup(c: State, now: int, k: string, name: string)
    requires k in c.shelf.namespaces
    requires name in c.shelf.namespaces[k].cfg.buckets ==> name in c.shelf.namespaces[k].buckets
    requires name in c.shelf.namespaces[k].buckets || c.shelf.namespaces[k].cfg.dynamicBucketTemplate.Some?
    ensures
      var slot := Named(k, name);
      var r := Find(c, now, k, name).1;
      && (BucketAt(c.shelf, slot).Some? ==> r == Found(BucketAt(c.shelf, slot).value))
      && (r.Found? && BucketAt(c.shelf, slot).None? ==> r.bucket.id == BucketId(c.epoch, slot) && r.bucket.dynamic)
      && LooksUp(c, Find(c, now, k, name).0, now, k, name, slot, r)
  {
    var ns := c.shelf.namespaces[k];
    if name !in ns.buckets && !AtCap(ns) {
      var b := NewNamed(c.epoch, k, name, ns.cfg);
      OtherPlaces(c.shelf, k, name, AddBucket(ns, name, b));
    }
  }

  // ---- Reconfiguration and rebuilding ---------------------------------------------------

  /** Incremental reconfiguration agrees with rebuilding: after any run, a lookup
      either reports a namespace exactly full of other dynamic buckets, or gives a
      bucket with the configuration that a freshly initialised container would
      give it, which is what the resolver says. */
  lemma IncrementalAgreesWithRebuild(es: seq<Event>, now: int, k: string, name: string)
    requires LegalRun(INITIAL, es) && Run(INITIAL, es).shelf.cfg.Some?
    ensures
      var c := Run(INITIAL, es);
      var sc := c.shelf.cfg.value;
      var rebuilt := Find(Configure(INITIAL, now, sc), now, k, name).1;
      var r := Find(c, now, k, name).1;
      && ConfigFound(rebuilt) == Resolve(sc, k, name) && !rebuilt.CapReached?
      && (r.CapReached? <==> Full(c, k, name))
      && (!r.CapReached? ==> ConfigFound(r) == ConfigFound(rebuilt))
  {
    var c := Run(INITIAL, es);
    var sc := c.shelf.cfg.value;
    InitialInv();
    RunKeepsInv(INITIAL, es);
    LookupFollowsConfig(c, now, k, name);
    RebuildFollowsConfig(sc, now, k, name);
  }

  lemma RebuildFollowsConfig(sc: ServiceConfig, now: int, k: string, name: string)
    requires Normalised(sc)
    ensures
      var r := Find(Configure(INITIAL, now, sc), now, k, name).1;
      !r.CapReached? && ConfigFound(r) == Resolve(sc, k, name)
  {
  }

  /** A configuration is accepted if and only if it is strictly newer than the one it
      replaces, and nothing else replaces a configuration. */
  lemma VersionsIncrease(c: State, e: Event)
    ensures
      var cfg, cfg' := c.shelf.cfg, Step(c, e).shelf.cfg;
      if e.Update? && (cfg.Some? ==> cfg.value.version < e.cfg.version) then cfg' == Some(e.cfg) else cfg' == cfg
  {
  }

  /** In every run dynamic buckets are counted exactly, stay within a positive cap, and
      never stand under a statically configured name. */
  lemma CapIsNeverExceeded(es: seq<Event>, k: string, name: string)
    requires LegalRun(INITIAL, es) && k in Run(INITIAL, es).shelf.namespaces
    ensures
      var ns := Run(INITIAL, es).shelf.namespaces[k];
      && ns.dynamicBucketCount == |DynamicNames(ns)|
      && (ns.cfg.maxDynamicBuckets > 0 ==> |DynamicNames(ns)| <= ns.cfg.maxDynamicBuckets)
      && (name in DynamicNames(ns) ==>
           name !in ns.cfg.buckets && ns.cfg.dynamicBucketTemplate == Some(ns.buckets[name].cfg))
      && (name in ns.cfg.buckets ==> name in ns.buckets && !ns.buckets[name].dynamic)
  {
    InitialInv();
    RunKeepsInv(INITIAL, es);
    var ns := Run(INITIAL, es).shelf.namespaces[k];
    assert NamespaceOk(k, ns);
    assert name in ns.buckets ==> BucketOk(k, ns.cfg, name, ns.buckets[name]);
  }

  // ---- Birth and death -----------------------------------------------------------------

  /** In every run the buckets alive are exactly those that lookups can still reach. */
  lemma LiveIsReachableInEveryRun(es: seq<Event>, id: BucketId)
    requires LegalRun(INITIAL, es)
    ensures id in Run(INITIAL, es).live <==> Installed(Run(INITIAL, es).shelf, id)
  {
    InitialInv();
    RunKeepsInv(INITIAL, es);
    assert LiveIsReachable(Run(INITIAL, es).shelf, Run(INITIAL, es).live, Run(INITIAL, es).epoch);
  }

  /** Two configurations say the same about a place: the same global default, or the same
      namespace from its name to its last bucket. */
  predicate Unchanged(was: ServiceConfig, sc: ServiceConfig, slot: Slot) {
    match slot
    case GlobalDefault => was.globalDefaultBucket == sc.globalDefaultBucket
    case NamespaceDefault(k) => k in was.namespaces && k in sc.namespaces && was.namespaces[k] == sc.namespaces[k]
    case Named(k, _) => k in was.namespaces && k in sc.namespaces && was.namespaces[k] == sc.namespaces[k]
  }

  /** The container takes on a newer configuration that says something else of a place. */
  predicate Changes(c: State, e: Event, slot: Slot) {
    && e.Update? && c.shelf.cfg.Some? && c.shelf.cfg.value.version < e.cfg.version
    && !Unchanged(c.shelf.cfg.value, e.cfg, slot)
  }

  lemma KeepsExactly(c: State, sc: ServiceConfig, slot: Slot)
    requires Inv(c) && c.shelf.cfg.Some?
    ensures KeepsSlot(c.shelf, sc, slot) <==> Unchanged(c.shelf.cfg.value, sc, slot)
  {
  }

  lemma LiveMeansConfigured(c: State, id: BucketId)
    requires Inv(c) && id in c.live
    ensures c.shelf.cfg.Some?
  {
    assert Installed(c.shelf, id);
  }

  lemma ChangesExactly(c: State, e: Event, id: BucketId)
    requires Inv(c) && id in c.live
    ensures Changes(c, e, id.slot) <==> e.Update? && Accepts(c.shelf, e.cfg) && !KeepsSlot(c.shelf, e.cfg, id.slot)
  {
    LiveMeansConfigured(c, id);
    if e.Update? {
      KeepsExactly(c, e.cfg, id.slot);
    }
  }

  /** A newer configuration destroys exactly the buckets of places about which it says
      something else than the one before; the others live on, unaltered. An older one, or
      one of the same version, destroys none. */
  lemma ReconfigurationKillsExactly(c: State, now: int, sc: ServiceConfig, id: BucketId)
    requires Inv(c) && id in c.live
    ensures c.shelf.cfg.Some?
    ensures
      var was, c' := c.shelf.cfg.value, Configure(c, now, sc);
      && (id in c'.live <==> sc.version <= was.version || Unchanged(was, sc, id.slot))
      && (id in c'.live ==> BucketAt(c'.shelf, id.slot) == BucketAt(c.shelf, id.slot))
  {
    LiveMeansConfigured(c, id);
    KeepsExactly(c, sc, id.slot);
    assert LiveIsReachable(c.shelf, c.live, c.epoch);
    RestockPlaces(c.shelf, c.epoch, sc, id.slot);
  }

  /** What a look of the reaper at one key does: it removes the bucket, and the watcher with
      it, exactly when the bucket has not been used since the last look and has been idle
      for longer than its limit; else it notes activity if there was any, or if the
      channel is closed; and nothing else changes. */
  lemma CheckExactly(c: State, now: int, key: string)
    requires Inv(c)
    ensures
      var c' := Reap(c, now, key);
      && c'.queue == c.queue && c'.reported == c.reported && c'.shelf.cfg == c.shelf.cfg && c'.now == now
      && (key !in c.watchers ==>
            c'.shelf == c.shelf && c'.live == c.live && c'.signals == c.signals && c'.watchers == c.watchers)
      && (key in c.watchers ==>
            var w := c.watchers[key];
            if w.id in c.signals && !c.signals[w.id] && now - w.lastActivity > w.maxIdle then
              && w.id in c.live && c'.live == c.live - {w.id} && c'.signals == c.signals - {w.id}
              && c'.watchers == c.watchers - {key} && BucketAt(c'.shelf, w.id.slot) == None
              && forall slot :: slot != w.id.slot ==> BucketAt(c'.shelf, slot) == BucketAt(c.shelf, slot)
            else
              && c'.shelf == c.shelf && c'.live == c.live
              && if w.id in c.signals && !c.signals[w.id] then c'.watchers == c.watchers && c'.signals == c.signals
                 else
                   && c'.watchers == c.watchers[key := w.(lastActivity := now)]
                   && c'.signals == if w.id in c.signals then c.signals[w.id := false] else c.signals)
  {
    if key in c.watchers && TooIdle(c, c.watchers[key], now) {
      RemovalExactly(c, now, key);
    }
  }

  lemma RemovalExactly(c: State, now: int, key: string)
    requires Inv(c) && key in c.watchers && TooIdle(c, c.watchers[key], now)
    ensures
      var c', w := Reap(c, now, key), c.watchers[key];
      && w.id in c.live && c'.live == c.live - {w.id} && c'.signals == c.signals - {w.id}
      && c'.watchers == c.watchers - {key} && BucketAt(c'.shelf, w.id.slot) == None
      && forall slot :: slot != w.id.slot ==> BucketAt(c'.shelf, slot) == BucketAt(c.shelf, slot)
  {
    var w := c.watchers[key];
    CheckRemovesWatched(c, now, key);
    OpenWatcherIsCurrent(c, key);
    BucketFacts(c, w.ns, w.name);
    RemovalDrops(c.shelf, w.ns, w.name);
    assert Installed(c.shelf, w.id);
  }

  lemma ReapedIsIdle(c: State, now: int, key: string, id: BucketId)
    requires Inv(c) && id in c.live && id !in Reap(c, now, key).live
    ensures id in c.reported && WatchedId(c.shelf, id)
    ensures now - c.reported[id] > BucketAt(c.shelf, id.slot).value.cfg.maxIdleMillis * 1_000_000
  {
    var w := c.watchers[key];
    assert TooIdle(c, w, now);
    OpenWatcherIsCurrent(c, key);
    assert w.id == id && WatchedId(c.shelf, id);
    assert Informed(w, c.signals, c.reported) && WatcherOk(c.shelf, c.epoch, w);
  }

  /** A bucket dies in two ways only: its place is configured otherwise, or the reaper finds
      it idle for longer than its limit since its activity was last reported. */
  lemma DeathsAreJustified(c: State, e: Event, id: BucketId)
    requires Inv(c) && Legal(c, e) && id in c.live && id !in Step(c, e).live
    ensures
      || Changes(c, e, id.slot)
      || (e.Check? && id in c.reported && WatchedId(c.shelf, id) &&
            e.now - c.reported[id] > BucketAt(c.shelf, id.slot).value.cfg.maxIdleMillis * 1_000_000)
  {
    match e
    case Lookup(now, k, name) => LookupsKillNone(c, now, k, name);
    case Update(now, sc) => ChangesExactly(c, e, id);
    case Registration(now) =>
    case Check(now, key) => ReapedIsIdle(c, now, key, id);
  }

  lemma LookupsKillNone(c: State, now: int, k: string, name: string)
    ensures c.live <= Find(c, now, k, name).0.live
  {
  }

  /** Every bucket is born with the step that creates it. */
  lemma BirthsAreNew(c: State, e: Event, id: BucketId)
    requires id !in c.live && id in Step(c, e).live
    ensures id.epoch == c.epoch
  {
  }

  lemma StepAdvances(c: State, e: Event)
    ensures Step(c, e).epoch == c.epoch + 1 && Step(c, e).now == e.now
  {
  }

  /** No step revives a bucket: in any run, one that has been destroyed stays
      destroyed, so no bucket is destroyed twice. */
  lemma {:induction false} DeadStayDead(c: State, es: seq<Event>, id: BucketId)
    requires id !in c.live && id.epoch < c.epoch
    ensures id !in Run(c, es).live && c.epoch <= Run(c, es).epoch
  {
    if es != [] {
      var n := |es| - 1;
      DeadStayDead(c, es[..n], id);
      StepAdvances(Run(c, es[..n]), es[n]);
      if id in Run(c, es).live {
        BirthsAreNew(Run(c, es[..n]), es[n], id);
      }
    }
  }

  /** Only a lookup that returns a bucket counts as its activity. */
  lemma OnlyLookupsReport(c: State, e: Event, id: BucketId)
    requires id in Step(c, e).reported && !(id in c.reported && c.reported[id] == Step(c, e).reported[id])
    ensures e.Lookup? && Find(c, e.now, e.ns, e.name).1.Found?
    ensures Find(c, e.now, e.ns, e.name).1.bucket.id == id && Step(c, e).reported[id] == e.now
  {
  }

  /** A watcher left over from a destroyed bucket removes nothing. */
  lemma StaleWatchersAreHarmless(c: State, now: int, key: string)
    requires Inv(c) && key in c.watchers && c.watchers[key].id !in c.live
    ensures Reap(c, now, key).shelf == c.shelf && Reap(c, now, key).live == c.live
    ensures key in Reap(c, now, key).watchers
  {
    assert !WatchedId(c.shelf, c.watchers[key].id);
  }
}
