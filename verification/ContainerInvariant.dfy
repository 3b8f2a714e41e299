// What every step of the bucket container keeps (bucket.go, reaper.go,
// server.go:229-309).
module ContainerInvariant {
  import opened Prelude
  import opened Config
  import opened Container

  // ---- The invariant --------------------------------------------------------------

  function DynamicNames(ns: Namespace): set<string> {
    set n | n in ns.buckets && ns.buckets[n].dynamic
  }

  /** A bucket stands where its identity says, was made from what the configuration
      says for that name, and is dynamic only if the name is not configured. */
  ghost predicate BucketOk(k: string, cfg: NamespaceConfig, n: string, b: Bucket) {
    && b.id.slot == Named(k, n)
    && (if n in cfg.buckets then !b.dynamic && b.cfg == cfg.buckets[n]
        else b.dynamic && cfg.dynamicBucketTemplate == Some(b.cfg))
  }

  ghost predicate DefaultOk(b: Option<Bucket>, cfg: Option<BucketConfig>, slot: Slot) {
    ConfigOf(b) == cfg && (b.Some? ==> b.value.id.slot == slot && !b.value.dynamic)
  }

  /** Dynamic buckets are counted exactly and never exceed a positive cap. */
  ghost predicate CountOk(ns: Namespace) {
    && ns.dynamicBucketCount == |DynamicNames(ns)|
    && (ns.cfg.maxDynamicBuckets > 0 ==> ns.dynamicBucketCount <= ns.cfg.maxDynamicBuckets)
  }

  ghost predicate NamespaceOk(k: string, ns: Namespace) {
    && (forall n :: n in ns.cfg.buckets ==> n in ns.buckets)
    && (forall n :: n in ns.buckets ==> BucketOk(k, ns.cfg, n, ns.buckets[n]))
    && DefaultOk(ns.defaultBucket, ns.cfg.defaultBucket, NamespaceDefault(k))
    && CountOk(ns)
  }

  /** The shelf holds what its configuration says, and nothing else. */
  ghost predicate Stocked(h: Shelf) {
    match h.cfg
    case None => h.namespaces == map[] && h.defaultBucket == None
    case Some(sc) =>
      && Normalised(sc)
      && h.namespaces.Keys == sc.namespaces.Keys
      && (forall k :: k in h.namespaces ==> h.namespaces[k].cfg == sc.namespaces[k] && NamespaceOk(k, h.namespaces[k]))
      && DefaultOk(h.defaultBucket, sc.globalDefaultBucket, GlobalDefault)
  }

  /** The buckets alive are exactly the reachable ones, all made in the past. */
  ghost predicate LiveIsReachable(h: Shelf, live: set<BucketId>, epoch: nat) {
    && (forall id :: id in live <==> Installed(h, id))
    && (forall id :: id in live ==> id.epoch < epoch)
  }

  ghost predicate WatchedId(h: Shelf, id: BucketId) {
    Installed(h, id) && BucketAt(h, id.slot).value.Watched()
  }

  /** Open channels are those of the watched buckets now installed. */
  ghost predicate SignalsOk(h: Shelf, signals: map<BucketId, bool>, reported: map<BucketId, int>, now: int) {
    && (forall id :: id in signals <==> WatchedId(h, id))
    && (forall id :: id in signals ==> id in reported && reported[id] <= now)
  }

  /** A watcher is never younger than what is installed under its name. */
  ghost predicate WatcherOk(h: Shelf, epoch: nat, w: Watcher) {
    && w.id.slot == Named(w.ns, w.name)
    && w.id.epoch < epoch
    && (BucketAt(h, w.id.slot).Some? ==> w.id.epoch <= BucketAt(h, w.id.slot).value.id.epoch)
    && (Installed(h, w.id) ==> w.maxIdle == BucketAt(h, w.id.slot).value.cfg.maxIdleMillis * 1_000_000)
  }

  ghost predicate WatchersOk(h: Shelf, epoch: nat, queue: seq<Watcher>, watchers: map<string, Watcher>) {
    && (forall i :: 0 <= i < |queue| ==> WatcherOk(h, epoch, queue[i]))
    && (forall key :: key in watchers ==> WatcherOk(h, epoch, watchers[key]) && key == watchers[key].Identifier())
  }

  /** Watchers are queued in the order of creation, behind every registered one. */
  ghost predicate QueueOk(queue: seq<Watcher>, watchers: map<string, Watcher>) {
    && (forall i, j :: 0 <= i < j < |queue| ==> queue[i].id.epoch < queue[j].id.epoch)
    && (forall i, key :: 0 <= i < |queue| && key in watchers ==> watchers[key].id.epoch < queue[i].id.epoch)
  }

  /** A watcher whose channel is empty has seen all the activity there was. */
  ghost predicate Informed(w: Watcher, signals: map<BucketId, bool>, reported: map<BucketId, int>) {
    w.id in signals && !signals[w.id] && w.id in reported ==> reported[w.id] <= w.lastActivity
  }

  ghost predicate AllInformed(watchers: map<string, Watcher>, signals: map<BucketId, bool>, reported: map<BucketId,
                              int>) {
    forall key :: key in watchers ==> Informed(watchers[key], signals, reported)
  }

  ghost predicate AllPast(watchers: map<string, Watcher>, now: int) {
    forall key :: key in watchers ==> watchers[key].lastActivity <= now
  }

  ghost predicate Inv(c: State) {
    match c
    case State(shelf, queue, watchers, signals, live, reported, epoch, now) =>
      && Stocked(shelf)
      && LiveIsReachable(shelf, live, epoch)
      && SignalsOk(shelf, signals, reported, now)
      && WatchersOk(shelf, epoch, queue, watchers)
      && QueueOk(queue, watchers)
      && AllInformed(watchers, signals, reported)
      && AllPast(watchers, now)
  }

  // ---- Restocking one namespace ------------------------------------------------------

  lemma ReplaceNamespace(h: Shelf, k: string, ns: Namespace)
    requires Stocked(h) && k in h.namespaces && NamespaceOk(k, ns) && ns.cfg == h.namespaces[k].cfg
    ensures Stocked(h.(namespaces := h.namespaces[k := ns]))
  {
    var h' := h.(namespaces := h.namespaces[k := ns]);
    var sc := h.cfg.value;
    assert h'.namespaces.Keys == h.namespaces.Keys;
    forall k' | k' in h'.namespaces
      ensures h'.namespaces[k'].cfg == sc.namespaces[k'] && NamespaceOk(k', h'.namespaces[k'])
    {
      if k' != k {
        assert h'.namespaces[k'] == h.namespaces[k'];
      }
    }
  }

  /** A new bucket for an unconfigured name is dynamic and fits under the cap. */
  lemma AddBucketOk(epoch: nat, k: string, name: string, ns: Namespace)
    requires NamespaceOk(k, ns) && name !in ns.buckets && ns.cfg.dynamicBucketTemplate.Some? && !AtCap(ns)
    ensures NewNamed(epoch, k, name, ns.cfg).dynamic
    ensures NamespaceOk(k, AddBucket(ns, name, NewNamed(epoch, k, name, ns.cfg)))
  {
    var b := NewNamed(epoch, k, name, ns.cfg);
    var ns' := AddBucket(ns, name, b);
    assert DynamicNames(ns') == DynamicNames(ns) + {name};
  }

  lemma DropBucketOk(k: string, name: string, ns: Namespace)
    requires NamespaceOk(k, ns) && name in ns.buckets && ns.buckets[name].dynamic
    ensures NamespaceOk(k, DropBucket(ns, name))
  {
    assert BucketOk(k, ns.cfg, name, ns.buckets[name]);
    var ns' := DropBucket(ns, name);
    assert DynamicNames(ns) == DynamicNames(ns') + {name};
  }

  /** Putting something else into one place changes no other place. */
  lemma OtherPlaces(h: Shelf, k: string, name: string, ns: Namespace)
    requires k in h.namespaces && ns.defaultBucket == h.namespaces[k].defaultBucket
    requires forall n :: n != name ==> (n in ns.buckets <==> n in h.namespaces[k].buckets)
    requires forall n :: n != name && n in ns.buckets ==> ns.buckets[n] == h.namespaces[k].buckets[n]
    ensures forall slot :: slot != Named(k, name) ==>
      BucketAt(h.(namespaces := h.namespaces[k := ns]), slot) == BucketAt(h, slot)
  {
    var h' := h.(namespaces := h.namespaces[k := ns]);
    forall slot | slot != Named(k, name)
      ensures BucketAt(h', slot) == BucketAt(h, slot)
    {
      match slot
      case GlobalDefault =>
      case NamespaceDefault(_) =>
      case Named(_, _) =>
    }
  }

  // ---- Lookups -----------------------------------------------------------------------

  lemma AdvanceKeepsInv(c: State, now: int)
    requires Inv(c) && c.now <= now
    ensures Inv(Advance(c, now))
  {
  }

  lemma ReportKeepsInv(c: State, now: int, b: Bucket)
    requires Inv(c) && c.now <= now && BucketAt(c.shelf, b.id.slot) == Some(b)
    ensures Inv(Report(Advance(c, now), b, now))
  {
    var c' := Report(Advance(c, now), b, now);
    if b.Watched() {
      assert WatchedId(c.shelf, b.id);
      assert SignalsOk(c'.shelf, c'.signals, c'.reported, now);
      assert AllInformed(c'.watchers, c'.signals, c'.reported);
    }
  }

  /** `h'` has one bucket more than `h`. */
  ghost predicate Adds(h: Shelf, h': Shelf, b: Bucket) {
    && (forall id :: Installed(h', id) <==> Installed(h, id) || id == b.id)
    && (forall id :: WatchedId(h', id) <==> WatchedId(h, id) || (id == b.id && b.Watched()))
    && (forall slot :: slot != b.id.slot ==> BucketAt(h', slot) == BucketAt(h, slot))
    && BucketAt(h', b.id.slot) == Some(b)
  }

  lemma InstallAdds(h: Shelf, k: string, name: string, b: Bucket)
    requires k in h.namespaces && name !in h.namespaces[k].buckets && b.id.slot == Named(k, name)
    ensures Adds(h, h.(namespaces := h.namespaces[k := AddBucket(h.namespaces[k], name, b)]), b)
  {
    OtherPlaces(h, k, name, AddBucket(h.namespaces[k], name, b));
  }

  lemma AddsLive(h: Shelf, h': Shelf, b: Bucket, live: set<BucketId>, epoch: nat)
    requires Adds(h, h', b) && LiveIsReachable(h, live, epoch) && b.id.epoch == epoch
    ensures LiveIsReachable(h', live + {b.id}, epoch + 1)
  {
  }

  lemma AddsSignal(h: Shelf, h': Shelf, b: Bucket, signals: map<BucketId, bool>, reported: map<BucketId, int>,
                   now: int, now': int)
    requires Adds(h, h', b) && SignalsOk(h, signals, reported, now) && now <= now'
    ensures SignalsOk(h', if b.Watched() then signals[b.id := true] else signals,
                      if b.Watched() then reported[b.id := now'] else reported, now')
  {
  }

  lemma AddsWatcher(h: Shelf, h': Shelf, b: Bucket, k: string, name: string, queue: seq<Watcher>,
                    watchers: map<string, Watcher>)
    requires Adds(h, h', b) && b.id.slot == Named(k, name)
    requires WatchersOk(h, b.id.epoch, queue, watchers) && QueueOk(queue, watchers)
    ensures
      var queue' := if b.Watched() then queue + [WatcherFor(b, k, name)] else queue;
      WatchersOk(h', b.id.epoch + 1, queue', watchers) && QueueOk(queue', watchers)
  {
    forall w | WatcherOk(h, b.id.epoch, w)
      ensures WatcherOk(h', b.id.epoch + 1, w)
    {
    }
  }

  lemma AddsNews(b: Bucket, watchers: map<string, Watcher>, signals: map<BucketId, bool>, reported: map<BucketId,
                 int>, now: int)
    requires AllInformed(watchers, signals, reported)
    ensures AllInformed(watchers, signals[b.id := true], reported[b.id := now])
  {
  }

  lemma InstallStocks(h: Shelf, epoch: nat, k: string, name: string)
    requires Stocked(h) && k in h.namespaces && name !in h.namespaces[k].buckets
    requires h.namespaces[k].cfg.dynamicBucketTemplate.Some? && !AtCap(h.namespaces[k])
    ensures
      var b := NewNamed(epoch, k, name, h.namespaces[k].cfg);
      Stocked(h.(namespaces := h.namespaces[k := AddBucket(h.namespaces[k], name, b)]))
  {
    var ns := h.namespaces[k];
    AddBucketOk(epoch, k, name, ns);
    ReplaceNamespace(h, k, AddBucket(ns, name, NewNamed(epoch, k, name, ns.cfg)));
  }

  lemma InstallKeepsInv(c: State, now: int, k: string, name: string)
    requires Inv(c) && c.now <= now && k in c.shelf.namespaces && name !in c.shelf.namespaces[k].buckets
    requires c.shelf.namespaces[k].cfg.dynamicBucketTemplate.Some? && !AtCap(c.shelf.namespaces[k])
    ensures Inv(Install(Advance(c, now), k, name, NewNamed(c.epoch, k, name, c.shelf.namespaces[k].cfg), now))
  {
    var h := c.shelf;
    var b := NewNamed(c.epoch, k, name, h.namespaces[k].cfg);
    var c' := Install(Advance(c, now), k, name, b, now);
    assert Stocked(c'.shelf) by {
      InstallStocks(h, c.epoch, k, name);
    }
    assert LiveIsReachable(c'.shelf, c'.live, c'.epoch) by {
      InstallAdds(h, k, name, b);
      AddsLive(h, c'.shelf, b, c.live, c.epoch);
    }
    assert SignalsOk(c'.shelf, c'.signals, c'.reported, c'.now) by {
      InstallAdds(h, k, name, b);
      AddsSignal(h, c'.shelf, b, c.signals, c.reported, c.now, now);
    }
    assert WatchersOk(c'.shelf, c'.epoch, c'.queue, c'.watchers) && QueueOk(c'.queue, c'.watchers) by {
      InstallAdds(h, k, name, b);
      AddsWatcher(h, c'.shelf, b, k, name, c.queue, c.watchers);
    }
    assert AllInformed(c'.watchers, c'.signals, c'.reported) by {
      AddsNews(b, c.watchers, c.signals, c.reported, now);
    }
  }

  lemma FindKeepsInv(c: State, now: int, k: string, name: string)
    requires Inv(c) && c.now <= now
    ensures Inv(Find(c, now, k, name).0)
  {
    AdvanceKeepsInv(c, now);
    if k in c.shelf.namespaces {
      var ns := c.shelf.namespaces[k];
      assert NamespaceOk(k, ns);
      if name in ns.buckets {
        assert BucketOk(k, ns.cfg, name, ns.buckets[name]);
        ReportKeepsInv(c, now, ns.buckets[name]);
      } else if ns.cfg.dynamicBucketTemplate.Some? && (name in ns.cfg.buckets || !AtCap(ns)) {
        InstallKeepsInv(c, now, k, name);
      }
    }
  }

  // ---- The reaper ---------------------------------------------------------------------

  lemma RegisterKeepsInv(c: State, now: int)
    requires Inv(c) && c.now <= now
    ensures Inv(Register(c, now))
  {
    AdvanceKeepsInv(c, now);
    if c.queue != [] {
      var c' := Register(c, now);
      assert WatcherOk(c.shelf, c.epoch, c.queue[0]);
      assert forall i :: 0 <= i < |c'.queue| ==> c'.queue[i] == c.queue[i + 1];
      assert WatchersOk(c'.shelf, c'.epoch, c'.queue, c'.watchers);
      assert QueueOk(c'.queue, c'.watchers);
    }
  }

  /** A watcher whose channel is open watches the bucket that is now installed
      under its name, so acting on it never touches a successor. */
  lemma OpenWatcherIsCurrent(c: State, key: string)
    requires Inv(c) && key in c.watchers && c.watchers[key].id in c.signals
    ensures
      var w := c.watchers[key];
      && w.ns in c.shelf.namespaces && w.name in c.shelf.namespaces[w.ns].buckets
      && c.shelf.namespaces[w.ns].buckets[w.name].id == w.id
      && c.shelf.namespaces[w.ns].buckets[w.name].dynamic
  {
    assert WatchedId(c.shelf, c.watchers[key].id);
  }

  /** A drained watcher is up to date, and no other watcher shares its channel. */
  lemma DrainInforms(watchers: map<string, Watcher>, key: string, now: int, signals: map<BucketId, bool>,
                     signals': map<BucketId, bool>, reported: map<BucketId, int>)
    requires AllInformed(watchers, signals, reported) && key in watchers
    requires signals' == if watchers[key].id in signals then signals[watchers[key].id := false] else signals
    requires forall key' :: key' in watchers && key' != key ==> watchers[key'].id != watchers[key].id
    requires forall id :: id in signals && id in reported ==> reported[id] <= now
    ensures AllInformed(watchers[key := watchers[key].(lastActivity := now)], signals', reported)
  {
  }

  lemma DrainKeepsInv(c: State, now: int, key: string)
    requires Inv(c) && c.now <= now && key in c.watchers && ActivityDetected(c, c.watchers[key])
    ensures Inv(Reap(c, now, key))
  {
    var c' := Reap(c, now, key);
    assert SignalsOk(c'.shelf, c'.signals, c'.reported, c'.now);
    assert WatchersOk(c'.shelf, c'.epoch, c'.queue, c'.watchers);
    assert AllInformed(c'.watchers, c'.signals, c'.reported) by {
      assert forall key' :: key' in c.watchers ==> key' == c.watchers[key'].Identifier();
      DrainInforms(c.watchers, key, now, c.signals, c'.signals, c.reported);
    }
  }

  /** `h'` has one bucket less than `h`. */
  ghost predicate Drops(h: Shelf, h': Shelf, dead: BucketId) {
    && (forall id :: Installed(h', id) <==> Installed(h, id) && id != dead)
    && (forall id :: WatchedId(h', id) <==> WatchedId(h, id) && id != dead)
    && (forall slot :: slot != dead.slot ==> BucketAt(h', slot) == BucketAt(h, slot))
    && BucketAt(h', dead.slot) == None
  }

  lemma RemovalDrops(h: Shelf, k: string, name: string)
    requires k in h.namespaces && name in h.namespaces[k].buckets
    requires h.namespaces[k].buckets[name].id.slot == Named(k, name)
    ensures Drops(h, h.(namespaces := h.namespaces[k := DropBucket(h.namespaces[k], name)]),
      h.namespaces[k].buckets[name].id)
  {
    OtherPlaces(h, k, name, DropBucket(h.namespaces[k], name));
  }

  lemma DropsLive(h: Shelf, h': Shelf, dead: BucketId, live: set<BucketId>, epoch: nat)
    requires Drops(h, h', dead) && LiveIsReachable(h, live, epoch)
    ensures LiveIsReachable(h', live - {dead}, epoch + 1)
  {
  }

  lemma DropsSignal(h: Shelf, h': Shelf, dead: BucketId, signals: map<BucketId, bool>, reported: map<BucketId, int>,
                    now: int, now': int)
    requires Drops(h, h', dead) && SignalsOk(h, signals, reported, now) && now <= now'
    ensures SignalsOk(h', signals - {dead}, reported, now')
  {
  }

  lemma DropsWatcher(h: Shelf, h': Shelf, dead: BucketId, epoch: nat, queue: seq<Watcher>, watchers: map<string,
                     Watcher>, key: string)
    requires Drops(h, h', dead) && WatchersOk(h, epoch, queue, watchers)
    ensures WatchersOk(h', epoch + 1, queue, watchers - {key})
  {
    forall w | WatcherOk(h, epoch, w)
      ensures WatcherOk(h', epoch + 1, w)
    {
    }
  }

  lemma RemovalStocks(h: Shelf, k: string, name: string)
    requires Stocked(h) && k in h.namespaces && name in h.namespaces[k].buckets && h.namespaces[k].buckets[name].dynamic
    ensures Stocked(h.(namespaces := h.namespaces[k := DropBucket(h.namespaces[k], name)]))
    ensures h.namespaces[k].buckets[name].id.slot == Named(k, name)
  {
    var ns := h.namespaces[k];
    assert NamespaceOk(k, ns) && BucketOk(k, ns.cfg, name, ns.buckets[name]);
    DropBucketOk(k, name, ns);
    ReplaceNamespace(h, k, DropBucket(ns, name));
  }

  /** A container that drops one bucket and its watcher. */
  lemma DroppingKeepsInv(c: State, c': State, dead: BucketId, key: string)
    requires Inv(c) && Drops(c.shelf, c'.shelf, dead) && Stocked(c'.shelf) && c.now <= c'.now && c'.epoch == c.epoch + 1
    requires c'.live == c.live - {dead} && c'.signals == c.signals - {dead} && c'.reported == c.reported
    requires c'.queue == c.queue && c'.watchers == c.watchers - {key}
    ensures Inv(c')
  {
    DropsLive(c.shelf, c'.shelf, dead, c.live, c.epoch);
    DropsSignal(c.shelf, c'.shelf, dead, c.signals, c.reported, c.now, c'.now);
    DropsWatcher(c.shelf, c'.shelf, dead, c.epoch, c.queue, c.watchers, key);
    FewerWatchers(c.queue, c.watchers, key, c.signals, dead, c.reported);
  }

  lemma RemovalKeepsInv(c: State, now: int, key: string)
    requires Inv(c) && c.now <= now && key in c.watchers && TooIdle(c, c.watchers[key], now)
    ensures Inv(Reap(c, now, key))
  {
    var w := c.watchers[key];
    OpenWatcherIsCurrent(c, key);
    RemovalStocks(c.shelf, w.ns, w.name);
    RemovalDrops(c.shelf, w.ns, w.name);
    DroppingKeepsInv(c, Reap(c, now, key), w.id, key);
  }

  lemma FewerWatchers(queue: seq<Watcher>, watchers: map<string, Watcher>, key: string,
                      signals: map<BucketId, bool>, dead: BucketId, reported: map<BucketId, int>)
    requires QueueOk(queue, watchers) && AllInformed(watchers, signals, reported)
    ensures QueueOk(queue, watchers - {key}) && AllInformed(watchers - {key}, signals - {dead}, reported)
  {
  }

  lemma ReapKeepsInv(c: State, now: int, key: string)
    requires Inv(c) && c.now <= now
    ensures Inv(Reap(c, now, key))
  {
    AdvanceKeepsInv(c, now);
    if key in c.watchers {
      if ActivityDetected(c, c.watchers[key]) {
        DrainKeepsInv(c, now, key);
      } else if TooIdle(c, c.watchers[key], now) {
        RemovalKeepsInv(c, now, key);
      }
    }
  }

  // ---- Reconfiguration ------------------------------------------------------------------

  lemma NewNamespaceOk(epoch: nat, k: string, cfg: NamespaceConfig)
    ensures NamespaceOk(k, NewNamespace(epoch, k, cfg))
  {
    assert DynamicNames(NewNamespace(epoch, k, cfg)) == {};
  }

  lemma RestockOk(h: Shelf, epoch: nat, sc: ServiceConfig)
    requires Stocked(h) && Normalised(sc)
    ensures Stocked(Restock(h, epoch, sc))
  {
    var h' := Restock(h, epoch, sc);
    forall k | k in h'.namespaces
      ensures h'.namespaces[k].cfg == sc.namespaces[k] && NamespaceOk(k, h'.namespaces[k])
    {
      NewNamespaceOk(epoch, k, sc.namespaces[k]);
    }
  }

  /** Where buckets are after a configuration is accepted: kept places are
      untouched, the others hold just what is statically configured. */
  lemma RestockPlaces(h: Shelf, epoch: nat, sc: ServiceConfig, slot: Slot)
    ensures KeepsSlot(h, sc, slot) ==> BucketAt(Restock(h, epoch, sc), slot) == BucketAt(h, slot)
    ensures !KeepsSlot(h, sc, slot) ==>
      var b := BucketAt(Restock(h, epoch, sc), slot);
      (b.Some? <==> slot in StaticSlots(sc)) && (b.Some? ==> b.value.id == BucketId(epoch, slot) && !b.value.dynamic)
  {
    match slot
    case GlobalDefault =>
    case NamespaceDefault(k) =>
    case Named(k, n) =>
  }

  lemma RestockInstalled(h: Shelf, epoch: nat, sc: ServiceConfig, id: BucketId)
    ensures KeepsSlot(h, sc, id.slot) ==>
      && (Installed(Restock(h, epoch, sc), id) <==> Installed(h, id))
      && (WatchedId(Restock(h, epoch, sc), id) <==> WatchedId(h, id))
    ensures !KeepsSlot(h, sc, id.slot) ==>
      && (Installed(Restock(h, epoch, sc), id) <==> id in Born(h, epoch, sc))
      && !WatchedId(Restock(h, epoch, sc), id)
  {
    RestockPlaces(h, epoch, sc, id.slot);
    if id in Born(h, epoch, sc) {
      assert id.slot in StaticSlots(sc);
    }
  }

  lemma ConfigureKeepsInv(c: State, now: int, sc: ServiceConfig)
    requires Inv(c) && c.now <= now && Normalised(sc)
    ensures Inv(Configure(c, now, sc))
  {
    if !Accepts(c.shelf, sc) {
      AdvanceKeepsInv(c, now);
    } else {
      var c' := Configure(c, now, sc);
      RestockOk(c.shelf, c.epoch, sc);
      forall id
        ensures id in c'.live <==> Installed(c'.shelf, id)
        ensures id in c'.signals <==> WatchedId(c'.shelf, id)
      {
        RestockInstalled(c.shelf, c.epoch, sc, id);
      }
      assert LiveIsReachable(c'.shelf, c'.live, c'.epoch);
      ConfigureKeepsWatchers(c, now, sc);
    }
  }

  lemma ConfigureKeepsWatchers(c: State, now: int, sc: ServiceConfig)
    requires Inv(c) && c.now <= now && Accepts(c.shelf, sc)
    ensures
      var c' := Configure(c, now, sc);
      && WatchersOk(c'.shelf, c'.epoch, c'.queue, c'.watchers)
      && AllInformed(c'.watchers, c'.signals, c'.reported)
  {
    var c' := Configure(c, now, sc);
    forall w: Watcher | WatcherOk(c.shelf, c.epoch, w)
      ensures WatcherOk(c'.shelf, c'.epoch, w)
    {
      RestockInstalled(c.shelf, c.epoch, sc, w.id);
      RestockPlaces(c.shelf, c.epoch, sc, w.id.slot);
    }
    assert forall id :: id in c'.signals ==> id in c.signals && c'.signals[id] == c.signals[id];
  }

  // ---- What the invariant says about one watcher or one bucket ---------------------------

  lemma WatcherFacts(c: State, key: string)
    requires Inv(c) && key in c.watchers
    ensures c.watchers[key].id.slot == Named(c.watchers[key].ns, c.watchers[key].name)
    ensures key == c.watchers[key].Identifier()
    ensures c.watchers[key].lastActivity <= c.now
    ensures forall i :: 0 <= i < |c.queue| ==> c.watchers[key].id.epoch < c.queue[i].id.epoch
  {
    assert WatcherOk(c.shelf, c.epoch, c.watchers[key]);
  }

  lemma BucketFacts(c: State, k: string, name: string)
    requires Inv(c) && k in c.shelf.namespaces && name in c.shelf.namespaces[k].buckets
    ensures c.shelf.namespaces[k].buckets[name].id.slot == Named(k, name)
  {
    var ns := c.shelf.namespaces[k];
    assert NamespaceOk(k, ns) && BucketOk(k, ns.cfg, name, ns.buckets[name]);
  }

  /** A check that removes a bucket removes the one its watcher watches. */
  lemma CheckRemovesWatched(c: State, now: int, key: string)
    requires Inv(c) && key in c.watchers && TooIdle(c, c.watchers[key], now)
    ensures
      var c' := Reap(c, now, key);
      var id := c.watchers[key].id;
      c'.live == c.live - {id} && c'.signals == c.signals - {id} && c'.watchers == c.watchers - {key} &&
        c'.queue == c.queue
  {
    OpenWatcherIsCurrent(c, key);
  }

  // ---- Every run -----------------------------------------------------------------------

  lemma StepKeepsInv(c: State, e: Event)
    requires Inv(c) && Legal(c, e)
    ensures Inv(Step(c, e))
  {
    match e
    case Lookup(now, k, name) => FindKeepsInv(c, now, k, name);
    case Update(now, sc) => ConfigureKeepsInv(c, now, sc);
    case Registration(now) => RegisterKeepsInv(c, now);
    case Check(now, key) => ReapKeepsInv(c, now, key);
  }

  lemma InitialInv()
    ensures Inv(INITIAL)
  {
    forall slot
      ensures BucketAt(INITIAL.shelf, slot) == None
    {
      match slot
      case GlobalDefault =>
      case NamespaceDefault(_) =>
      case Named(_, _) =>
    }
  }

  lemma LegalPrefix(c: State, es: seq<Event>, n: nat)
    requires n <= |es| && LegalRun(c, es)
    ensures LegalRun(c, es[..n])
  {
    forall i | 0 <= i < n
      ensures Legal(Run(c, es[..n][..i]), es[..n][i])
    {
      assert es[..n][..i] == es[..i];
    }
  }

  /** The invariant holds after any sequence of lookups, reconfigurations,
      registrations and reaper checks. */
  lemma {:induction false} RunKeepsInv(c: State, es: seq<Event>)
    requires Inv(c) && LegalRun(c, es)
    ensures Inv(Run(c, es))
  {
    if es != [] {
      var n := |es| - 1;
      LegalPrefix(c, es, n);
      RunKeepsInv(c, es[..n]);
      StepKeepsInv(Run(c, es[..n]), es[n]);
    }
  }
}
