// The container as the program runs it (bucket.go, reaper.go, server.go:229-309)
// over the Redis bucket factory's reference counts (buckets/redis/bucket_factory.go:291-342,
// buckets/redis/bucket.go:107-122).
//
// Each method carries out one atomic step with the program's own loops and
// counters and is proved to do what the corresponding step of `Container` says.
// Operations that would bring the program down are preconditions: destroying a
// bucket twice, reporting on or closing a closed channel, a negative reference
// count.
module BucketContainer {
  import opened Prelude
  import opened Config
  import opened Container
  import opened ContainerInvariant
  import TokenBucket

  // ---- What the reference counts should be ---------------------------------------------

  /** The parameters a Redis bucket passes to its script. */
  datatype Attributes = Attributes(nanosBetweenTokens: int, maxTokens: int, maxIdleMillis: int, maxDebtNanos: int)

  /** Division as Go does it, towards zero. */
  function Quotient(a: int, b: int): int
    requires 0 <= a && b != 0
  {
    if b > 0 then a / b else -(a / -b)
  }

  function AttributesOf(cfg: BucketConfig): Attributes
    requires cfg.fillRate != 0
  {
    Attributes(
      Quotient(1_000_000_000, cfg.fillRate),
      cfg.size,
      if cfg.maxIdleMillis > 0 then cfg.maxIdleMillis else 0,
      cfg.maxDebtMillis * 1_000_000)
  }

  /** The script is given the limits of the bucket's configuration. */
  lemma ScriptParametersAreLimits(cfg: BucketConfig)
    requires TokenBucket.Usable(cfg)
    ensures
      var a := AttributesOf(cfg);
      && TokenBucket.Limits(a.maxTokens, a.nanosBetweenTokens, a.maxDebtNanos) == TokenBucket.LimitsOf(cfg)
      && (cfg.maxIdleMillis > 0 ==> a.maxIdleMillis == cfg.maxIdleMillis)
      && (cfg.maxIdleMillis <= 0 ==> a.maxIdleMillis == 0)
  {
  }

  function TemplateAttributes(cfg: NamespaceConfig): Option<Attributes> {
    if cfg.dynamicBucketTemplate.Some? && cfg.dynamicBucketTemplate.value.fillRate != 0
    then Some(AttributesOf(cfg.dynamicBucketTemplate.value)) else None
  }

  /** A namespace's count is the number of its dynamic buckets and its shared
      attributes are those of its template; it has both or, without dynamic
      buckets, neither. */
  ghost predicate CountedAt(count: Option<int>, shared: Option<Attributes>, ns: Option<Namespace>) {
    if ns.None? || DynamicNames(ns.value) == {} then count == None && shared == None
    else count == Some(|DynamicNames(ns.value)|) && shared.Some? && shared == TemplateAttributes(ns.value.cfg)
  }

  function Get<T>(m: map<string, T>, k: string): Option<T> {
    if k in m then Some(m[k]) else None
  }

  ghost predicate Counted(refcounts: map<string, int>, shared: map<string, Attributes>, nss: map<string, Namespace>) {
    forall k :: CountedAt(Get(refcounts, k), Get(shared, k), Get(nss, k))
  }

  function Increment(refcounts: map<string, int>, k: string): map<string, int> {
    refcounts[k := (if k in refcounts then refcounts[k] else 0) + 1]
  }

  function Decrement(refcounts: map<string, int>, k: string): map<string, int>
    requires k in refcounts
  {
    if refcounts[k] == 1 then refcounts - {k} else refcounts[k := refcounts[k] - 1]
  }

  /** Accounts that differ at one namespace only. */
  lemma CountedElsewhere(refcounts: map<string, int>, shared: map<string, Attributes>, nss: map<string, Namespace>,
                         k: string,
                         refcounts': map<string, int>, shared': map<string, Attributes>, nss': map<string, Namespace>)
    requires Counted(refcounts, shared, nss)
    requires CountedAt(Get(refcounts', k), Get(shared', k), Get(nss', k))
    requires forall k' :: k' != k ==>
      Get(refcounts', k') == Get(refcounts, k') && Get(shared', k') == Get(shared, k') && Get(nss', k') == Get(nss, k')
    ensures Counted(refcounts', shared', nss')
  {
    forall k'
      ensures CountedAt(Get(refcounts', k'), Get(shared', k'), Get(nss', k'))
    {
      assert CountedAt(Get(refcounts, k'), Get(shared, k'), Get(nss, k'));
    }
  }

  lemma CountedAtAdd(count: Option<int>, shared: Option<Attributes>, ns: Namespace, name: string, b: Bucket)
    requires CountedAt(count, shared, Some(ns)) && name !in ns.buckets && b.dynamic
    requires b.cfg.fillRate != 0 && ns.cfg.dynamicBucketTemplate == Some(b.cfg)
    ensures count.Some? <==> shared.Some?
    ensures CountedAt(Some((if count.Some? then count.value else 0) + 1),
                      if shared.Some? then shared else Some(AttributesOf(b.cfg)), Some(AddBucket(ns, name, b)))
  {
    assert DynamicNames(AddBucket(ns, name, b)) == DynamicNames(ns) + {name};
  }

  lemma CountedAdd(refcounts: map<string, int>, shared: map<string, Attributes>, nss: map<string, Namespace>,
                   k: string, name: string, b: Bucket)
    requires Counted(refcounts, shared, nss) && k in nss && name !in nss[k].buckets && b.dynamic
    requires b.cfg.fillRate != 0 && nss[k].cfg.dynamicBucketTemplate == Some(b.cfg)
    ensures k in shared <==> k in refcounts
    ensures Counted(Increment(refcounts, k), if k in shared then shared else shared[k := AttributesOf(b.cfg)],
                    nss[k := AddBucket(nss[k], name, b)])
  {
    assert CountedAt(Get(refcounts, k), Get(shared, k), Get(nss, k));
    CountedAtAdd(Get(refcounts, k), Get(shared, k), nss[k], name, b);
    CountedElsewhere(refcounts, shared, nss, k, Increment(refcounts, k),
                     if k in shared then shared else shared[k := AttributesOf(b.cfg)],
                       nss[k := AddBucket(nss[k], name, b)]);
  }

  lemma CountedRemove(refcounts: map<string, int>, shared: map<string, Attributes>, nss: map<string, Namespace>,
                      k: string, name: string)
    requires Counted(refcounts, shared, nss) && k in nss && name in nss[k].buckets && nss[k].buckets[name].dynamic
    ensures k in refcounts && 1 <= refcounts[k]
    ensures Counted(Decrement(refcounts, k), if refcounts[k] == 1 then shared - {k} else shared,
                    nss[k := DropBucket(nss[k], name)])
  {
    assert CountedAt(Get(refcounts, k), Get(shared, k), Get(nss, k));
    assert name in DynamicNames(nss[k]);
    var ns' := DropBucket(nss[k], name);
    assert DynamicNames(nss[k]) == DynamicNames(ns') + {name};
    CountedElsewhere(refcounts, shared, nss, k, Decrement(refcounts, k),
                     if refcounts[k] == 1 then shared - {k} else shared, nss[k := ns']);
  }

  /** Replacing a namespace by one with the same dynamic buckets, or forgetting one
      without any, changes no count. */
  lemma CountedSame(refcounts: map<string, int>, shared: map<string, Attributes>, nss: map<string, Namespace>,
                    k: string, ns: Option<Namespace>)
    requires Counted(refcounts, shared, nss)
    requires (if k in nss then DynamicNames(nss[k]) else {}) == (if ns.Some? then DynamicNames(ns.value) else {})
    requires k in nss && ns.Some? && DynamicNames(ns.value) != {} ==> nss[k].cfg == ns.value.cfg
    ensures Counted(refcounts, shared, if ns.Some? then nss[k := ns.value] else nss - {k})
  {
    assert CountedAt(Get(refcounts, k), Get(shared, k), Get(nss, k));
    CountedElsewhere(refcounts, shared, nss, k, refcounts, shared, if ns.Some? then nss[k := ns.value] else nss - {k});
  }

  /** Destroying one bucket of what is left of a namespace. */
  lemma CountedDrop(refcounts: map<string, int>, shared: map<string, Attributes>, nss: map<string, Namespace>,
                    k: string, rest: Namespace, name: string)
    requires Counted(refcounts, shared, nss[k := rest]) && name in rest.buckets
    ensures rest.buckets[name].dynamic ==>
      && k in refcounts && 1 <= refcounts[k]
      && Counted(Decrement(refcounts, k), if refcounts[k] ==
           1 then shared - {k} else shared, nss[k := DropBucket(rest, name)])
    ensures !rest.buckets[name].dynamic ==> Counted(refcounts, shared, nss[k := DropBucket(rest, name)])
  {
    var rest' := DropBucket(rest, name);
    assert nss[k := rest][k := rest'] == nss[k := rest'];
    if rest.buckets[name].dynamic {
      CountedRemove(refcounts, shared, nss[k := rest], k, name);
    } else {
      assert DynamicNames(rest') == DynamicNames(rest);
      CountedSame(refcounts, shared, nss[k := rest], k, Some(rest'));
    }
  }

  /** Forgetting a namespace of which nothing is left. */
  lemma CountedForget(refcounts: map<string, int>, shared: map<string, Attributes>, nss: map<string, Namespace>,
                      k: string, rest: Namespace)
    requires Counted(refcounts, shared, nss[k := rest]) && rest.buckets.Keys == {}
    ensures Counted(refcounts, shared, nss - {k})
  {
    assert DynamicNames(rest) == {};
    CountedSame(refcounts, shared, nss[k := rest], k, None);
    assert nss[k := rest] - {k} == nss - {k};
  }

  // ---- Which identities belong to a namespace --------------------------------------------

  ghost predicate SlotOf(slot: Slot, k: string) {
    (slot.NamespaceDefault? || slot.Named?) && slot.ns == k
  }

  ghost predicate Holds(ns: Namespace, k: string, id: BucketId) {
    match id.slot
    case GlobalDefault => false
    case NamespaceDefault(k') => k' == k && ns.defaultBucket.Some? && ns.defaultBucket.value.id == id
    case Named(k', n) => k' == k && n in ns.buckets && ns.buckets[n].id == id
  }

  /** In every valid state the count of a namespace is its number of live dynamic
      buckets, and the attributes they share are those of each one's own
      configuration: none goes stale across a reconfiguration. */
  lemma AttributesAreCurrent(c: State, refcounts: map<string, int>, shared: map<string, Attributes>, k: string,
                             name: string)
    requires Inv(c) && Counted(refcounts, shared, c.shelf.namespaces)
    requires k in c.shelf.namespaces && name in c.shelf.namespaces[k].buckets
    requires c.shelf.namespaces[k].buckets[name].dynamic
    ensures
      var b := c.shelf.namespaces[k].buckets[name];
      && b.cfg.fillRate != 0 && k in shared && shared[k] == AttributesOf(b.cfg)
      && k in refcounts && refcounts[k] == c.shelf.namespaces[k].dynamicBucketCount
  {
    var ns := c.shelf.namespaces[k];
    assert CountedAt(Get(refcounts, k), Get(shared, k), Get(c.shelf.namespaces, k));
    assert name in DynamicNames(ns);
    assert NamespaceOk(k, ns) && NormalisedNamespace(ns.cfg, k) && BucketOk(k, ns.cfg, name, ns.buckets[name]);
  }

  /** What a namespace must satisfy for its buckets to be destroyed one by one. */
  ghost predicate Destroyable(ns: Namespace, k: string, live: set<BucketId>, activities: map<BucketId, bool>) {
    && (ns.defaultBucket.Some? ==>
          ns.defaultBucket.value.id.slot == NamespaceDefault(k) && !ns.defaultBucket.value.dynamic &&
          ns.defaultBucket.value.id !in activities)
    && (forall n :: n in ns.buckets ==> ns.buckets[n].id.slot == Named(k, n))
    && (forall n :: n in ns.buckets && ns.buckets[n].dynamic ==> ns.buckets[n].cfg.namespace == k)
    && (forall n :: n in ns.buckets ==> (ns.buckets[n].id in activities <==> ns.buckets[n].Watched()))
    && (forall id: BucketId :: SlotOf(id.slot, k) ==> (id in live <==> Holds(ns, k, id)))
    && (forall id: BucketId :: SlotOf(id.slot, k) && id in activities ==> id in live)
  }

  /** Of namespace `k` only the named buckets in `pending` are still alive. */
  ghost predicate Gone(live: set<BucketId>, live0: set<BucketId>, k: string, pending: set<string>) {
    forall id :: id in live <==> id in live0 && (SlotOf(id.slot, k) ==> id.slot.Named? && id.slot.name in pending)
  }

  ghost predicate Silenced(activities: map<BucketId, bool>, activities0: map<BucketId, bool>, k: string,
                           pending: set<string>) {
    && (forall id :: id in activities <==>
          id in activities0 && (SlotOf(id.slot, k) ==> id.slot.Named? && id.slot.name in pending))
    && (forall id :: id in activities ==> activities[id] == activities0[id])
  }

  lemma OneMoreGone(live: set<BucketId>, live0: set<BucketId>, activities: map<BucketId, bool>,
                    activities0: map<BucketId, bool>,
                    ns: Namespace, k: string, pending: set<string>, name: string)
    requires Destroyable(ns, k, live0, activities0) && name in pending && pending <= ns.buckets.Keys
    requires Gone(live, live0, k, pending) && Silenced(activities, activities0, k, pending)
    ensures
      var id := ns.buckets[name].id;
      Gone(live - {id}, live0, k, pending - {name}) && Silenced(activities - {id}, activities0, k, pending - {name})
  {
    var b := ns.buckets[name];
    forall id: BucketId | id.slot == Named(k, name)
      ensures id in live0 ==> id == b.id
      ensures id in activities0 ==> id == b.id
    {
      assert SlotOf(id.slot, k);
    }
  }

  /** A reconfiguration: the state before it, the state after it, and the
      configuration that is applied. */
  datatype Change = Change(c0: State, c1: State, sc: ServiceConfig)

  /** How far it has come: the global default and the namespaces in `done` are as in
      the new state, the rest as in the old one. */
  ghost predicate Midway(ch: Change, done: set<string>, nss: map<string, Namespace>, live: set<BucketId>,
                         activities: map<BucketId, bool>) {
    match ch
    case Change(c0, c1, _) =>
      NamespacesMidway(nss, c0, c1, done) && LiveMidway(live, c0, c1, done) && SignalsMidway(activities, c0, c1, done)
  }

  ghost predicate SlotDone(slot: Slot, done: set<string>) {
    slot.GlobalDefault? || slot.ns in done
  }

  ghost predicate LiveMidway(live: set<BucketId>, c0: State, c1: State, done: set<string>) {
    forall id :: id in live <==> id in (if SlotDone(id.slot, done) then c1.live else c0.live)
  }

  ghost predicate SignalsMidway(activities: map<BucketId, bool>, c0: State, c1: State, done: set<string>) {
    && (forall id :: id in activities <==> id in (if SlotDone(id.slot, done) then c1.signals else c0.signals))
    && (forall id :: id in activities ==> id in c0.signals && activities[id] == c0.signals[id])
  }

  ghost predicate NamespacesMidway(nss: map<string, Namespace>, c0: State, c1: State, done: set<string>) {
    forall k :: Get(nss, k) == Get(if k in done then c1.shelf.namespaces else c0.shelf.namespaces, k)
  }

  /** What the invariant says about the identities of one namespace. */
  ghost predicate IdsOk(c: State, k: string) {
    forall id: BucketId :: SlotOf(id.slot, k) ==>
      && (id in c.live <==> k in c.shelf.namespaces && Holds(c.shelf.namespaces[k], k, id))
      && (id in c.signals ==> id in c.live)
  }

  lemma IdsFacts(c: State, k: string)
    requires Inv(c)
    ensures IdsOk(c, k)
  {
    forall id: BucketId | SlotOf(id.slot, k)
      ensures id in c.live <==> k in c.shelf.namespaces && Holds(c.shelf.namespaces[k], k, id)
      ensures id in c.signals ==> id in c.live
    {
      assert id in c.live <==> Installed(c.shelf, id);
      assert id in c.signals <==> WatchedId(c.shelf, id);
    }
  }

  lemma DestroyableFacts(c: State, k: string)
    requires Inv(c) && k in c.shelf.namespaces
    ensures Destroyable(c.shelf.namespaces[k], k, c.live, c.signals)
  {
    var ns := c.shelf.namespaces[k];
    assert NamespaceOk(k, ns) && NormalisedNamespace(ns.cfg, k);
    IdsFacts(c, k);
    if ns.defaultBucket.Some? {
      assert !WatchedId(c.shelf, ns.defaultBucket.value.id);
    }
    forall n | n in ns.buckets
      ensures ns.buckets[n].id.slot == Named(k, n)
      ensures ns.buckets[n].dynamic ==> ns.buckets[n].cfg.namespace == k
      ensures ns.buckets[n].id in c.signals <==> ns.buckets[n].Watched()
    {
      assert BucketOk(k, ns.cfg, n, ns.buckets[n]);
      InstalledFacts(c, k, n);
    }
  }

  /** The global default is alive, alone in its place, and never watched. */
  ghost predicate GlobalOk(c: State) {
    && (forall id: BucketId :: id.slot == GlobalDefault ==>
          && (id in c.live <==> c.shelf.defaultBucket.Some? && c.shelf.defaultBucket.value.id == id)
          && id !in c.signals)
    && (c.shelf.defaultBucket.Some? ==>
          && c.shelf.defaultBucket.value.id.slot == GlobalDefault && !c.shelf.defaultBucket.value.dynamic
          && c.shelf.defaultBucket.value.id in c.live)
  }

  lemma GlobalDefaultFacts(c: State)
    requires Inv(c)
    ensures GlobalOk(c)
  {
    forall id: BucketId | id.slot == GlobalDefault
      ensures id in c.live <==> c.shelf.defaultBucket.Some? && c.shelf.defaultBucket.value.id == id
      ensures id !in c.signals
    {
      assert id in c.live <==> Installed(c.shelf, id);
      assert id in c.signals <==> WatchedId(c.shelf, id);
    }
  }

  /** What changes and what does not, apart from namespaces and identities. */
  ghost predicate Applied(ch: Change, now: int) {
    match ch
    case Change(c0, c1, sc) =>
      && c1.shelf.cfg == Some(sc) && c1.shelf.namespaces.Keys == sc.namespaces.Keys
      && c1.shelf.defaultBucket ==
           (if KeepsGlobalDefault(c0.shelf, sc) then c0.shelf.defaultBucket
            else NewDefault(c0.epoch, GlobalDefault, sc.globalDefaultBucket))
      && c1.queue == c0.queue && c1.watchers == c0.watchers && c1.reported == c0.reported
      && c1.epoch == c0.epoch + 1 && c1.now == now
      && (forall id :: id in c1.signals ==> id in c0.signals && c1.signals[id] == c0.signals[id])
      && GlobalOk(c0) && GlobalOk(c1)
  }

  lemma AppliedFacts(c0: State, now: int, sc: ServiceConfig)
    requires Inv(c0) && Inv(Configure(c0, now, sc)) && Accepts(c0.shelf, sc)
    ensures Applied(Change(c0, Configure(c0, now, sc), sc), now)
  {
    GlobalDefaultFacts(c0);
    GlobalDefaultFacts(Configure(c0, now, sc));
  }

  /** Once the global default is dealt with, the reconfiguration is midway. */
  lemma GlobalMidway(ch: Change, now: int, live: set<BucketId>)
    requires Applied(ch, now)
    requires
      if KeepsGlobalDefault(ch.c0.shelf, ch.sc) then live == ch.c0.live
      else live == ch.c0.live - (if ch.c0.shelf.defaultBucket.Some? then {ch.c0.shelf.defaultBucket.value.id} else {})
                   + (if ch.sc.globalDefaultBucket.Some? then {BucketId(ch.c0.epoch, GlobalDefault)} else {})
    ensures Midway(ch, {}, ch.c0.shelf.namespaces, live, ch.c0.signals)
  {
    assert LiveMidway(live, ch.c0, ch.c1, {});
  }

  /** A namespace of the new configuration is missing exactly until it is done. */
  lemma MissingUntilDone(ch: Change, done: set<string>, nss: map<string, Namespace>, live: set<BucketId>,
                         activities: map<BucketId, bool>, k: string)
    requires Midway(ch, done, nss, live, activities) && ch.c0.shelf.namespaces.Keys <= done
    requires k in ch.c1.shelf.namespaces
    ensures k in nss <==> k in done
  {
    assert Get(nss, k) == Get(if k in done then ch.c1.shelf.namespaces else ch.c0.shelf.namespaces, k);
  }

  /** What the two ends of a reconfiguration say about one namespace. */
  ghost predicate EndsAt(ch: Change, k: string) {
    match ch
    case Change(c0, c1, sc) =>
      && IdsOk(c0, k) && IdsOk(c1, k)
      && (k in c0.shelf.namespaces ==> Destroyable(c0.shelf.namespaces[k], k, c0.live, c0.signals))
      && (k in sc.namespaces ==> sc.namespaces[k].name == k)
      && Get(c1.shelf.namespaces, k) == Get(Restock(c0.shelf, c0.epoch, sc).namespaces, k)
      && (forall id: BucketId :: SlotOf(id.slot, k) ==>
           (id in c1.signals <==> id in c0.signals && KeepsNamespace(c0.shelf, sc, k)))
  }

  lemma EndsFacts(c0: State, now: int, sc: ServiceConfig, k: string)
    requires Inv(c0) && Inv(Configure(c0, now, sc)) && Accepts(c0.shelf, sc) && Normalised(sc)
    ensures EndsAt(Change(c0, Configure(c0, now, sc), sc), k)
  {
    IdsFacts(c0, k);
    IdsFacts(Configure(c0, now, sc), k);
    if k in c0.shelf.namespaces {
      DestroyableFacts(c0, k);
    }
    SignalsAfter(c0, now, sc, k);
  }

  lemma SignalsAfter(c0: State, now: int, sc: ServiceConfig, k: string)
    requires Accepts(c0.shelf, sc) && IdsOk(c0, k)
    ensures forall id: BucketId :: SlotOf(id.slot, k) ==>
      (id in Configure(c0, now, sc).signals <==> id in c0.signals && KeepsNamespace(c0.shelf, sc, k))
  {
    forall id: BucketId | SlotOf(id.slot, k)
      ensures KeepsSlot(c0.shelf, sc, id.slot) <==> KeepsNamespace(c0.shelf, sc, k)
    {
    }
  }

  /** When every namespace of either side is done, so is the reconfiguration. */
  lemma MidwayComplete(ch: Change, now: int, v: State)
    requires (forall k :: EndsAt(ch, k)) && Applied(ch, now)
    requires Midway(ch, ch.c0.shelf.namespaces.Keys + ch.sc.namespaces.Keys, v.shelf.namespaces, v.live, v.signals)
    requires v.shelf.cfg == Some(ch.sc) && v.shelf.defaultBucket == ch.c1.shelf.defaultBucket
    requires v.queue == ch.c0.queue && v.watchers == ch.c0.watchers && v.reported == ch.c0.reported
    requires v.epoch == ch.c0.epoch + 1 && v.now == now
    ensures v == ch.c1
  {
    var done := ch.c0.shelf.namespaces.Keys + ch.sc.namespaces.Keys;
    SameMap(v.shelf.namespaces, ch.c1.shelf.namespaces);
    forall id: BucketId
      ensures id in v.live <==> id in ch.c1.live
      ensures id in v.signals <==> id in ch.c1.signals
    {
      if !SlotDone(id.slot, done) {
        assert EndsAt(ch, id.slot.ns);
      }
    }
    assert v.signals == ch.c1.signals && v.live == ch.c1.live && v.shelf == ch.c1.shelf;
  }

  lemma SameMap<T>(a: map<string, T>, b: map<string, T>)
    requires forall k :: Get(a, k) == Get(b, k)
    ensures a == b
  {
    forall k
      ensures k in a <==> k in b
      ensures k in a ==> a[k] == b[k]
    {
      assert Get(a, k) == Get(b, k);
    }
  }

  /** A namespace that still stands as in the old state can be destroyed midway. */
  lemma DestroyableMidway(ns: Namespace, k: string, live: set<BucketId>, activities: map<BucketId, bool>,
                          c0: State, c1: State, done: set<string>)
    requires Destroyable(ns, k, c0.live, c0.signals) && k !in done
    requires LiveMidway(live, c0, c1, done) && SignalsMidway(activities, c0, c1, done)
    ensures Destroyable(ns, k, live, activities)
  {
  }

  lemma InstalledFacts(c: State, k: string, name: string)
    requires Inv(c) && k in c.shelf.namespaces && name in c.shelf.namespaces[k].buckets
    ensures
      var b := c.shelf.namespaces[k].buckets[name];
      b.id in c.live && (b.Watched() <==> b.id in c.signals)
  {
    BucketFacts(c, k, name);
    var b := c.shelf.namespaces[k].buckets[name];
    assert Installed(c.shelf, b.id) && (b.Watched() <==> WatchedId(c.shelf, b.id));
  }

  /** A name that is not installed is not configured, and a template is complete. */
  lemma TemplateFacts(c: State, k: string)
    requires Inv(c) && k in c.shelf.namespaces && c.shelf.namespaces[k].cfg.dynamicBucketTemplate.Some?
    ensures c.shelf.namespaces[k].cfg.dynamicBucketTemplate.value.fillRate != 0
    ensures forall name :: name !in c.shelf.namespaces[k].buckets ==> name !in c.shelf.namespaces[k].cfg.buckets
  {
    assert NormalisedNamespace(c.shelf.namespaces[k].cfg, k);
    assert NamespaceOk(k, c.shelf.namespaces[k]);
  }

  /** An idle watcher's bucket can be removed. */
  lemma ReapableFacts(c: State, key: string)
    requires Inv(c) && key in c.watchers && !ActivityDetected(c, c.watchers[key])
    ensures
      var w := c.watchers[key];
      && w.ns in c.shelf.namespaces && w.name in c.shelf.namespaces[w.ns].buckets
      && var b := c.shelf.namespaces[w.ns].buckets[w.name];
         b.id in c.live && b.dynamic && b.cfg.namespace == w.ns && (b.Watched() <==> b.id in c.signals)
  {
    var w := c.watchers[key];
    OpenWatcherIsCurrent(c, key);
    InstalledFacts(c, w.ns, w.name);
    DynamicFacts(c.shelf, w.ns, w.name);
  }

  lemma DynamicFacts(h: Shelf, k: string, name: string)
    requires Stocked(h) && k in h.namespaces && name in h.namespaces[k].buckets && h.namespaces[k].buckets[name].dynamic
    ensures h.namespaces[k].buckets[name].cfg.namespace == k
  {
    assert NamespaceOk(k, h.namespaces[k]) && NormalisedNamespace(h.namespaces[k].cfg, k);
    assert BucketOk(k, h.namespaces[k].cfg, name, h.namespaces[k].buckets[name]);
  }

  /** Looking at one more watcher, which may go away, and keeping the least limit. */
  lemma SleepStep(sleep: int, minFrequency: int, watchers: map<string, Watcher>, watchers': map<string, Watcher>,
                  pending: set<string>, key: string)
    requires key in pending && pending <= watchers.Keys
    requires SleepOk(sleep, minFrequency, watchers, watchers.Keys - pending)
    requires watchers'.Keys == watchers.Keys || watchers'.Keys == watchers.Keys - {key}
    requires forall k :: k in watchers' ==> watchers'[k].maxIdle == watchers[k].maxIdle
    ensures pending - {key} <= watchers'.Keys
    ensures SleepOk(if key in watchers' then Min(watchers'[key].maxIdle, sleep) else sleep,
                    minFrequency, watchers', watchers'.Keys - (pending - {key}))
  {
    var seen := watchers.Keys - pending;
    assert watchers'.Keys - (pending - {key}) == if key in watchers' then seen + {key} else seen;
    if sleep != minFrequency {
      var k :| k in seen && sleep == watchers[k].maxIdle;
      assert sleep == watchers'[k].maxIdle;
    }
  }

  lemma OneLessPending(order: seq<string>, pending: set<string>, key: string)
    requires key in pending
    ensures multiset(order + [key]) + multiset(pending - {key}) == multiset(order) + multiset(pending)
  {
    assert pending == (pending - {key}) + {key};
  }

  lemma ChecksSnoc(now: int, order: seq<string>, key: string)
    ensures forall c :: Run(c, Checks(now, order + [key])) == Reap(Run(c, Checks(now, order)), now, key)
  {
    var es := Checks(now, order + [key]);
    assert es[..|es| - 1] == Checks(now, order);
  }

  class BucketContainer {
    var cfg: Option<ServiceConfig>
    var namespaces: map<string, Namespace>
    var defaultBucket: Option<Bucket>
    // The reaper: watchers on their way to it, those it has registered, and the
    // activity channels that are open.
    var newWatchers: seq<Watcher>
    var watchers: map<string, Watcher>
    var activities: map<BucketId, bool>
    // The Redis bucket factory.
    var refcounts: map<string, int>
    var sharedAttributes: map<string, Attributes>
    // Steps taken, for telling buckets apart.
    var steps: nat
    ghost var live: set<BucketId>
    ghost var reported: map<BucketId, int>
    ghost var clock: int

    ghost function View(): State
      reads this
    {
      State(Shelf(cfg, namespaces, defaultBucket), newWatchers, watchers, activities, live, reported, steps, clock)
    }

    ghost predicate Valid()
      reads this
    {
      Inv(View()) && Counted(refcounts, sharedAttributes, namespaces)
    }

    constructor ()
      ensures Valid() && View() == INITIAL
    {
      cfg, namespaces, defaultBucket := None, map[], None;
      newWatchers, watchers, activities := [], map[], map[];
      refcounts, sharedAttributes := map[], map[];
      steps, live, reported, clock := 0, {}, map[], 0;
      new;
      InitialInv();
    }

    // ---- The bucket factory ----------------------------------------------------------

    /** Makes a bucket; dynamic ones share their namespace's attributes. */
    method NewBucket(namespace: string, slot: Slot, bCfg: BucketConfig, dyn: bool) returns (b: Bucket)
      requires dyn ==> bCfg.fillRate != 0 && (namespace in sharedAttributes <==> namespace in refcounts)
      modifies this`refcounts, this`sharedAttributes, this`live
      ensures b == Bucket(BucketId(steps, slot), bCfg, dyn) && live == old(live) + {b.id}
      ensures refcounts == if dyn then Increment(old(refcounts), namespace) else old(refcounts)
      ensures sharedAttributes ==
        if dyn && namespace !in old(sharedAttributes) then old(sharedAttributes)[namespace := AttributesOf(bCfg)]
        else old(sharedAttributes)
    {
      if dyn {
        if namespace !in sharedAttributes {
          sharedAttributes := sharedAttributes[namespace := AttributesOf(bCfg)];
          refcounts := refcounts[namespace := 0];
        }
        refcounts := refcounts[namespace := refcounts[namespace] + 1];
      }
      b := Bucket(BucketId(steps, slot), bCfg, dyn);
      live := live + {b.id};
    }

    /** Destroys a bucket: closes its channel if it has one and, for a dynamic one,
        gives up its share of the attributes. */
    method DestroyBucket(b: Bucket)
      requires b.id in live
      requires b.Watched() ==> b.id in activities
      requires b.dynamic ==> b.cfg.namespace in refcounts && 1 <= refcounts[b.cfg.namespace]
      requires !b.Watched() ==> b.id !in activities
      modifies this`refcounts, this`sharedAttributes, this`live, this`activities
      ensures live == old(live) - {b.id} && activities == old(activities) - {b.id}
      ensures refcounts == if b.dynamic then Decrement(old(refcounts), b.cfg.namespace) else old(refcounts)
      ensures sharedAttributes ==
        if b.dynamic && old(refcounts)[b.cfg.namespace] == 1 then old(sharedAttributes) - {b.cfg.namespace}
        else old(sharedAttributes)
    {
      if b.Watched() {
        activities := activities - {b.id};
      }
      if b.dynamic {
        var k := b.cfg.namespace;
        refcounts := refcounts[k := refcounts[k] - 1];
        if refcounts[k] == 0 {
          sharedAttributes := sharedAttributes - {k};
          refcounts := refcounts - {k};
        }
      }
      live := live - {b.id};
    }

    // ---- Lookups -----------------------------------------------------------------------

    method ReportActivity(b: Bucket, now: int)
      requires b.Watched() ==> b.id in activities
      modifies this`activities, this`reported
      ensures View() == Report(old(View()), b, now)
    {
      if b.Watched() {
        activities := activities[b.id := true];
        reported := reported[b.id := now];
      }
    }

    /** Makes a dynamic bucket under a name of a namespace, with a watcher if it can
        be reaped, and reports its first activity. */
    method CreateDynamicBucket(namespace: string, bucketName: string, bCfg: BucketConfig, now: int) returns (b: Bucket)
      requires namespace in namespaces && bucketName !in namespaces[namespace].buckets
      requires Counted(refcounts, sharedAttributes, namespaces)
      requires bCfg.fillRate != 0 && namespaces[namespace].cfg.dynamicBucketTemplate == Some(bCfg)
      modifies this
      ensures b == Bucket(BucketId(old(steps), Named(namespace, bucketName)), bCfg, true)
      ensures View() == Install(old(View()), namespace, bucketName, b, now)
      ensures Counted(refcounts, sharedAttributes, namespaces)
    {
      CountedAdd(refcounts, sharedAttributes, namespaces, namespace, bucketName,
                 Bucket(BucketId(steps, Named(namespace, bucketName)), bCfg, true));
      b := InstallDynamicBucket(namespace, bucketName, bCfg, now);
    }

    method InstallDynamicBucket(namespace: string, bucketName: string, bCfg: BucketConfig, now: int) returns (b: Bucket)
      requires namespace in namespaces && bCfg.fillRate != 0
      requires (namespace in sharedAttributes <==> namespace in refcounts)
      modifies this
      ensures b == Bucket(BucketId(old(steps), Named(namespace, bucketName)), bCfg, true)
      ensures View() == Install(old(View()), namespace, bucketName, b, now)
      ensures refcounts == Increment(old(refcounts), namespace)
      ensures sharedAttributes ==
        if namespace in old(sharedAttributes) then old(sharedAttributes)
        else old(sharedAttributes)[namespace := AttributesOf(bCfg)]
    {
      b := NewBucket(namespace, Named(namespace, bucketName), bCfg, true);
      ApplyWatch(b, namespace, bucketName);
      PlaceBucket(b, namespace, bucketName);
      ReportActivity(b, now);
    }

    method PlaceBucket(b: Bucket, namespace: string, bucketName: string)
      requires namespace in namespaces && b.dynamic
      modifies this`namespaces
      ensures namespaces == old(namespaces)[namespace := AddBucket(old(namespaces)[namespace], bucketName, b)]
    {
      var ns := namespaces[namespace];
      ns := ns.(dynamicBucketCount := ns.dynamicBucketCount + 1);
      namespaces := namespaces[namespace := ns.(buckets := ns.buckets[bucketName := b])];
    }

    /** Opens a channel for a bucket that can be reaped and queues its watcher. */
    method ApplyWatch(b: Bucket, namespace: string, bucketName: string)
      requires b.dynamic
      modifies this`activities, this`newWatchers
      ensures activities == if b.Watched() then old(activities)[b.id := false] else old(activities)
      ensures newWatchers == if b.Watched() then old(newWatchers) + [WatcherFor(b, namespace, bucketName)]
        else old(newWatchers)
    {
      if b.cfg.maxIdleMillis > 0 {
        activities := activities[b.id := false];
        newWatchers := newWatchers + [Watcher(b.id, namespace, bucketName, b.cfg.maxIdleMillis * 1_000_000, 0)];
      }
    }

    method FindBucket(now: int, namespace: string, bucketName: string) returns (r: Lookup)
      requires Valid() && clock <= now
      modifies this
      ensures Valid() && View() == Find(old(View()), now, namespace, bucketName).0
      ensures r == Find(old(View()), now, namespace, bucketName).1
    {
      FindKeepsInv(View(), now, namespace, bucketName);
      if namespace in namespaces {
        if bucketName in namespaces[namespace].buckets {
          InstalledFacts(View(), namespace, bucketName);
        }
        if namespaces[namespace].cfg.dynamicBucketTemplate.Some? {
          TemplateFacts(View(), namespace);
        }
      }
      r := Locate(now, namespace, bucketName);
    }

    // The program would also re-create a configured bucket that is missing; none ever is.
    method Locate(now: int, namespace: string, bucketName: string) returns (r: Lookup)
      requires Counted(refcounts, sharedAttributes, namespaces)
      requires namespace in namespaces && bucketName in namespaces[namespace].buckets ==>
        var b := namespaces[namespace].buckets[bucketName];
        b.Watched() ==> b.id in activities
      requires namespace in namespaces && namespaces[namespace].cfg.dynamicBucketTemplate.Some? ==>
        var ns := namespaces[namespace];
        && ns.cfg.dynamicBucketTemplate.value.fillRate != 0
        && (bucketName !in ns.buckets ==> bucketName !in ns.cfg.buckets)
      modifies this
      ensures Counted(refcounts, sharedAttributes, namespaces)
      ensures View() == Find(old(View()), now, namespace, bucketName).0
      ensures r == Find(old(View()), now, namespace, bucketName).1
    {
      if namespace !in namespaces {
        r := FoundIfAny(defaultBucket);
      } else {
        var ns := namespaces[namespace];
        if bucketName in ns.buckets {
          r := Found(ns.buckets[bucketName]);
          ReportActivity(ns.buckets[bucketName], now);
        } else if ns.cfg.dynamicBucketTemplate.Some? {
          if ns.dynamicBucketCount >= ns.cfg.maxDynamicBuckets && ns.cfg.maxDynamicBuckets > 0 {
            r := CapReached;
          } else {
            var b := CreateDynamicBucket(namespace, bucketName, ns.cfg.dynamicBucketTemplate.value, now);
            r := Found(b);
          }
        } else {
          r := FoundIfAny(ns.defaultBucket);
        }
      }
      steps, clock := steps + 1, now;
    }

    // ---- The reaper --------------------------------------------------------------------

    /** Registers the next watcher waiting for the reaper. */
    method AddNewWatcher(now: int)
      requires Valid() && clock <= now
      modifies this
      ensures Valid() && View() == Register(old(View()), now)
    {
      RegisterKeepsInv(View(), now);
      if newWatchers != [] {
        var w := newWatchers[0];
        watchers := watchers[w.Identifier() := w.(lastActivity := now)];
        newWatchers := newWatchers[1..];
      }
      steps, clock := steps + 1, now;
    }

    method RemoveBucketNamed(namespace: string, bucketName: string) returns (existed: bool)
      requires Counted(refcounts, sharedAttributes, namespaces)
      requires namespace in namespaces && bucketName in namespaces[namespace].buckets ==>
        var b := namespaces[namespace].buckets[bucketName];
        b.id in live && b.dynamic && b.cfg.namespace == namespace && (b.Watched() <==> b.id in activities)
      modifies this
      ensures View() == RemoveBucket(old(View()), namespace, bucketName)
      ensures Counted(refcounts, sharedAttributes, namespaces)
      ensures existed == (namespace in old(namespaces))
    {
      if namespace !in namespaces {
        return false;
      }
      var ns := namespaces[namespace];
      if bucketName in ns.buckets {
        var b := ns.buckets[bucketName];
        CountedRemove(refcounts, sharedAttributes, namespaces, namespace, bucketName);
        namespaces := namespaces[namespace := ns.(
          buckets := ns.buckets - {bucketName},
          dynamicBucketCount := if b.dynamic then ns.dynamicBucketCount - 1 else ns.dynamicBucketCount)];
        DestroyBucket(b);
      }
      return true;
    }

    /** Looks at one watcher: drains its channel, leaves it, or reaps its bucket. */
    method CheckWatcher(now: int, key: string) returns (reaped: bool)
      requires Valid() && clock <= now && key in watchers
      modifies this
      ensures Valid() && clock == now && View() == Reap(old(View()), now, key)
      ensures watchers.Keys == if reaped then old(watchers).Keys - {key} else old(watchers).Keys
      ensures forall k :: k in watchers ==> watchers[k].maxIdle == old(watchers)[k].maxIdle
    {
      ReapKeepsInv(View(), now, key);
      if !ActivityDetected(View(), watchers[key]) {
        ReapableFacts(View(), key);
      }
      reaped := Inspect(now, key);
    }

    method Inspect(now: int, key: string) returns (reaped: bool)
      requires Counted(refcounts, sharedAttributes, namespaces) && key in watchers
      requires !ActivityDetected(View(), watchers[key]) ==>
        var w := watchers[key];
        && w.ns in namespaces && w.name in namespaces[w.ns].buckets
        && var b := namespaces[w.ns].buckets[w.name];
           b.id in live && b.dynamic && b.cfg.namespace == w.ns && (b.Watched() <==> b.id in activities)
      modifies this
      ensures Counted(refcounts, sharedAttributes, namespaces) && clock == now && View() == Reap(old(View()), now, key)
      ensures watchers.Keys == if reaped then old(watchers).Keys - {key} else old(watchers).Keys
      ensures forall k :: k in watchers ==> watchers[k].maxIdle == old(watchers)[k].maxIdle
    {
      var w := watchers[key];
      reaped := false;
      if w.id in activities ==> activities[w.id] {
        if w.id in activities {
          activities := activities[w.id := false];
        }
        watchers := watchers[key := w.(lastActivity := now)];
      } else if now - w.lastActivity > w.maxIdle {
        var removed := RemoveBucketNamed(w.ns, w.name);
        if removed {
          watchers := watchers - {key};
          reaped := true;
        }
      }
      steps, clock := steps + 1, now;
    }

    method CheckNext(now: int, key: string, sleep: int, minFrequency: int,
                     ghost pending: set<string>) returns (newSleep: int)
      requires Valid() && clock <= now && key in pending && pending <= watchers.Keys
      requires SleepOk(sleep, minFrequency, watchers, watchers.Keys - pending)
      modifies this
      ensures Valid() && clock == now && View() == Reap(old(View()), now, key)
      ensures pending - {key} <= watchers.Keys
      ensures SleepOk(newSleep, minFrequency, watchers, watchers.Keys - (pending - {key}))
    {
      newSleep := sleep;
      var reaped := CheckWatcher(now, key);
      if !reaped && watchers[key].maxIdle < newSleep {
        newSleep := watchers[key].maxIdle;
      }
      SleepStep(sleep, minFrequency, old(watchers), watchers, pending, key);
    }

    /** One tick of the reaper: every watcher is looked at exactly once, and the next
        tick is due after the least idle limit among the buckets that are left. */
    method CheckExpirations(now: int, minFrequency: int) returns (newSleep: int, ghost order: seq<string>)
      requires Valid() && clock <= now
      modifies this
      ensures Valid() && View() == Run(old(View()), Checks(now, order))
      ensures multiset(order) == multiset(old(watchers).Keys)
      ensures SleepOk(newSleep, minFrequency, watchers, watchers.Keys)
    {
      newSleep, order := minFrequency, [];
      var pending := watchers.Keys;
      while pending != {}
        invariant Valid() && clock <= now && View() == Run(old(View()), Checks(now, order))
        invariant pending <= watchers.Keys && multiset(order) + multiset(pending) == multiset(old(watchers).Keys)
        invariant SleepOk(newSleep, minFrequency, watchers, watchers.Keys - pending)
        decreases pending
      {
        var key :| key in pending;
        ChecksSnoc(now, order, key);
        OneLessPending(order, pending, key);
        newSleep := CheckNext(now, key, newSleep, minFrequency, pending);
        order := order + [key];
        pending := pending - {key};
      }
    }

    // ---- Reconfiguration ---------------------------------------------------------------

    /** Destroys the default bucket and every named bucket of a namespace. */
    method DestroyNamespace(k: string)
      requires k in namespaces && Destroyable(namespaces[k], k, live, activities)
      requires Counted(refcounts, sharedAttributes, namespaces)
      modifies this`refcounts, this`sharedAttributes, this`live, this`activities
      ensures forall id :: id in live <==> id in old(live) && !SlotOf(id.slot, k)
      ensures forall id :: id in activities <==> id in old(activities) && !SlotOf(id.slot, k)
      ensures forall id :: id in activities ==> activities[id] == old(activities)[id]
      ensures Counted(refcounts, sharedAttributes, namespaces - {k})
    {
      var ns := namespaces[k];
      if ns.defaultBucket.Some? {
        assert Holds(ns, k, ns.defaultBucket.value.id);
        DestroyBucket(ns.defaultBucket.value);
      }
      var pending := ns.buckets.Keys;
      ghost var rest := ns;
      assert namespaces[k := rest] == namespaces;
      while pending != {}
        invariant pending == rest.buckets.Keys && pending <= ns.buckets.Keys && rest.cfg == ns.cfg
        invariant forall n :: n in pending ==> rest.buckets[n] == ns.buckets[n]
        invariant Gone(live, old(live), k, pending)
        invariant Silenced(activities, old(activities), k, pending)
        invariant Counted(refcounts, sharedAttributes, namespaces[k := rest])
        decreases pending
      {
        var name :| name in pending;
        var b := ns.buckets[name];
        assert Holds(ns, k, b.id);
        CountedDrop(refcounts, sharedAttributes, namespaces, k, rest, name);
        ghost var live0, activities0 := live, activities;
        DestroyBucket(b);
        OneMoreGone(live0, old(live), activities0, old(activities), ns, k, pending, name);
        rest := DropBucket(rest, name);
        pending := pending - {name};
      }
      CountedForget(refcounts, sharedAttributes, namespaces, k, rest);
    }

    /** Makes a namespace with its default bucket and its configured buckets. */
    method CreateNamespace(nsCfg: NamespaceConfig)
      requires Counted(refcounts, sharedAttributes, namespaces - {nsCfg.name})
      modifies this`namespaces, this`refcounts, this`sharedAttributes, this`live
      ensures namespaces == old(namespaces)[nsCfg.name := NewNamespace(steps, nsCfg.name, nsCfg)]
      ensures forall id :: id in live <==>
        id in old(live) || Holds(NewNamespace(steps, nsCfg.name, nsCfg), nsCfg.name, id)
      ensures Counted(refcounts, sharedAttributes, namespaces)
    {
      var k := nsCfg.name;
      var ns := Namespace(nsCfg, map[], 0, None);
      if nsCfg.defaultBucket.Some? {
        var b := NewBucket(k, NamespaceDefault(k), nsCfg.defaultBucket.value, false);
        ns := ns.(defaultBucket := Some(b));
      }
      var pending := nsCfg.buckets.Keys;
      while pending != {}
        invariant refcounts == old(refcounts) && sharedAttributes == old(sharedAttributes)
        invariant namespaces == old(namespaces)
        invariant pending <= nsCfg.buckets.Keys && ns.buckets.Keys == nsCfg.buckets.Keys - pending
        invariant ns.cfg == nsCfg && ns.dynamicBucketCount == 0
        invariant ns.defaultBucket == NewDefault(steps, NamespaceDefault(k), nsCfg.defaultBucket)
        invariant forall n :: n in ns.buckets ==>
          ns.buckets[n] == Container.NewBucket(steps, Named(k, n), nsCfg.buckets[n])
        invariant forall id :: id in live <==> id in old(live) || Holds(ns, k, id)
        decreases pending
      {
        var name :| name in pending;
        var b := NewBucket(k, Named(k, name), nsCfg.buckets[name], false);
        ns := ns.(buckets := ns.buckets[name := b]);
        pending := pending - {name};
      }
      assert ns == NewNamespace(steps, k, nsCfg);
      assert DynamicNames(ns) == {};
      CountedSame(refcounts, sharedAttributes, namespaces - {k}, k, Some(ns));
      assert (namespaces - {k})[k := ns] == namespaces[k := ns];
      namespaces := namespaces[k := ns];
    }

    /** Replaces the global default bucket if its configuration changed. */
    method UpdateGlobalDefault(sc: ServiceConfig)
      requires defaultBucket.Some? ==>
        defaultBucket.value.id in live && !defaultBucket.value.dynamic && defaultBucket.value.id !in activities
      modifies this`defaultBucket, this`refcounts, this`sharedAttributes, this`live, this`activities
      ensures refcounts == old(refcounts) && sharedAttributes == old(sharedAttributes) && activities == old(activities)
      ensures
        var h := old(View()).shelf;
        if KeepsGlobalDefault(h, sc) then defaultBucket == old(defaultBucket) && live == old(live)
        else
          && defaultBucket == NewDefault(steps, GlobalDefault, sc.globalDefaultBucket)
          && live == old(live) - (if h.defaultBucket.Some? then {h.defaultBucket.value.id} else {})
                       + (if sc.globalDefaultBucket.Some? then {BucketId(steps, GlobalDefault)} else {})
    {
      var current: Option<BucketConfig> := None;
      if defaultBucket.Some? {
        current := Some(defaultBucket.value.cfg);
      }
      if DifferentBucketConfigs(current, sc.globalDefaultBucket) {
        if defaultBucket.Some? {
          DestroyBucket(defaultBucket.value);
        }
        if sc.globalDefaultBucket.None? {
          defaultBucket := None;
        } else {
          var b := NewBucket(GLOBAL_NAMESPACE, GlobalDefault, sc.globalDefaultBucket.value, false);
          defaultBucket := Some(b);
        }
      }
    }

    /** Brings one existing namespace in line with the new configuration. */
    method UpdateNamespace(k: string, sc: ServiceConfig, ghost ch: Change, ghost done: set<string>)
      requires Counted(refcounts, sharedAttributes, namespaces)
      requires Midway(ch, done, namespaces, live, activities)
      requires ch.sc == sc && steps == ch.c0.epoch && EndsAt(ch, k)
      requires k !in done && k in ch.c0.shelf.namespaces
      modifies this`namespaces, this`refcounts, this`sharedAttributes, this`live, this`activities
      ensures Counted(refcounts, sharedAttributes, namespaces)
      ensures Midway(ch, done + {k}, namespaces, live, activities)
    {
      assert Get(namespaces, k) == Get(ch.c0.shelf.namespaces, k);
      var ns := namespaces[k];
      DestroyableMidway(ns, k, live, activities, ch.c0, ch.c1, done);
      if k in sc.namespaces {
        var different := DifferentNamespaceConfigs(ns.cfg, sc.namespaces[k]);
        if different {
          RemakeNamespace(k, sc, ch, done);
        } else {
          namespaces := namespaces[k := ns.(cfg := sc.namespaces[k])];
          assert namespaces == old(namespaces);
        }
      } else {
        DropNamespace(k, ch, done);
      }
    }

    /** A namespace whose configuration changed is destroyed and made anew. */
    method RemakeNamespace(k: string, sc: ServiceConfig, ghost ch: Change, ghost done: set<string>)
      requires Counted(refcounts, sharedAttributes, namespaces) && Midway(ch, done, namespaces, live, activities)
      requires ch.sc == sc && steps == ch.c0.epoch && EndsAt(ch, k) && k !in done && k in sc.namespaces
      requires k in namespaces && Get(namespaces, k) == Get(ch.c0.shelf.namespaces, k)
      requires namespaces[k].cfg != sc.namespaces[k]
      requires Destroyable(namespaces[k], k, live, activities)
      modifies this`namespaces, this`refcounts, this`sharedAttributes, this`live, this`activities
      ensures Counted(refcounts, sharedAttributes, namespaces) && Midway(ch, done + {k}, namespaces, live, activities)
    {
      DestroyNamespace(k);
      CreateNamespace(sc.namespaces[k]);
    }

    /** A namespace that is no longer configured is destroyed and removed. */
    method DropNamespace(k: string, ghost ch: Change, ghost done: set<string>)
      requires Counted(refcounts, sharedAttributes, namespaces) && Midway(ch, done, namespaces, live, activities)
      requires EndsAt(ch, k) && k !in done && k !in ch.sc.namespaces
      requires k in namespaces && Get(namespaces, k) == Get(ch.c0.shelf.namespaces, k)
      requires Destroyable(namespaces[k], k, live, activities)
      modifies this`namespaces, this`refcounts, this`sharedAttributes, this`live, this`activities
      ensures Counted(refcounts, sharedAttributes, namespaces) && Midway(ch, done + {k}, namespaces, live, activities)
    {
      DestroyNamespace(k);
      namespaces := namespaces - {k};
    }

    /** Adds a namespace that the container does not have yet. */
    method AddNamespace(k: string, sc: ServiceConfig, ghost ch: Change, ghost done: set<string>)
      requires Counted(refcounts, sharedAttributes, namespaces)
      requires Midway(ch, done, namespaces, live, activities)
      requires ch.sc == sc && steps == ch.c0.epoch && EndsAt(ch, k)
      requires k !in done && k !in ch.c0.shelf.namespaces && k in sc.namespaces
      modifies this`namespaces, this`refcounts, this`sharedAttributes, this`live
      ensures Counted(refcounts, sharedAttributes, namespaces)
      ensures Midway(ch, done + {k}, namespaces, live, activities)
    {
      assert Get(namespaces, k) == None;
      assert namespaces - {k} == namespaces;
      CreateNamespace(sc.namespaces[k]);
    }

    /** Applies a configuration read from the persister. On a container that has none
        yet this is its initialisation: there is nothing to keep or destroy. */
    method UpdateBucketContainer(now: int, sc: ServiceConfig)
      requires Valid() && clock <= now && Normalised(sc)
      modifies this
      ensures Valid() && View() == Configure(old(View()), now, sc)
    {
      ConfigureKeepsInv(View(), now, sc);
      if cfg.Some? && sc.version <= cfg.value.version {
        steps, clock := steps + 1, now;
        return;
      }
      ghost var ch := Change(View(), Configure(View(), now, sc), sc);
      forall k
        ensures EndsAt(ch, k)
      {
        EndsFacts(View(), now, sc, k);
      }
      AppliedFacts(View(), now, sc);
      Reconfigure(now, sc, ch);
    }

    method Reconfigure(now: int, sc: ServiceConfig, ghost ch: Change)
      requires Counted(refcounts, sharedAttributes, namespaces)
      requires ch.c0 == View() && ch.sc == sc && Applied(ch, now) && forall k :: EndsAt(ch, k)
      modifies this
      ensures Counted(refcounts, sharedAttributes, namespaces)
      ensures View() == ch.c1
    {
      ReplaceBuckets(now, sc, ch);
      cfg, steps, clock := Some(sc), steps + 1, now;
      MidwayComplete(ch, now, View());
    }

    method ReplaceBuckets(now: int, sc: ServiceConfig, ghost ch: Change)
      requires Counted(refcounts, sharedAttributes, namespaces)
      requires ch.c0 == View() && ch.sc == sc && Applied(ch, now) && forall k :: EndsAt(ch, k)
      modifies this`defaultBucket, this`namespaces, this`refcounts, this`sharedAttributes, this`live, this`activities
      ensures Counted(refcounts, sharedAttributes, namespaces) && defaultBucket == ch.c1.shelf.defaultBucket
      ensures
        var done := ch.c0.shelf.namespaces.Keys + sc.namespaces.Keys;
        Midway(ch, done, namespaces, live, activities)
    {
      ReplaceGlobalDefault(now, sc, ch);
      UpdateNamespaces(sc, ch);
    }

    method ReplaceGlobalDefault(now: int, sc: ServiceConfig, ghost ch: Change)
      requires Applied(ch, now) && ch.sc == sc && steps == ch.c0.epoch
      requires defaultBucket == ch.c0.shelf.defaultBucket && namespaces == ch.c0.shelf.namespaces
      requires live == ch.c0.live && activities == ch.c0.signals
      modifies this`defaultBucket, this`refcounts, this`sharedAttributes, this`live, this`activities
      ensures refcounts == old(refcounts) && sharedAttributes == old(sharedAttributes)
      ensures defaultBucket == ch.c1.shelf.defaultBucket
      ensures Midway(ch, {}, namespaces, live, activities)
    {
      UpdateGlobalDefault(sc);
      GlobalMidway(ch, now, live);
    }

    /** Goes through the existing namespaces, then through those only the new
        configuration has. */
    method UpdateNamespaces(sc: ServiceConfig, ghost ch: Change)
      requires ch.sc == sc && forall k :: EndsAt(ch, k)
      requires ch.c1.shelf.namespaces.Keys == sc.namespaces.Keys
      requires steps == ch.c0.epoch && namespaces.Keys == ch.c0.shelf.namespaces.Keys
      requires Midway(ch, {}, namespaces, live, activities)
      requires Counted(refcounts, sharedAttributes, namespaces)
      modifies this`namespaces, this`refcounts, this`sharedAttributes, this`live, this`activities
      ensures Counted(refcounts, sharedAttributes, namespaces)
      ensures
        var done := ch.c0.shelf.namespaces.Keys + sc.namespaces.Keys;
        Midway(ch, done, namespaces, live, activities)
    {
      UpdateExistingNamespaces(sc, ch);
      AddMissingNamespaces(sc, ch);
    }

    method UpdateExistingNamespaces(sc: ServiceConfig, ghost ch: Change)
      requires ch.sc == sc && forall k :: EndsAt(ch, k)
      requires steps == ch.c0.epoch && namespaces.Keys == ch.c0.shelf.namespaces.Keys
      requires Counted(refcounts, sharedAttributes, namespaces) && Midway(ch, {}, namespaces, live, activities)
      modifies this`namespaces, this`refcounts, this`sharedAttributes, this`live, this`activities
      ensures Counted(refcounts, sharedAttributes, namespaces)
      ensures Midway(ch, ch.c0.shelf.namespaces.Keys, namespaces, live, activities)
    {
      ghost var done: set<string> := {};
      var pending := namespaces.Keys;
      while pending != {}
        invariant Counted(refcounts, sharedAttributes, namespaces)
        invariant pending <= ch.c0.shelf.namespaces.Keys && done == ch.c0.shelf.namespaces.Keys - pending
        invariant Midway(ch, done, namespaces, live, activities)
        decreases pending
      {
        var k :| k in pending;
        assert EndsAt(ch, k);
        UpdateNamespace(k, sc, ch, done);
        pending, done := pending - {k}, done + {k};
      }
      assert done == ch.c0.shelf.namespaces.Keys;
    }

    method AddMissingNamespaces(sc: ServiceConfig, ghost ch: Change)
      requires ch.sc == sc && forall k :: EndsAt(ch, k)
      requires ch.c1.shelf.namespaces.Keys == sc.namespaces.Keys && steps == ch.c0.epoch
      requires Counted(refcounts, sharedAttributes, namespaces)
      requires Midway(ch, ch.c0.shelf.namespaces.Keys, namespaces, live, activities)
      modifies this`namespaces, this`refcounts, this`sharedAttributes, this`live
      ensures Counted(refcounts, sharedAttributes, namespaces)
      ensures
        var done := ch.c0.shelf.namespaces.Keys + sc.namespaces.Keys;
        Midway(ch, done, namespaces, live, activities)
    {
      ghost var done := ch.c0.shelf.namespaces.Keys;
      var pending := sc.namespaces.Keys;
      while pending != {}
        invariant Counted(refcounts, sharedAttributes, namespaces)
        invariant pending <= sc.namespaces.Keys && ch.c0.shelf.namespaces.Keys <= done
        invariant sc.namespaces.Keys - pending <= done <= ch.c0.shelf.namespaces.Keys + sc.namespaces.Keys
        invariant Midway(ch, done, namespaces, live, activities)
        decreases pending
      {
        var k :| k in pending;
        assert EndsAt(ch, k);
        MissingUntilDone(ch, done, namespaces, live, activities, k);
        if k !in namespaces {
          AddNamespace(k, sc, ch, done);
          done := done + {k};
        }
        pending := pending - {k};
      }
      assert done == ch.c0.shelf.namespaces.Keys + sc.namespaces.Keys;
    }
  }
}
