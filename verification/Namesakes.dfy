// Names that read the same to the reaper (config/config.go:190-192, reaper.go:72-107), and
// exactly which configurations let a bucket slip from its sight.
module Namesakes {
  import opened Prelude
  import opened Config
  import opened Container
  import opened ContainerInvariant
  import opened ContainerTheorems
  import opened ReaperTheorems
  import opened Promptness

  // ---- A run that leaves a bucket unwatched ---------------------------------------------------

  /** The configuration has a lookup of `name` make a bucket that can be reaped. */
  predicate Reapable(sc: ServiceConfig, k: string, name: string) {
    && k in sc.namespaces && name !in sc.namespaces[k].buckets
    && sc.namespaces[k].dynamicBucketTemplate.Some? && sc.namespaces[k].dynamicBucketTemplate.value.maxIdleMillis > 0
  }

  /** Two lookups, each followed by a registration. */
  function TwoLookups(t: int, sc: ServiceConfig, k1: string, n1: string, k2: string, n2: string): seq<Event> {
    [Update(t, sc), Lookup(t, k1, n1), Registration(t), Lookup(t, k2, n2), Registration(t)]
  }

  /** The first lookup in a namespace makes, installs and queues a reapable bucket. */
  lemma FirstLookup(c: State, now: int, sc: ServiceConfig, k: string, name: string)
    requires Reapable(sc, k, name) && k in c.shelf.namespaces
    requires c.shelf.namespaces[k] == NewNamespace(0, k, sc.namespaces[k])
    ensures
      var id := BucketId(c.epoch, Named(k, name));
      var c' := Find(c, now, k, name).0;
      && WatchedId(c'.shelf, id) && id in c'.live && c.live <= c'.live && c'.watchers == c.watchers
      && |c'.queue| == |c.queue| + 1 && c'.queue[..|c.queue|] == c.queue
      && c'.queue[|c.queue|].id == id && c'.queue[|c.queue|].Identifier() == FullyQualifiedName(k, name)
      && (forall k' :: k' in c.shelf.namespaces && k' != k ==>
            k' in c'.shelf.namespaces && c'.shelf.namespaces[k'] == c.shelf.namespaces[k'])
      && (forall slot :: slot != Named(k, name) && BucketAt(c.shelf, slot).Some? ==>
            BucketAt(c'.shelf, slot) == BucketAt(c.shelf, slot))
  {
    forall slot | slot != Named(k, name) && BucketAt(c.shelf, slot).Some?
      ensures BucketAt(Find(c, now, k, name).0.shelf, slot) == BucketAt(c.shelf, slot)
    {
      LookupLeavesBuckets(c, now, k, name, slot);
    }
  }

  /** From start-up: whenever two different reapable names read the same to the reaper,
      asking for both leaves the first one's bucket alive and without a watcher. */
  lemma NamesakeTakesOver(t: int, sc: ServiceConfig, k1: string, n1: string, k2: string, n2: string)
    requires 0 <= t && Normalised(sc) && Reapable(sc, k1, n1) && Reapable(sc, k2, n2)
    requires (k1, n1) != (k2, n2) && FullyQualifiedName(k1, n1) == FullyQualifiedName(k2, n2)
    ensures
      var es := TwoLookups(t, sc, k1, n1, k2, n2);
      var c := Run(INITIAL, es);
      var id := BucketId(1, Named(k1, n1));
      LegalRun(INITIAL, es) && id in c.live && WatchedId(c.shelf, id) && Unwatched(c, id)
  {
    var c1 := Configure(INITIAL, t, sc);
    var c4 := Find(Register(Find(c1, t, k1, n1).0, t), t, k2, n2).0;
    if k1 == k2 {
      SamePrefix(k1, n1, n2);
    }
    LookupsContest(c1, t, sc, k1, n1, k2, n2);
    TwoLookupsRun(t, sc, k1, n1, k2, n2);
    RegistrationLosesWatcherIff(c4, t, BucketId(1, Named(k1, n1)));
  }

  lemma TwoLookupsRun(t: int, sc: ServiceConfig, k1: string, n1: string, k2: string, n2: string)
    requires 0 <= t && Normalised(sc)
    ensures
      var es := TwoLookups(t, sc, k1, n1, k2, n2);
      var c4 := Find(Register(Find(Configure(INITIAL, t, sc), t, k1, n1).0, t), t, k2, n2).0;
      LegalRun(INITIAL, es) && Inv(c4) && Run(INITIAL, es) == Register(c4, t)
  {
    var es := TwoLookups(t, sc, k1, n1, k2, n2);
    LegalAtOneTime(INITIAL, es, t);
    LegalPrefix(INITIAL, es, 4);
    InitialInv();
    RunKeepsInv(INITIAL, es[..4]);
    RunOfFour(INITIAL, es[..4]);
  }

  lemma RunOfFour(c: State, es: seq<Event>)
    requires |es| == 4
    ensures Run(c, es) == Step(Step(Step(Step(c, es[0]), es[1]), es[2]), es[3])
  {
    assert es[..1][..0] == [] && es[..2][..1] == es[..1] && es[..3][..2] == es[..2];
    assert Run(c, es[..1]) == Step(c, es[0]);
    assert Run(c, es[..2]) == Step(Step(c, es[0]), es[1]);
    assert Run(c, es[..3]) == Step(Step(Step(c, es[0]), es[1]), es[2]);
  }

  lemma LookupsContest(c: State, t: int, sc: ServiceConfig, k1: string, n1: string, k2: string, n2: string)
    requires Reapable(sc, k1, n1) && Reapable(sc, k2, n2) && k1 != k2
    requires FullyQualifiedName(k1, n1) == FullyQualifiedName(k2, n2) && c.queue == []
    requires forall k :: k in {k1, k2} ==>
      k in c.shelf.namespaces && c.shelf.namespaces[k] == NewNamespace(0, k, sc.namespaces[k])
    ensures
      var c' := Find(Register(Find(c, t, k1, n1).0, t), t, k2, n2).0;
      var id := BucketId(c.epoch, Named(k1, n1));
      id in c'.live && WatchedId(c'.shelf, id) && TakenOver(c', Registration(t), id)
  {
    FirstLookup(c, t, sc, k1, n1);
    FirstLookup(Register(Find(c, t, k1, n1).0, t), t, sc, k2, n2);
  }

  lemma SamePrefix(k: string, n1: string, n2: string)
    requires FullyQualifiedName(k, n1) == FullyQualifiedName(k, n2)
    ensures n1 == n2
  {
    assert n1 == FullyQualifiedName(k, n1)[|k| + 1..] && n2 == FullyQualifiedName(k, n2)[|k| + 1..];
  }

  /** A configuration in which `a` and `a:b` are namespaces with dynamic buckets that are
      reaped after a second. */
  function TwoNamespaces(): ServiceConfig {
    ServiceConfig(None, map["a" := DynamicNamespace("a"), "a:b" := DynamicNamespace("a:b")], 1, "", 0)
  }

  function DynamicNamespace(k: string): NamespaceConfig {
    NamespaceConfig(k, None, Some(BucketConfig(DYNAMIC_BUCKET_TEMPLATE_NAME, k, 100, 50, 1000, 1000, 10000, 50)), 0,
      map[])
  }

  /** Such names exist: bucket `b:c` of namespace `a`, and bucket `c` of namespace `a:b`. */
  lemma UnwatchedBucketExists()
    ensures
      var es := TwoLookups(0, TwoNamespaces(), "a", "b:c", "a:b", "c");
      var c := Run(INITIAL, es);
      var id := BucketId(1, Named("a", "b:c"));
      LegalRun(INITIAL, es) && id in c.live && WatchedId(c.shelf, id) && Unwatched(c, id)
  {
    assert FullyQualifiedName("a", "b:c") == "a:b:c" == FullyQualifiedName("a:b", "c");
    assert |"a"| != |"a:b"|;
    NamesakeTakesOver(0, TwoNamespaces(), "a", "b:c", "a:b", "c");
  }

  // ---- Exactly which configurations do ---------------------------------------------------------

  ghost predicate Only(es: seq<Event>, sc: ServiceConfig) {
    forall i :: 0 <= i < |es| && es[i].Update? ==> es[i].cfg == sc
  }

  /** Some run under this configuration leaves a live bucket that could be reaped without
      a watcher. */
  ghost predicate LosesSight(sc: ServiceConfig) {
    exists es: seq<Event>, id: BucketId :: LegalRun(INITIAL, es) && Only(es, sc) && OutOfSight(Run(INITIAL, es), id)
  }

  ghost predicate OutOfSight(c: State, id: BucketId) {
    id in c.live && WatchedId(c.shelf, id) && Unwatched(c, id)
  }

  /** Two different names that can be reaped read the same. */
  ghost predicate HasNamesakes(sc: ServiceConfig) {
    exists k1, n1, k2, n2 :: Reapable(sc, k1, n1) && Reapable(sc, k2, n2) && AreNamesakes(k1, n1, k2, n2)
  }

  predicate AreNamesakes(k1: string, n1: string, k2: string, n2: string) {
    (k1, n1) != (k2, n2) && FullyQualifiedName(k1, n1) == FullyQualifiedName(k2, n2)
  }

  /** Every watcher under way is for a name that the configuration lets be reaped. */
  ghost predicate QueuedUnder(c: State, sc: ServiceConfig) {
    && (c.shelf.cfg.Some? ==> c.shelf.cfg.value == sc)
    && forall i :: 0 <= i < |c.queue| ==> Reapable(sc, c.queue[i].ns, c.queue[i].name)
  }

  lemma LookupQueuesUnder(c: State, now: int, k: string, name: string, sc: ServiceConfig)
    requires QueuedUnder(c, sc)
    requires (k in c.shelf.namespaces ==> k in sc.namespaces && c.shelf.namespaces[k].cfg == sc.namespaces[k])
    ensures QueuedUnder(Find(c, now, k, name).0, sc)
  {
  }

  lemma StepQueuesUnder(c: State, e: Event, sc: ServiceConfig)
    requires Inv(c) && QueuedUnder(c, sc) && (e.Update? ==> e.cfg == sc)
    ensures QueuedUnder(Step(c, e), sc)
  {
    match e
    case Lookup(now, k, name) => LookupQueuesUnder(c, now, k, name, sc);
    case Update(now, cfg) =>
    case Registration(now) =>
      assert c.queue != [] ==> forall i :: 0 <= i < |c.queue[1..]| ==> c.queue[1..][i] == c.queue[i + 1];
    case Check(now, key) => CheckKeepsQueue(c, now, key);
  }

  lemma CheckKeepsQueue(c: State, now: int, key: string)
    ensures Reap(c, now, key).queue == c.queue && Reap(c, now, key).shelf.cfg == c.shelf.cfg
  {
  }

  lemma {:induction false} RunQueuesUnder(es: seq<Event>, sc: ServiceConfig)
    requires LegalRun(INITIAL, es) && Only(es, sc)
    ensures QueuedUnder(Run(INITIAL, es), sc)
  {
    if es != [] {
      var n := |es| - 1;
      LegalPrefix(INITIAL, es, n);
      RunQueuesUnder(es[..n], sc);
      InitialInv();
      RunKeepsInv(INITIAL, es[..n]);
      StepQueuesUnder(Run(INITIAL, es[..n]), es[n], sc);
    }
  }

  lemma WatchedIsReapable(c: State, id: BucketId, sc: ServiceConfig)
    requires Inv(c) && WatchedId(c.shelf, id) && QueuedUnder(c, sc)
    ensures id.slot.Named? && Reapable(sc, id.slot.ns, id.slot.name)
  {
    DefaultsAreUnwatched(c);
    if id.slot.Named? {
      var k, n := id.slot.ns, id.slot.name;
      assert NamespaceOk(k, c.shelf.namespaces[k]) &&
        BucketOk(k, c.shelf.namespaces[k].cfg, n, c.shelf.namespaces[k].buckets[n]);
    }
  }

  /** Whoever is taken over has a namesake in the configuration. */
  lemma TakenOverByNamesake(c: State, e: Event, id: BucketId, sc: ServiceConfig)
    requires Inv(c) && id in c.live && WatchedId(c.shelf, id) && TakenOver(c, e, id) && QueuedUnder(c, sc)
    ensures HasNamesakes(sc)
  {
    OnlyNamesakesTakeOver(c, e, id);
    WatchedIsReapable(c, id, sc);
    var w := c.queue[0];
    assert WatcherOk(c.shelf, c.epoch, w);
    assert Reapable(sc, w.ns, w.name) && AreNamesakes(id.slot.ns, id.slot.name, w.ns, w.name);
  }

  lemma {:induction false} RunSplit(c: State, es: seq<Event>, i: nat)
    requires LegalRun(c, es) && i <= |es|
    ensures LegalRun(c, es[..i]) && LegalRun(Run(c, es[..i]), es[i..])
    ensures Run(c, es) == Run(Run(c, es[..i]), es[i..])
  {
    assert es == es[..i] + es[i..];
    LegalJoin(c, es[..i], es[i..]);
    RunJoin(c, es[..i], es[i..]);
  }

  /** A bucket registered on the way and alive at the end was alive there too. */
  lemma {:induction false} AliveOnTheWay(c: State, es: seq<Event>, i: nat, id: BucketId)
    requires Inv(c) && LegalRun(c, es) && i <= |es| && Registered(Run(c, es[..i]), id)
    requires id in Run(c, es).live && WatchedId(Run(c, es).shelf, id)
    ensures
      var m := Run(c, es[..i]);
      LegalRun(c, es[..i]) && Inv(m) && id in m.live && WatchedId(m.shelf, id)
  {
    RunSplit(c, es, i);
    RunKeepsInv(c, es[..i]);
    RegisteredIsOld(Run(c, es[..i]), id);
    AliveThroughout(Run(c, es[..i]), es[i..], id);
  }

  lemma {:induction false} OutOfSightMeansNamesakes(es: seq<Event>, id: BucketId, sc: ServiceConfig)
    requires LegalRun(INITIAL, es) && Only(es, sc) && OutOfSight(Run(INITIAL, es), id)
    ensures HasNamesakes(sc)
  {
    ReapableIsWatchedUnlessTakenOver(es, id);
    var i :| 0 <= i < |es| && TakenOverAt(INITIAL, es, id, i);
    InitialInv();
    AliveOnTheWay(INITIAL, es, i, id);
    RunQueuesUnder(es[..i], sc);
    TakenOverByNamesake(Run(INITIAL, es[..i]), es[i], id, sc);
  }

  /** Exactly which configurations let the reaper lose sight of a bucket: those in which two
      different names that can be reaped read the same. */
  lemma LosesSightIff(sc: ServiceConfig)
    requires Normalised(sc)
    ensures LosesSight(sc) <==> HasNamesakes(sc)
  {
    if LosesSight(sc) {
      var es, id :| LegalRun(INITIAL, es) && Only(es, sc) && OutOfSight(Run(INITIAL, es), id);
      OutOfSightMeansNamesakes(es, id, sc);
    }
    if HasNamesakes(sc) {
      var k1, n1, k2, n2 :| Reapable(sc, k1, n1) && Reapable(sc, k2, n2) && AreNamesakes(k1, n1, k2, n2);
      NamesakeTakesOver(0, sc, k1, n1, k2, n2);
      var es := TwoLookups(0, sc, k1, n1, k2, n2);
      assert Only(es, sc) && OutOfSight(Run(INITIAL, es), BucketId(1, Named(k1, n1)));
    }
  }
}
