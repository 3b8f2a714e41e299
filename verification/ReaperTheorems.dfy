// Buckets in use are safe from the reaper (reaper.go:26-129); and which buckets the
// reaper watches, as it must for an idle one ever to go.
module ReaperTheorems {
  import opened Prelude
  import opened Config
  import opened Container
  import opened ContainerInvariant
  import opened ContainerTheorems

  // ---- A bucket in use is safe ----------------------------------------------------------

  /** A lookup that returns a watched bucket counts as activity at that very moment. */
  lemma LookupReports(c: State, now: int, k: string, name: string)
    requires Inv(c) && c.now <= now
    requires Find(c, now, k, name).1.Found? && Find(c, now, k, name).1.bucket.Watched()
    ensures
      var c' := Find(c, now, k, name).0;
      var b := Find(c, now, k, name).1.bucket;
      && b.id in c'.live && BucketAt(c'.shelf, b.id.slot) == Some(b)
      && b.id in c'.reported && c'.reported[b.id] == now && b.id in c'.signals && c'.signals[b.id]
  {
    DefaultsAreUnwatched(c);
    if k in c.shelf.namespaces && name in c.shelf.namespaces[k].buckets {
      BucketFacts(c, k, name);
      assert Installed(c.shelf, c.shelf.namespaces[k].buckets[name].id);
    }
    WatchedLookup(c, now, k, name);
  }

  lemma WatchedLookup(c: State, now: int, k: string, name: string)
    requires Find(c, now, k, name).1.Found? && Find(c, now, k, name).1.bucket.Watched()
    requires c.shelf.defaultBucket.Some? ==> !c.shelf.defaultBucket.value.Watched()
    requires k in c.shelf.namespaces && c.shelf.namespaces[k].defaultBucket.Some? ==>
      !c.shelf.namespaces[k].defaultBucket.value.Watched()
    requires k in c.shelf.namespaces && name in c.shelf.namespaces[k].buckets ==>
      c.shelf.namespaces[k].buckets[name].id.slot == Named(k, name) && c.shelf.namespaces[k].buckets[name].id in c.live
    ensures
      var c' := Find(c, now, k, name).0;
      var b := Find(c, now, k, name).1.bucket;
      && b.id in c'.live && BucketAt(c'.shelf, b.id.slot) == Some(b)
      && b.id in c'.reported && c'.reported[b.id] == now && b.id in c'.signals && c'.signals[b.id]
  {
  }

  lemma DefaultsAreUnwatched(c: State)
    requires Inv(c)
    ensures c.shelf.defaultBucket.Some? ==> !c.shelf.defaultBucket.value.Watched()
    ensures forall k :: k in c.shelf.namespaces && c.shelf.namespaces[k].defaultBucket.Some? ==>
      !c.shelf.namespaces[k].defaultBucket.value.Watched()
  {
    forall k | k in c.shelf.namespaces && c.shelf.namespaces[k].defaultBucket.Some?
      ensures !c.shelf.namespaces[k].defaultBucket.value.Watched()
    {
      assert NamespaceOk(k, c.shelf.namespaces[k]);
    }
  }

  lemma LookupLeavesBuckets(c: State, now: int, k: string, name: string, slot: Slot)
    requires BucketAt(c.shelf, slot).Some?
    ensures BucketAt(Find(c, now, k, name).0.shelf, slot) == BucketAt(c.shelf, slot)
  {
    match slot
    case GlobalDefault =>
    case NamespaceDefault(_) =>
    case Named(_, _) =>
  }

  lemma CheckLeavesBuckets(c: State, now: int, key: string, id: BucketId)
    requires Inv(c) && id in c.live && id in Reap(c, now, key).live
    ensures BucketAt(Reap(c, now, key).shelf, id.slot) == BucketAt(c.shelf, id.slot)
  {
    if key in c.watchers && TooIdle(c, c.watchers[key], now) {
      var w := c.watchers[key];
      CheckRemovesWatched(c, now, key);
      OpenWatcherIsCurrent(c, key);
      BucketFacts(c, w.ns, w.name);
      RemovalDrops(c.shelf, w.ns, w.name);
      assert Installed(c.shelf, id) && Installed(c.shelf, w.id);
    }
  }

  lemma UpdateLeavesBuckets(c: State, now: int, sc: ServiceConfig, id: BucketId)
    requires id.epoch < c.epoch && id in c.live && id in Configure(c, now, sc).live
    ensures BucketAt(Configure(c, now, sc).shelf, id.slot) == BucketAt(c.shelf, id.slot)
  {
    RestockPlaces(c.shelf, c.epoch, sc, id.slot);
  }

  /** A bucket that lives on is not replaced or altered. */
  lemma BucketStays(c: State, e: Event, id: BucketId)
    requires Inv(c) && id in c.live && id in Step(c, e).live
    ensures BucketAt(Step(c, e).shelf, id.slot) == BucketAt(c.shelf, id.slot)
  {
    assert Installed(c.shelf, id) && id.epoch < c.epoch;
    match e
    case Lookup(now, k, name) => LookupLeavesBuckets(c, now, k, name, id.slot);
    case Update(now, sc) => UpdateLeavesBuckets(c, now, sc, id);
    case Registration(now) =>
    case Check(now, key) => CheckLeavesBuckets(c, now, key, id);
  }

  lemma ReportsGrow(c: State, e: Event, id: BucketId)
    requires id in c.reported && c.reported[id] <= c.now <= e.now
    ensures id in Step(c, e).reported && c.reported[id] <= Step(c, e).reported[id]
  {
  }

  /** A watched bucket whose activity was reported at `t` or later. */
  ghost predicate UsedSince(c: State, id: BucketId, t: int) {
    WatchedId(c.shelf, id) && id in c.reported && t <= c.reported[id]
  }

  lemma StepIsSafe(c: State, e: Event, id: BucketId, t: int)
    requires Inv(c) && Legal(c, e) && UsedSince(c, id, t)
    requires e.now <= t + BucketAt(c.shelf, id.slot).value.cfg.maxIdleMillis * 1_000_000
    requires !Changes(c, e, id.slot)
    ensures UsedSince(Step(c, e), id, t) && BucketAt(Step(c, e).shelf, id.slot) == BucketAt(c.shelf, id.slot)
  {
    assert id in c.live && id in c.signals && c.reported[id] <= c.now;
    if id !in Step(c, e).live {
      DeathsAreJustified(c, e, id);
    }
    BucketStays(c, e, id);
    ReportsGrow(c, e, id);
  }

  /** The i-th step of a run comes in time and does not reconfigure a bucket's place. */
  ghost predicate Spares(c: State, es: seq<Event>, id: BucketId, deadline: int, i: nat)
    requires i < |es|
  {
    && es[i].now <= deadline
    && !Changes(Run(c, es[..i]), es[i], id.slot)
  }

  /** A bucket in use is never reaped: if it was looked up at time `t` or later, then no
      run within its idle limit of `t` removes it, whatever happens, other than by a
      reconfiguration of its namespace. */
  lemma {:induction false} UsedBucketsAreSafe(c: State, es: seq<Event>, id: BucketId, t: int, deadline: int)
    requires Inv(c) && LegalRun(c, es) && UsedSince(c, id, t)
    requires deadline <= t + BucketAt(c.shelf, id.slot).value.cfg.maxIdleMillis * 1_000_000
    requires forall i :: 0 <= i < |es| ==> Spares(c, es, id, deadline, i)
    ensures UsedSince(Run(c, es), id, t) && BucketAt(Run(c, es).shelf, id.slot) == BucketAt(c.shelf, id.slot)
  {
    if es != [] {
      var n := |es| - 1;
      LegalPrefix(c, es, n);
      SparesPrefix(c, es, id, deadline, n);
      UsedBucketsAreSafe(c, es[..n], id, t, deadline);
      RunKeepsInv(c, es[..n]);
      assert Legal(Run(c, es[..n]), es[n]) && Spares(c, es, id, deadline, n);
      StepIsSafe(Run(c, es[..n]), es[n], id, t);
    }
  }

  lemma SparesPrefix(c: State, es: seq<Event>, id: BucketId, deadline: int, n: nat)
    requires n <= |es| && forall i :: 0 <= i < |es| ==> Spares(c, es, id, deadline, i)
    ensures forall i :: 0 <= i < n ==> Spares(c, es[..n], id, deadline, i)
  {
    forall i | 0 <= i < n
      ensures Spares(c, es[..n], id, deadline, i)
    {
      assert Spares(c, es, id, deadline, i) && es[..n][..i] == es[..i];
    }
  }

  /** A new bucket that can be reaped has its watcher queued behind all others. */
  lemma NewBucketIsQueued(c: State, now: int, k: string, name: string)
    requires Find(c, now, k, name).1.Found? && Find(c, now, k, name).1.bucket.id !in c.live
    requires Inv(c) && Find(c, now, k, name).1.bucket.Watched()
    ensures
      var b := Find(c, now, k, name).1.bucket;
      var q := Find(c, now, k, name).0.queue;
      q == c.queue + [Watcher(b.id, k, name, b.cfg.maxIdleMillis * 1_000_000, 0)]
  {
    DefaultsAreUnwatched(c);
    if k in c.shelf.namespaces && name in c.shelf.namespaces[k].buckets {
      BucketFacts(c, k, name);
      assert Installed(c.shelf, c.shelf.namespaces[k].buckets[name].id);
    }
  }

  // ---- Who is watched --------------------------------------------------------------------

  /** Where the reaper files the watcher of a bucket. */
  function Key(id: BucketId): string {
    if id.slot.Named? then FullyQualifiedName(id.slot.ns, id.slot.name) else ""
  }

  ghost predicate Registered(c: State, id: BucketId) {
    Key(id) in c.watchers && c.watchers[Key(id)].id == id
  }

  ghost predicate Queued(c: State, id: BucketId) {
    exists i :: 0 <= i < |c.queue| && c.queue[i].id == id
  }

  /** No watcher, registered or queued, watches the bucket. */
  ghost predicate Unwatched(c: State, id: BucketId) {
    !Queued(c, id) && forall key :: key in c.watchers ==> c.watchers[key].id != id
  }

  /** A bucket is watched from one place at most, and only under its own key. */
  lemma WatchedMeans(c: State, id: BucketId)
    requires Inv(c)
    ensures Unwatched(c, id) <==> !Queued(c, id) && !Registered(c, id)
    ensures !(Queued(c, id) && Registered(c, id))
  {
    if !Unwatched(c, id) && !Queued(c, id) {
      var key :| key in c.watchers && c.watchers[key].id == id;
      WatcherFacts(c, key);
    }
    if Registered(c, id) {
      WatcherFacts(c, Key(id));
    }
  }

  /** The next watcher in the queue, of another bucket, is filed under this one's key. */
  ghost predicate TakenOver(c: State, e: Event, id: BucketId) {
    e.Registration? && Registered(c, id) && c.queue != [] && c.queue[0].Identifier() == Key(id)
  }

  lemma RegistrationLosesWatcherIff(c: State, now: int, id: BucketId)
    requires Inv(c)
    ensures Unwatched(Register(c, now), id) <==> Unwatched(c, id) || TakenOver(c, Registration(now), id)
  {
    var c' := Register(c, now);
    WatchedMeans(c, id);
    if c.queue != [] {
      var w := c.queue[0];
      assert WatcherOk(c.shelf, c.epoch, w);
      assert forall i :: 0 <= i < |c'.queue| ==> c'.queue[i] == c.queue[i + 1];
      assert forall i :: 0 < i < |c.queue| ==> c.queue[i] == c'.queue[i - 1];
      if Registered(c, id) {
        WatcherFacts(c, Key(id));
        assert w.id != id;
        if w.Identifier() != Key(id) { assert c'.watchers[Key(id)].id == id; }
      }
      if w.id == id {
        assert c'.watchers[w.Identifier()].id == id;
      } else if Queued(c, id) {
        var i :| 0 <= i < |c.queue| && c.queue[i].id == id;
        assert c'.queue[i - 1].id == id;
      }
      if TakenOver(c, Registration(now), id) {
        OnlyOneKey(c, id);
      }
    }
  }

  lemma OnlyOneKey(c: State, id: BucketId)
    requires Inv(c)
    ensures forall key :: key in c.watchers && c.watchers[key].id == id ==> key == Key(id)
  {
    forall key | key in c.watchers && c.watchers[key].id == id
      ensures key == Key(id)
    {
      WatcherFacts(c, key);
    }
  }

  lemma LookupKeepsWatchers(c: State, now: int, k: string, name: string, id: BucketId)
    requires id.epoch < c.epoch
    ensures Unwatched(Find(c, now, k, name).0, id) <==> Unwatched(c, id)
  {
    var c' := Find(c, now, k, name).0;
    assert c'.watchers == c.watchers && |c.queue| <= |c'.queue|;
    assert forall i :: 0 <= i < |c.queue| ==> c'.queue[i] == c.queue[i];
    assert forall i :: |c.queue| <= i < |c'.queue| ==> c'.queue[i].id.epoch == c.epoch;
  }

  lemma CheckKeepsWatchers(c: State, now: int, key: string, id: BucketId)
    requires Inv(c) && id in c.live && id in Reap(c, now, key).live
    ensures Unwatched(Reap(c, now, key), id) <==> Unwatched(c, id)
  {
    if key in c.watchers && TooIdle(c, c.watchers[key], now) {
      CheckRemovesWatched(c, now, key);
      OtherWatchersStay(c, Reap(c, now, key), key, id);
    } else {
      SparingCheckKeepsWatchers(c, now, key, id);
    }
  }

  lemma OtherWatchersStay(c: State, c': State, key: string, id: BucketId)
    requires key in c.watchers && c.watchers[key].id != id && c'.watchers == c.watchers - {key} && c'.queue == c.queue
    ensures Unwatched(c', id) <==> Unwatched(c, id)
  {
    assert forall k :: k in c.watchers && k != key ==> k in c'.watchers && c'.watchers[k] == c.watchers[k];
  }

  lemma SparingCheckKeepsWatchers(c: State, now: int, key: string, id: BucketId)
    requires key in c.watchers ==> !TooIdle(c, c.watchers[key], now)
    ensures Unwatched(Reap(c, now, key), id) <==> Unwatched(c, id)
  {
    var c' := Reap(c, now, key);
    assert c'.queue == c.queue && c'.watchers.Keys == c.watchers.Keys;
    assert forall k :: k in c.watchers ==> c'.watchers[k].id == c.watchers[k].id;
  }

  /** A bucket that lives on loses its watcher in one way only: registered, it is taken
      over by a namesake. Nothing gives a watcher back. */
  lemma StepLosesWatcherIff(c: State, e: Event, id: BucketId)
    requires Inv(c) && id in c.live && id in Step(c, e).live
    ensures Unwatched(Step(c, e), id) <==> Unwatched(c, id) || TakenOver(c, e, id)
  {
    match e
    case Lookup(now, k, name) =>
      assert id.epoch < c.epoch;
      LookupKeepsWatchers(c, now, k, name, id);
    case Update(now, sc) =>
    case Registration(now) => RegistrationLosesWatcherIff(c, now, id);
    case Check(now, key) => CheckKeepsWatchers(c, now, key, id);
  }

  /** The one that takes over is another bucket, of another name that reads the same. */
  lemma OnlyNamesakesTakeOver(c: State, e: Event, id: BucketId)
    requires Inv(c) && id in c.live && TakenOver(c, e, id)
    ensures c.queue[0].id.slot.Named? && c.queue[0].id.slot != id.slot && Key(c.queue[0].id) == Key(id)
  {
    assert Installed(c.shelf, id);
    assert WatcherOk(c.shelf, c.epoch, c.queue[0]) && c.watchers[Key(id)].id.epoch < c.queue[0].id.epoch;
  }

  // ---- Over whole runs ---------------------------------------------------------------------

  lemma {:induction false} EpochGrows(c: State, es: seq<Event>)
    ensures c.epoch <= Run(c, es).epoch
  {
    if es != [] {
      EpochGrows(c, es[..|es| - 1]);
      StepAdvances(Run(c, es[..|es| - 1]), es[|es| - 1]);
    }
  }

  ghost predicate TakenOverAt(c: State, es: seq<Event>, id: BucketId, i: nat)
    requires i < |es|
  {
    TakenOver(Run(c, es[..i]), es[i], id)
  }

  ghost predicate TakenOverIn(c: State, es: seq<Event>, id: BucketId) {
    exists i :: 0 <= i < |es| && TakenOverAt(c, es, id, i)
  }

  lemma TakenOverSnoc(c: State, es: seq<Event>, id: BucketId)
    requires es != []
    ensures
      var n := |es| - 1;
      TakenOverIn(c, es, id) <==> TakenOverIn(c, es[..n], id) || TakenOver(Run(c, es[..n]), es[n], id)
  {
    var n := |es| - 1;
    assert forall i :: 0 <= i < n ==> es[..n][..i] == es[..i];
    if TakenOverIn(c, es, id) {
      var i :| 0 <= i < |es| && TakenOverAt(c, es, id, i);
      if i < n { assert TakenOverAt(c, es[..n], id, i); }
    }
    if TakenOverIn(c, es[..n], id) {
      var i :| 0 <= i < n && TakenOverAt(c, es[..n], id, i);
      assert TakenOverAt(c, es, id, i);
    }
    if TakenOver(Run(c, es[..n]), es[n], id) {
      assert TakenOverAt(c, es, id, n);
    }
  }

  /** Only what was created before can be taken over. */
  lemma {:induction false} TakenOverIsOld(c: State, es: seq<Event>, id: BucketId)
    requires Inv(c) && LegalRun(c, es) && TakenOverIn(c, es, id)
    ensures id.epoch < Run(c, es).epoch
    decreases |es|
  {
    var n := |es| - 1;
    TakenOverSnoc(c, es, id);
    LegalPrefix(c, es, n);
    RunKeepsInv(c, es[..n]);
    StepAdvances(Run(c, es[..n]), es[n]);
    if TakenOverIn(c, es[..n], id) {
      TakenOverIsOld(c, es[..n], id);
    } else {
      RegisteredIsOld(Run(c, es[..n]), id);
    }
  }

  lemma RegisteredIsOld(c: State, id: BucketId)
    requires Inv(c) && Registered(c, id)
    ensures id.epoch < c.epoch
  {
    assert WatcherOk(c.shelf, c.epoch, c.watchers[Key(id)]);
  }

  /** A bucket born with its watcher has it queued. */
  lemma BornWatched(c: State, e: Event, id: BucketId)
    requires Inv(c) && Legal(c, e) && id !in c.live && id in Step(c, e).live && WatchedId(Step(c, e).shelf, id)
    ensures Queued(Step(c, e), id)
  {
    match e
    case Lookup(now, k, name) => LookupQueuesBorn(c, now, k, name, id);
    case Update(now, sc) => RestockPlaces(c.shelf, c.epoch, sc, id.slot);
    case Registration(now) =>
    case Check(now, key) => CheckBearsNone(c, now, key);
  }

  lemma CheckBearsNone(c: State, now: int, key: string)
    ensures Reap(c, now, key).live <= c.live && Reap(c, now, key).reported == c.reported
  {
  }

  lemma LookupQueuesBorn(c: State, now: int, k: string, name: string, id: BucketId)
    requires Inv(c) && id !in c.live && id in Find(c, now, k, name).0.live
    requires WatchedId(Find(c, now, k, name).0.shelf, id)
    ensures Queued(Find(c, now, k, name).0, id)
  {
    BornByLookup(c, now, k, name, id);
    NewBucketIsQueued(c, now, k, name);
    var q := Find(c, now, k, name).0.queue;
    assert q[|q| - 1].id == id;
  }

  lemma BornByLookup(c: State, now: int, k: string, name: string, id: BucketId)
    requires id !in c.live && id in Find(c, now, k, name).0.live && WatchedId(Find(c, now, k, name).0.shelf, id)
    ensures Find(c, now, k, name).1.Found? && Find(c, now, k, name).1.bucket.id == id
    ensures Find(c, now, k, name).1.bucket.Watched()
  {
  }

  /** Exactly which reapable buckets have no watcher, after any run from any state the
      container can be in: those that had none to begin with and those that a namesake
      took over on the way. */
  lemma {:induction false} WatcherLostIff(c: State, es: seq<Event>, id: BucketId)
    requires Inv(c) && LegalRun(c, es)
    requires id in Run(c, es).live && WatchedId(Run(c, es).shelf, id)
    ensures Unwatched(Run(c, es), id) <==> (id in c.live && Unwatched(c, id)) || TakenOverIn(c, es, id)
  {
    if es != [] {
      var n := |es| - 1;
      var m := Run(c, es[..n]);
      LegalPrefix(c, es, n);
      RunKeepsInv(c, es[..n]);
      TakenOverSnoc(c, es, id);
      if id in m.live {
        BucketStays(m, es[n], id);
        WatcherLostIff(c, es[..n], id);
        StepLosesWatcherIff(m, es[n], id);
      } else {
        assert Legal(m, es[n]);
        BornWatched(m, es[n], id);
        BirthsAreNew(m, es[n], id);
        EpochGrows(c, es[..n]);
        NewIsNeverTakenOver(c, es, id);
      }
    }
  }

  lemma NewIsNeverTakenOver(c: State, es: seq<Event>, id: BucketId)
    requires es != [] && Inv(c) && LegalRun(c, es) && id.epoch == Run(c, es[..|es| - 1]).epoch
    ensures !TakenOverIn(c, es, id) && id !in c.live
  {
    var n := |es| - 1;
    var m := Run(c, es[..n]);
    LegalPrefix(c, es, n);
    RunKeepsInv(c, es[..n]);
    TakenOverSnoc(c, es, id);
    EpochGrows(c, es[..n]);
    assert LiveIsReachable(c.shelf, c.live, c.epoch);
    if TakenOverIn(c, es[..n], id) {
      TakenOverIsOld(c, es[..n], id);
    }
    if TakenOver(m, es[n], id) {
      RegisteredIsOld(m, id);
    }
  }

  /** From start-up: a live reapable bucket has lost its watcher if and only if a namesake
      took it over. */
  lemma ReapableIsWatchedUnlessTakenOver(es: seq<Event>, id: BucketId)
    requires LegalRun(INITIAL, es)
    requires id in Run(INITIAL, es).live && WatchedId(Run(INITIAL, es).shelf, id)
    ensures Unwatched(Run(INITIAL, es), id) <==> TakenOverIn(INITIAL, es, id)
  {
    InitialInv();
    WatcherLostIff(INITIAL, es, id);
  }

  lemma LegalAtOneTime(c: State, es: seq<Event>, t: int)
    requires c.now <= t && forall i :: 0 <= i < |es| ==> es[i].now == t && (es[i].Update? ==> Normalised(es[i].cfg))
    ensures LegalRun(c, es)
  {
    forall i | 0 <= i < |es|
      ensures Legal(Run(c, es[..i]), es[i])
    {
      if 0 < i {
        StepAdvances(Run(c, es[..i][..i - 1]), es[i - 1]);
      }
    }
  }

  // ---- A name taken over is never reaped ----------------------------------------------------

  /** The i-th step of a run does not reconfigure a bucket's place. */
  ghost predicate Undisturbed(c: State, es: seq<Event>, id: BucketId, i: nat)
    requires i < |es|
  {
    !Changes(Run(c, es[..i]), es[i], id.slot)
  }

  lemma UndisturbedPrefix(c: State, es: seq<Event>, id: BucketId, n: nat)
    requires n <= |es| && forall i :: 0 <= i < |es| ==> Undisturbed(c, es, id, i)
    ensures forall i :: 0 <= i < n ==> Undisturbed(c, es[..n], id, i)
  {
    forall i | 0 <= i < n
      ensures Undisturbed(c, es[..n], id, i)
    {
      assert Undisturbed(c, es, id, i) && es[..n][..i] == es[..i];
    }
  }

  lemma StepUnwatched(c: State, e: Event, id: BucketId)
    requires Inv(c) && Legal(c, e) && Unwatched(c, id) && id in c.live
    requires !Changes(c, e, id.slot)
    ensures id in Step(c, e).live && Unwatched(Step(c, e), id)
  {
    UnwatchedSurvives(c, e, id);
    StepLosesWatcherIff(c, e, id);
  }

  lemma UnwatchedSurvives(c: State, e: Event, id: BucketId)
    requires Inv(c) && Legal(c, e) && Unwatched(c, id) && id in c.live
    requires !Changes(c, e, id.slot)
    ensures id in Step(c, e).live
  {
    match e
    case Lookup(now, k, name) => LookupsKillNone(c, now, k, name);
    case Update(now, sc) => ChangesExactly(c, e, id);
    case Registration(now) =>
    case Check(now, key) =>
      if key in c.watchers && TooIdle(c, c.watchers[key], now) {
        CheckRemovesWatched(c, now, key);
      }
  }

  /** A bucket without a watcher outlives any run that does not reconfigure its
      namespace, however long it is idle. */
  lemma {:induction false} UnwatchedIsNeverReaped(c: State, es: seq<Event>, id: BucketId)
    requires Inv(c) && LegalRun(c, es) && Unwatched(c, id) && id in c.live
    requires forall i :: 0 <= i < |es| ==> Undisturbed(c, es, id, i)
    ensures Unwatched(Run(c, es), id) && id in Run(c, es).live
  {
    if es != [] {
      var n := |es| - 1;
      LegalPrefix(c, es, n);
      UndisturbedPrefix(c, es, id, n);
      UnwatchedIsNeverReaped(c, es[..n], id);
      RunKeepsInv(c, es[..n]);
      assert Legal(Run(c, es[..n]), es[n]) && Undisturbed(c, es, id, n);
      StepUnwatched(Run(c, es[..n]), es[n], id);
    }
  }
}
