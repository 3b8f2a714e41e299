// Reaping and tokens together (server.go:106-153, bucket.go:189-292, reaper.go:36-129):
// when does nobody notice that idle buckets are reaped and come back full?
//
// The server below keeps the tokens of every bucket its container has made and answers
// clients within the limits of `Admission`. It is compared with itself without a reaper:
// the same run with the reaper's checks left out.
module Reaping {
  import opened Prelude
  import opened Config
  import opened Container
  import opened ContainerInvariant
  import opened ContainerTheorems
  import opened ReaperTheorems
  import T = TokenBucket
  import R = TokenBucketRuns
  import E = Eviction
  import A = Admission

  // ---- Serving requests ------------------------------------------------------------------

  datatype Server = Server(c: State, tokens: map<BucketId, T.State>)

  const STARTED: Server := Server(INITIAL, map[])

  /** What a client is told. Buckets with settings that they are not meant for are not
      modelled. */
  datatype Outcome =
    | NoSuchBucket
    | TooManyBuckets
    | Answered(answer: A.Outcome, dynamic: bool)
    | Unmodelled

  /** The limits of a bucket. */
  ghost function LimitsFor(cfg: BucketConfig): (l: T.Limits)
    ensures l.Valid() && (T.Usable(cfg) ==> l == T.LimitsOf(cfg))
  {
    if T.Usable(cfg) then T.IntervalBracketsRate(cfg); T.LimitsOf(cfg) else T.Limits(1, 1, 0)
  }

  /** New buckets are full. */
  function Held(tokens: map<BucketId, T.State>, id: BucketId, l: T.Limits): T.State {
    if id in tokens then tokens[id] else T.Fresh(l)
  }

  /** The bucket that a step's lookup returns. */
  function Visited(c: State, e: Event): Option<Bucket> {
    if e.Lookup? && Find(c, e.now, e.ns, e.name).1.Found? then Some(Find(c, e.now, e.ns, e.name).1.bucket) else None
  }

  ghost function AnswerOf(v: Server, b: Bucket, now: int, a: A.Ask): Outcome {
    if !T.Usable(b.cfg) then Unmodelled
    else
      var l := LimitsFor(b.cfg);
      Answered(A.Decide(b.cfg, Held(v.tokens, b.id, l), now, a), b.dynamic)
  }

  /** What a client is told, if the step is a client's. */
  ghost function Reply(v: Server, e: Event, a: A.Ask): Option<Outcome> {
    if !e.Lookup? then None
    else
      match Find(v.c, e.now, e.ns, e.name).1
      case Found(b) => Some(AnswerOf(v, b, e.now, a))
      case NoBucket => Some(NoSuchBucket)
      case CapReached => Some(TooManyBuckets)
  }

  ghost function TokensAfter(v: Server, b: Bucket, now: int, a: A.Ask): map<BucketId, T.State> {
    if !T.Usable(b.cfg) then v.tokens
    else
      var l := LimitsFor(b.cfg);
      v.tokens[b.id := A.Settled(b.cfg, Held(v.tokens, b.id, l), now, a)]
  }

  ghost function Serve(v: Server, e: Event, a: A.Ask): Server {
    match Visited(v.c, e)
    case None => Server(Step(v.c, e), v.tokens)
    case Some(b) => Server(Step(v.c, e), TokensAfter(v, b, e.now, a))
  }

  /** A step with the reaper at work, or with its checks left out. */
  ghost function ServeStep(v: Server, e: Event, a: A.Ask, reaping: bool): Server {
    if e.Check? && !reaping then v else Serve(v, e, a)
  }

  ghost function ServeAll(v: Server, es: seq<Event>, asks: seq<A.Ask>, reaping: bool): Server
    requires |es| == |asks|
  {
    if es == [] then v
    else
      var n := |es| - 1;
      ServeStep(ServeAll(v, es[..n], asks[..n], reaping), es[n], asks[n], reaping)
  }

  // ---- Configurations that outlast their buckets --------------------------------------------

  /** A reaped bucket has been idle for more than its limit, so for one nanosecond more at
      least. */
  function ReapedAfter(cfg: BucketConfig): int {
    cfg.maxIdleMillis * 1_000_000 + 1
  }

  /** Whatever a template allows to be reaped is full again by then, or never grants
      anything. */
  ghost predicate LastingTemplate(cfg: BucketConfig) {
    LimitsFor(cfg).maxDebt < 0 || E.Threshold(LimitsFor(cfg), A.CallersOf(cfg)) <= ReapedAfter(cfg)
  }

  predicate ReapableTemplate(ns: NamespaceConfig) {
    ns.dynamicBucketTemplate.Some? && ns.dynamicBucketTemplate.value.maxIdleMillis > 0
  }

  /** Reaping makes no room either: dynamic buckets that can be reaped are not capped. */
  ghost predicate Lasting(sc: ServiceConfig) {
    forall k :: k in sc.namespaces && ReapableTemplate(sc.namespaces[k]) ==> LastingNamespace(sc.namespaces[k])
  }

  ghost predicate LastingNamespace(ns: NamespaceConfig)
    requires ns.dynamicBucketTemplate.Some?
  {
    LastingTemplate(ns.dynamicBucketTemplate.value) && ns.maxDynamicBuckets <= 0
  }

  ghost predicate UsableIfAny(cfg: Option<BucketConfig>) {
    cfg.Some? ==> T.Usable(cfg.value)
  }

  ghost predicate UsableNamespace(ns: NamespaceConfig) {
    && UsableIfAny(ns.defaultBucket) && UsableIfAny(ns.dynamicBucketTemplate)
    && forall n :: n in ns.buckets ==> T.Usable(ns.buckets[n])
  }

  /** All settings are such as buckets are meant for. */
  ghost predicate UsableConfig(sc: ServiceConfig) {
    UsableIfAny(sc.globalDefaultBucket) && forall k :: k in sc.namespaces ==> UsableNamespace(sc.namespaces[k])
  }

  // ---- Agreement at one place -----------------------------------------------------------------

  /** The configuration that governs a place. */
  function ConfigAt(h: Shelf, slot: Slot): Option<BucketConfig> {
    match slot
    case GlobalDefault => ConfigOf(h.defaultBucket)
    case NamespaceDefault(k) => if k in h.namespaces then ConfigOf(h.namespaces[k].defaultBucket) else None
    case Named(k, n) =>
      if k !in h.namespaces then None
      else if n in h.namespaces[k].cfg.buckets then Some(h.namespaces[k].cfg.buckets[n])
      else h.namespaces[k].cfg.dynamicBucketTemplate
  }

  /** Equal, or both bound to be found full. */
  ghost predicate Alike(l: T.Limits, s: T.State, r: T.State, now: int)
    requires l.Valid()
  {
    && R.Sound(l, s) && R.Sound(l, r) && UntouchedIfBarren(l, s) && UntouchedIfBarren(l, r)
    && (s == r || (E.FullBy(l, s, now) && E.FullBy(l, r, now)))
  }

  /** A bucket that never grants anything stays as it was made. */
  ghost predicate UntouchedIfBarren(l: T.Limits, s: T.State) {
    l.maxDebt < 0 ==> s == T.Fresh(l)
  }

  ghost function HorizonOf(cfg: BucketConfig): int {
    E.Horizon(LimitsFor(cfg), A.CallersOf(cfg))
  }

  /** The unreaped state `s` of a place and the bucket that stands there, if any, with its
      state `r`; a bucket that can be reaped owes no more than the horizon past its last
      report. */
  ghost predicate AgreesAt(cfg: BucketConfig, s: T.State, b: Option<Bucket>, r: T.State, reported: map<BucketId, int>,
                           now: int) {
    var l := LimitsFor(cfg);
    match b
    case None => E.FullBy(l, s, now) && UntouchedIfBarren(l, s)
    case Some(b) =>
      && Alike(l, s, r, now)
      && (b.Watched() ==> b.id in reported && r.tna <= reported[b.id] + HorizonOf(cfg))
  }

  lemma FreshIsFull(l: T.Limits, now: int)
    requires l.Valid() && 0 <= now
    ensures R.Sound(l, T.Fresh(l)) && E.FullBy(l, T.Fresh(l), now)
  {
    DivBounds(now, l.nanos);
  }

  lemma AlikeLater(l: T.Limits, s: T.State, r: T.State, now: int, now': int)
    requires l.Valid() && Alike(l, s, r, now) && now <= now'
    ensures Alike(l, s, r, now')
  {
    if s != r {
      E.FullRefill(l, s, now, now');
      E.FullRefill(l, r, now, now');
    }
  }

  lemma NextAlike(l: T.Limits, s: T.State, r: T.State, now: int, q: T.Request)
    requires l.Valid() && Alike(l, s, r, now) && 0 <= now <= q.now
    ensures T.Answer(l, s, q) == T.Answer(l, r, q)
    ensures Alike(l, T.Next(l, s, q), T.Next(l, r, q), q.now)
  {
    AlikeLater(l, s, r, now, q.now);
    if l.maxDebt < 0 {
      E.NegativeDebtRejects(l, s, q);
    }
    R.NextSound(l, s, q);
    R.NextSound(l, r, q);
    if s != r {
      E.FullRefill(l, s, q.now, q.now);
      E.FullRefill(l, r, q.now, q.now);
    }
  }

  /** States that are alike give the same answer and stay alike, and within the horizon. */
  lemma TakeAlike(cfg: BucketConfig, s: T.State, r: T.State, now: int, now': int, a: A.Ask)
    requires T.Usable(cfg) && Alike(LimitsFor(cfg), s, r, now) && 0 <= now <= now'
    ensures A.Decide(cfg, s, now', a) == A.Decide(cfg, r, now', a)
    ensures Alike(LimitsFor(cfg), A.Settled(cfg, s, now', a), A.Settled(cfg, r, now', a), now')
    ensures r.tna <= now' + HorizonOf(cfg) ==> A.Settled(cfg, r, now', a).tna <= now' + HorizonOf(cfg)
  {
    var l, g, q := LimitsFor(cfg), A.CallersOf(cfg), A.RequestOf(cfg, now', a);
    AlikeLater(l, s, r, now, now');
    NextAlike(l, s, r, now, q);
    if !A.OverLimit(cfg, a) && T.Answer(l, r, q).Granted? && r.tna <= now' + HorizonOf(cfg) {
      E.GrantWithinHorizon(l, g, r, q);
    }
  }

  /** A bucket reaped after its limit is one that would be found full. */
  lemma ReapedIsFull(cfg: BucketConfig, s: T.State, r: T.State, reported: int, now: int)
    requires Alike(LimitsFor(cfg), s, r, now) && 0 <= now && r.tna <= reported + HorizonOf(cfg)
    requires LastingTemplate(cfg) && cfg.maxIdleMillis * 1_000_000 < now - reported
    ensures E.FullBy(LimitsFor(cfg), s, now)
  {
    var l := LimitsFor(cfg);
    if l.maxDebt < 0 {
      FreshIsFull(l, now);
    } else {
      E.LapsedIsFull(l, A.CallersOf(cfg), E.Present(r, reported), now, ReapedAfter(cfg));
    }
  }

  // ---- Agreement everywhere ---------------------------------------------------------------------

  ghost function StateAt(v: Server, slot: Slot, l: T.Limits): T.State {
    var b := BucketAt(v.c.shelf, slot);
    if b.Some? then Held(v.tokens, b.value.id, l) else T.Fresh(l)
  }

  /** A place whose bucket the reaper may take away. */
  predicate ReapablePlace(h: Shelf, slot: Slot) {
    slot.Named? && slot.ns in h.namespaces && ReapableTemplate(h.namespaces[slot.ns].cfg)
  }

  /** The server `v` with its reaper and the server `w` without agree at a place that a
      configuration governs: what stands at `v` stands at `w`, and only what can be reaped
      may be missing. */
  ghost predicate Agrees(v: Server, w: Server, slot: Slot)
    requires ConfigAt(v.c.shelf, slot).Some?
  {
    var cfg := ConfigAt(v.c.shelf, slot).value;
    var b, d := BucketAt(v.c.shelf, slot), BucketAt(w.c.shelf, slot);
    && (b.Some? ==> d.Some?) && (d.Some? && b.None? ==> ReapablePlace(v.c.shelf, slot))
    && AgreesAt(cfg, StateAt(w, slot, LimitsFor(cfg)), b, StateAt(v, slot, LimitsFor(cfg)), v.c.reported, v.c.now)
  }

  ghost predicate AllAgree(v: Server, w: Server) {
    && w.c.shelf.cfg == v.c.shelf.cfg && w.c.now <= v.c.now && 0 <= v.c.now
    && (forall slot :: ConfigAt(v.c.shelf, slot).Some? ==> Agrees(v, w, slot))
    && (forall id :: id in v.tokens ==> id.epoch < v.c.epoch)
    && (forall id :: id in w.tokens ==> id.epoch < w.c.epoch)
  }

  ghost predicate LastingShelf(h: Shelf) {
    h.cfg.Some? ==> Lasting(h.cfg.value) && UsableConfig(h.cfg.value)
  }

  /** A bucket has the configuration of its place. */
  lemma BucketsFollowConfig(c: State, slot: Slot)
    requires Inv(c) && BucketAt(c.shelf, slot).Some?
    ensures
      var b := BucketAt(c.shelf, slot).value;
      ConfigAt(c.shelf, slot) == Some(b.cfg) && b.id.slot == slot && b.id in c.live && b.id.epoch < c.epoch
  {
    var b := BucketAt(c.shelf, slot).value;
    match slot {
      case GlobalDefault =>
      case NamespaceDefault(k) => assert NamespaceOk(k, c.shelf.namespaces[k]);
      case Named(k, n) =>
        assert NamespaceOk(k, c.shelf.namespaces[k]);
        assert BucketOk(k, c.shelf.namespaces[k].cfg, n, b);
    }
    assert Installed(c.shelf, b.id);
  }

  /** What the configuration says of a place. */
  function Governs(sc: ServiceConfig, slot: Slot): Option<BucketConfig> {
    match slot
    case GlobalDefault => sc.globalDefaultBucket
    case NamespaceDefault(k) => if k in sc.namespaces then sc.namespaces[k].defaultBucket else None
    case Named(k, n) =>
      if k !in sc.namespaces then None
      else if n in sc.namespaces[k].buckets then Some(sc.namespaces[k].buckets[n])
      else sc.namespaces[k].dynamicBucketTemplate
  }

  lemma ConfigGoverns(c: State, slot: Slot)
    requires Inv(c)
    ensures ConfigAt(c.shelf, slot) == if c.shelf.cfg.None? then None else Governs(c.shelf.cfg.value, slot)
  {
    match slot
    case GlobalDefault =>
    case NamespaceDefault(k) => assert k in c.shelf.namespaces ==> NamespaceOk(k, c.shelf.namespaces[k]);
    case Named(k, n) =>
  }

  lemma GovernedIsUsable(c: State, slot: Slot)
    requires Inv(c) && LastingShelf(c.shelf) && ConfigAt(c.shelf, slot).Some?
    ensures T.Usable(ConfigAt(c.shelf, slot).value)
  {
    ConfigGoverns(c, slot);
    if !slot.GlobalDefault? {
      assert UsableNamespace(c.shelf.cfg.value.namespaces[slot.ns]);
    }
  }

  /** What a lookup can return knows its place, and the defaults are never reaped. */
  ghost predicate Placed(h: Shelf, k: string, name: string) {
    && (h.defaultBucket.Some? ==> h.defaultBucket.value.id.slot == GlobalDefault && !h.defaultBucket.value.Watched())
    && (k in h.namespaces ==>
          var ns := h.namespaces[k];
          && (ns.defaultBucket.Some? ==>
                ns.defaultBucket.value.id.slot == NamespaceDefault(k) && !ns.defaultBucket.value.Watched())
          && (name in ns.buckets ==> ns.buckets[name].id.slot == Named(k, name)))
  }

  lemma AllPlaced(c: State, k: string, name: string)
    requires Inv(c)
    ensures Placed(c.shelf, k, name)
  {
    if k in c.shelf.namespaces {
      assert NamespaceOk(k, c.shelf.namespaces[k]);
      if name in c.shelf.namespaces[k].buckets {
        BucketFacts(c, k, name);
      }
    }
  }

  /** The bucket `b` that a lookup returns stands in its place afterwards, as it did before
      unless it is new and the place was empty. */
  ghost predicate Stands(c: State, c': State, b: Bucket, now: int) {
    && BucketAt(c'.shelf, b.id.slot) == Some(b)
    && (BucketAt(c.shelf, b.id.slot) == Some(b) || (BucketAt(c.shelf, b.id.slot) == None && b.id.epoch == c.epoch))
    && (b.Watched() ==> b.id in c'.reported && c'.reported[b.id] == now)
  }

  lemma FoundIsInstalled(c: State, e: Event)
    requires Visited(c, e).Some? && Placed(c.shelf, e.ns, e.name)
    ensures Stands(c, Step(c, e), Visited(c, e).value, e.now)
  {
    if e.ns in c.shelf.namespaces && e.name in c.shelf.namespaces[e.ns].buckets {
      OldStands(c, e);
    } else if e.ns in c.shelf.namespaces && c.shelf.namespaces[e.ns].cfg.dynamicBucketTemplate.Some? {
      NewStands(c, e);
    }
  }

  lemma OldStands(c: State, e: Event)
    requires e.Lookup? && e.ns in c.shelf.namespaces && e.name in c.shelf.namespaces[e.ns].buckets
    requires Placed(c.shelf, e.ns, e.name)
    ensures Visited(c, e).Some? && Stands(c, Step(c, e), Visited(c, e).value, e.now)
  {
  }

  lemma NewStands(c: State, e: Event)
    requires e.Lookup? && e.ns in c.shelf.namespaces && e.name !in c.shelf.namespaces[e.ns].buckets
    requires c.shelf.namespaces[e.ns].cfg.dynamicBucketTemplate.Some? && Visited(c, e).Some?
    ensures Stands(c, Step(c, e), Visited(c, e).value, e.now)
  {
  }

  lemma LookupKeepsConfigs(c: State, e: Event, slot: Slot)
    requires e.Lookup?
    ensures ConfigAt(Step(c, e).shelf, slot) == ConfigAt(c.shelf, slot)
  {
  }

  /** Nothing else changes at a lookup. */
  lemma OthersUnvisited(c: State, e: Event, slot: Slot)
    requires e.Lookup? && (Visited(c, e).Some? ==> Visited(c, e).value.id.slot != slot) && Placed(c.shelf, e.ns, e.name)
    ensures BucketAt(Step(c, e).shelf, slot) == BucketAt(c.shelf, slot)
    ensures forall id: BucketId :: id.slot == slot && id in c.reported ==>
      id in Step(c, e).reported && Step(c, e).reported[id] == c.reported[id]
  {
    if e.ns in c.shelf.namespaces && e.name !in c.shelf.namespaces[e.ns].buckets {
      NewLeavesOthers(c, e, slot);
    }
  }

  lemma NewLeavesOthers(c: State, e: Event, slot: Slot)
    requires e.Lookup? && (Visited(c, e).Some? ==> Visited(c, e).value.id.slot != slot)
    requires e.ns in c.shelf.namespaces && e.name !in c.shelf.namespaces[e.ns].buckets
    ensures BucketAt(Step(c, e).shelf, slot) == BucketAt(c.shelf, slot)
  {
    var ns := c.shelf.namespaces[e.ns];
    if ns.cfg.dynamicBucketTemplate.Some? && Visited(c, e).Some? {
      OtherPlaces(c.shelf, e.ns, e.name, AddBucket(ns, e.name, Visited(c, e).value));
    }
  }

  // ---- Lookups ------------------------------------------------------------------------------------

  /** Two servers are told the same: buckets of the same place and settings, or none for
      the same reason. */
  ghost predicate SameLookup(x: Container.Lookup, y: Container.Lookup) {
    match (x, y)
    case (Found(b), Found(d)) => b.id.slot == d.id.slot && b.cfg == d.cfg && b.dynamic == d.dynamic
    case (NoBucket, NoBucket) => true
    case (CapReached, CapReached) => true
    case _ => false
  }

  /** Buckets of one place under one configuration. */
  lemma SameBucket(c: State, c': State, slot: Slot)
    requires Inv(c) && Inv(c') && c.shelf.cfg == c'.shelf.cfg
    requires BucketAt(c.shelf, slot).Some? && BucketAt(c'.shelf, slot).Some?
    ensures SameLookup(Found(BucketAt(c.shelf, slot).value), Found(BucketAt(c'.shelf, slot).value))
  {
    BucketsFollowConfig(c, slot);
    BucketsFollowConfig(c', slot);
    ConfigGoverns(c, slot);
    ConfigGoverns(c', slot);
    DynamicByPlace(c, slot);
    DynamicByPlace(c', slot);
  }

  lemma DynamicByPlace(c: State, slot: Slot)
    requires Inv(c) && BucketAt(c.shelf, slot).Some?
    ensures c.shelf.cfg.Some?
    ensures BucketAt(c.shelf, slot).value.dynamic <==>
      slot.Named? && slot.ns in c.shelf.cfg.value.namespaces &&
        slot.name !in c.shelf.cfg.value.namespaces[slot.ns].buckets
  {
    match slot
    case GlobalDefault =>
    case NamespaceDefault(k) => assert NamespaceOk(k, c.shelf.namespaces[k]);
    case Named(k, n) =>
      assert NamespaceOk(k, c.shelf.namespaces[k]);
      assert BucketOk(k, c.shelf.namespaces[k].cfg, n, c.shelf.namespaces[k].buckets[n]);
  }

  /** Defaults stand wherever they are configured. */
  lemma DefaultsStand(c: State, slot: Slot)
    requires Inv(c) && !slot.Named?
    ensures BucketAt(c.shelf, slot).Some? <==> ConfigAt(c.shelf, slot).Some?
  {
  }

  lemma SameDefaults(c: State, c': State, slot: Slot)
    requires Inv(c) && Inv(c') && c.shelf.cfg == c'.shelf.cfg && !slot.Named?
    ensures SameLookup(FoundIfAny(BucketAt(c.shelf, slot)), FoundIfAny(BucketAt(c'.shelf, slot)))
  {
    DefaultsStand(c, slot);
    DefaultsStand(c', slot);
    ConfigGoverns(c, slot);
    ConfigGoverns(c', slot);
    if BucketAt(c.shelf, slot).Some? {
      SameBucket(c, c', slot);
    }
  }

  lemma SameNamespaces(c: State, c': State)
    requires Inv(c) && Inv(c') && c.shelf.cfg == c'.shelf.cfg
    ensures c.shelf.namespaces.Keys == c'.shelf.namespaces.Keys
    ensures forall k :: k in c.shelf.namespaces ==> c.shelf.namespaces[k].cfg == c'.shelf.namespaces[k].cfg
  {
  }

  /** What stands at one server stands at the other, and only what can be reaped may be
      missing. */
  ghost predicate Covers(h: Shelf, h': Shelf) {
    forall slot ::
      && (BucketAt(h, slot).Some? ==> BucketAt(h', slot).Some?)
      && (BucketAt(h', slot).Some? ==> BucketAt(h, slot).Some? || ReapablePlace(h, slot))
  }

  lemma PlaceCovered(v: Server, w: Server, slot: Slot)
    requires Inv(v.c) && Inv(w.c) && AllAgree(v, w)
    ensures BucketAt(v.c.shelf, slot).Some? ==> BucketAt(w.c.shelf, slot).Some?
    ensures BucketAt(w.c.shelf, slot).Some? ==> BucketAt(v.c.shelf, slot).Some? || ReapablePlace(v.c.shelf, slot)
  {
    ConfigGoverns(v.c, slot);
    ConfigGoverns(w.c, slot);
    if BucketAt(v.c.shelf, slot).Some? {
      BucketsFollowConfig(v.c, slot);
      assert Agrees(v, w, slot);
    } else if BucketAt(w.c.shelf, slot).Some? {
      BucketsFollowConfig(w.c, slot);
      assert Agrees(v, w, slot);
    }
  }

  lemma AllCovered(v: Server, w: Server)
    requires Inv(v.c) && Inv(w.c) && AllAgree(v, w)
    ensures Covers(v.c.shelf, w.c.shelf)
  {
    forall slot
      ensures BucketAt(v.c.shelf, slot).Some? ==> BucketAt(w.c.shelf, slot).Some?
      ensures BucketAt(w.c.shelf, slot).Some? ==> BucketAt(v.c.shelf, slot).Some? || ReapablePlace(v.c.shelf, slot)
    {
      PlaceCovered(v, w, slot);
    }
  }

  lemma CoveredNames(h: Shelf, h': Shelf, k: string, n: string)
    requires Covers(h, h') && k in h.namespaces && k in h'.namespaces
    ensures n in h.namespaces[k].buckets ==> n in h'.namespaces[k].buckets
    ensures n in h'.namespaces[k].buckets ==> n in h.namespaces[k].buckets || ReapableTemplate(h.namespaces[k].cfg)
  {
    assert BucketAt(h, Named(k, n)).Some? <==> n in h.namespaces[k].buckets;
    assert BucketAt(h', Named(k, n)).Some? <==> n in h'.namespaces[k].buckets;
  }

  /** Two namespaces of one configuration with the same names count the same. */
  lemma SameCounts(k: string, ns: Namespace, ns': Namespace)
    requires NamespaceOk(k, ns) && NamespaceOk(k, ns') && ns.cfg == ns'.cfg && ns.buckets.Keys == ns'.buckets.Keys
    ensures ns.dynamicBucketCount == ns'.dynamicBucketCount
  {
    forall n | n in ns.buckets
      ensures ns.buckets[n].dynamic <==> ns'.buckets[n].dynamic
    {
      assert n in ns'.buckets;
      assert BucketOk(k, ns.cfg, n, ns.buckets[n]) && BucketOk(k, ns'.cfg, n, ns'.buckets[n]);
    }
    assert DynamicNames(ns) == DynamicNames(ns');
  }

  /** A name that is not there yet. */
  lemma MissingLookup(c: State, c': State, now: int, k: string, name: string)
    requires k in c.shelf.namespaces && k in c'.shelf.namespaces
    requires c.shelf.namespaces[k].cfg == c'.shelf.namespaces[k].cfg
    requires NamespaceOk(k, c.shelf.namespaces[k]) && NamespaceOk(k, c'.shelf.namespaces[k])
    requires name !in c.shelf.namespaces[k].buckets && c.shelf.namespaces[k].cfg.dynamicBucketTemplate.Some?
    requires
      if ReapableTemplate(c.shelf.namespaces[k].cfg) then c.shelf.namespaces[k].cfg.maxDynamicBuckets <= 0
      else c.shelf.namespaces[k].buckets.Keys == c'.shelf.namespaces[k].buckets.Keys
    ensures SameLookup(Find(c, now, k, name).1, Find(c', now, k, name).1)
  {
    var ns, ns' := c.shelf.namespaces[k], c'.shelf.namespaces[k];
    if !ReapableTemplate(ns.cfg) {
      SameCounts(k, ns, ns');
    }
    if name in ns'.buckets {
      assert BucketOk(k, ns'.cfg, name, ns'.buckets[name]);
    }
  }

  lemma CoveredLookup(v: Server, w: Server, now: int, k: string, name: string)
    requires Inv(v.c) && Inv(w.c) && LastingShelf(v.c.shelf) && w.c.shelf.cfg == v.c.shelf.cfg
    requires Covers(v.c.shelf, w.c.shelf)
    requires k in v.c.shelf.namespaces && k in w.c.shelf.namespaces
    requires name !in v.c.shelf.namespaces[k].buckets && v.c.shelf.namespaces[k].cfg.dynamicBucketTemplate.Some?
    ensures SameLookup(Find(v.c, now, k, name).1, Find(w.c, now, k, name).1)
  {
    var ns := v.c.shelf.namespaces[k];
    SameNamespaces(v.c, w.c);
    if ReapableTemplate(ns.cfg) {
      assert LastingNamespace(v.c.shelf.cfg.value.namespaces[k]);
    } else {
      forall n
        ensures n in ns.buckets <==> n in w.c.shelf.namespaces[k].buckets
      {
        CoveredNames(v.c.shelf, w.c.shelf, k, n);
      }
    }
    assert NamespaceOk(k, ns) && NamespaceOk(k, w.c.shelf.namespaces[k]);
    MissingLookup(v.c, w.c, now, k, name);
  }

  /** What a lookup returns when it makes nothing. */
  lemma FindAtPlace(c: State, now: int, k: string, name: string)
    ensures k !in c.shelf.namespaces ==> Find(c, now, k, name).1 == FoundIfAny(BucketAt(c.shelf, GlobalDefault))
    ensures k in c.shelf.namespaces && name in c.shelf.namespaces[k].buckets ==>
      Find(c, now, k, name).1 == FoundIfAny(BucketAt(c.shelf, Named(k, name)))
    ensures k in c.shelf.namespaces && name !in c.shelf.namespaces[k].buckets &&
            c.shelf.namespaces[k].cfg.dynamicBucketTemplate.None? ==>
      Find(c, now, k, name).1 == FoundIfAny(BucketAt(c.shelf, NamespaceDefault(k)))
  {
  }

  /** With and without a reaper every lookup is answered alike. */
  lemma LookupsAgree(v: Server, w: Server, e: Event)
    requires Inv(v.c) && Inv(w.c) && AllAgree(v, w) && LastingShelf(v.c.shelf) && e.Lookup?
    ensures SameLookup(Find(v.c, e.now, e.ns, e.name).1, Find(w.c, e.now, e.ns, e.name).1)
  {
    AllCovered(v, w);
    SameNamespaces(v.c, w.c);
    var k, name := e.ns, e.name;
    if k in v.c.shelf.namespaces && name !in v.c.shelf.namespaces[k].buckets &&
       v.c.shelf.namespaces[k].cfg.dynamicBucketTemplate.Some? {
      CoveredLookup(v, w, e.now, k, name);
    } else {
      SamePlace(v.c.shelf, w.c.shelf, k, name);
      SameAtPlace(v.c, w.c, PlainPlace(v.c.shelf, k, name));
      FindAtPlace(v.c, e.now, k, name);
      FindAtPlace(w.c, e.now, k, name);
    }
  }

  /** The place a lookup looks at when it makes nothing. */
  function PlainPlace(h: Shelf, k: string, name: string): Slot {
    if k !in h.namespaces then GlobalDefault
    else if name in h.namespaces[k].buckets then Named(k, name)
    else NamespaceDefault(k)
  }

  lemma SamePlace(h: Shelf, h': Shelf, k: string, name: string)
    requires Covers(h, h') && (k in h.namespaces <==> k in h'.namespaces)
    requires k in h.namespaces && name !in h.namespaces[k].buckets ==> h.namespaces[k].cfg.dynamicBucketTemplate.None?
    ensures
      var slot := PlainPlace(h, k, name);
      slot == PlainPlace(h', k, name) && (slot.Named? ==> BucketAt(h, slot).Some? && BucketAt(h', slot).Some?)
  {
    if k in h.namespaces {
      CoveredNames(h, h', k, name);
    }
  }

  lemma SameAtPlace(c: State, c': State, slot: Slot)
    requires Inv(c) && Inv(c') && c.shelf.cfg == c'.shelf.cfg
    requires slot.Named? ==> BucketAt(c.shelf, slot).Some? && BucketAt(c'.shelf, slot).Some?
    ensures SameLookup(FoundIfAny(BucketAt(c.shelf, slot)), FoundIfAny(BucketAt(c'.shelf, slot)))
  {
    if slot.Named? {
      SameBucket(c, c', slot);
    } else {
      SameDefaults(c, c', slot);
    }
  }

  // ---- Each step keeps agreement --------------------------------------------------------------------

  /** What a visit finds is the state of the place, made first if need be. */
  lemma HeldIsStateAt(v: Server, e: Event)
    requires Inv(v.c) && Visited(v.c, e).Some? && (forall id :: id in v.tokens ==> id.epoch < v.c.epoch)
    ensures
      var b := Visited(v.c, e).value;
      && Stands(v.c, Step(v.c, e), b, e.now)
      && forall l :: Held(v.tokens, b.id, l) == StateAt(v, b.id.slot, l)
  {
    AllPlaced(v.c, e.ns, e.name);
    FoundIsInstalled(v.c, e);
  }

  /** Before a visit the two states are alike, even if the bucket has to be made first. */
  lemma AlikeBeforeVisit(v: Server, w: Server, e: Event, b: Bucket)
    requires Inv(v.c) && AllAgree(v, w) && Legal(v.c, e) && ConfigAt(v.c.shelf, b.id.slot) == Some(b.cfg)
    requires BucketAt(v.c.shelf, b.id.slot) == Some(b) || BucketAt(v.c.shelf, b.id.slot) == None
    ensures
      var l := LimitsFor(b.cfg);
      var r := StateAt(v, b.id.slot, l);
      Alike(l, StateAt(w, b.id.slot, l), r, v.c.now) && (b.Watched() ==> r.tna <= e.now + HorizonOf(b.cfg))
  {
    var l := LimitsFor(b.cfg);
    E.HorizonIsNatural(l, A.CallersOf(b.cfg));
    assert Agrees(v, w, b.id.slot);
    if BucketAt(v.c.shelf, b.id.slot) == None {
      FreshIsFull(l, v.c.now);
    } else if b.Watched() {
      assert WatchedId(v.c.shelf, b.id) && b.id in v.c.signals;
    }
  }

  /** A visited place, on one side. */
  lemma AfterVisit(v: Server, e: Event, a: A.Ask)
    requires Inv(v.c) && Legal(v.c, e) && Visited(v.c, e).Some?
    requires (forall id :: id in v.tokens ==> id.epoch < v.c.epoch)
    requires T.Usable(Visited(v.c, e).value.cfg)
    ensures
      var b := Visited(v.c, e).value;
      var l := LimitsFor(b.cfg);
      && BucketAt(Serve(v, e, a).c.shelf, b.id.slot) == Some(b)
      && StateAt(Serve(v, e, a), b.id.slot, l) == A.Settled(b.cfg, StateAt(v, b.id.slot, l), e.now, a)
  {
    HeldIsStateAt(v, e);
  }

  lemma VisitedConfig(c: State, e: Event)
    requires Inv(c) && Legal(c, e) && Visited(c, e).Some?
    ensures
      var b := Visited(c, e).value;
      ConfigAt(c.shelf, b.id.slot) == Some(b.cfg) && ConfigAt(Step(c, e).shelf, b.id.slot) == Some(b.cfg) &&
        b.id.epoch <= c.epoch
  {
    var b := Visited(c, e).value;
    StepKeepsInv(c, e);
    StepAdvances(c, e);
    AllPlaced(c, e.ns, e.name);
    FoundIsInstalled(c, e);
    BucketsFollowConfig(Step(c, e), b.id.slot);
    LookupKeepsConfigs(c, e, b.id.slot);
  }

  lemma VisitAgrees(v: Server, w: Server, e: Event, a: A.Ask)
    requires Inv(v.c) && Inv(w.c) && AllAgree(v, w) && Legal(v.c, e) && LastingShelf(v.c.shelf) && Visited(v.c, e).Some?
    requires Visited(w.c, e).Some? && SameLookup(Found(Visited(v.c, e).value), Found(Visited(w.c, e).value))
    ensures Reply(v, e, a) == Reply(w, e, a)
    ensures
      var slot := Visited(v.c, e).value.id.slot;
      ConfigAt(Step(v.c, e).shelf, slot).Some? && Agrees(Serve(v, e, a), Serve(w, e, a), slot)
  {
    var b, d := Visited(v.c, e).value, Visited(w.c, e).value;
    var l, slot := LimitsFor(b.cfg), b.id.slot;
    VisitedConfig(v.c, e);
    GovernedIsUsable(v.c, slot);
    HeldIsStateAt(v, e);
    HeldIsStateAt(w, e);
    AlikeBeforeVisit(v, w, e, b);
    TakeAlike(b.cfg, StateAt(w, slot, l), StateAt(v, slot, l), v.c.now, e.now, a);
    AfterVisit(v, e, a);
    AfterVisit(w, e, a);
    StepAdvances(v.c, e);
  }

  /** Time alone changes nothing. */
  lemma AgreesLater(cfg: BucketConfig, s: T.State, b: Option<Bucket>, r: T.State, reported: map<BucketId, int>,
                    reported': map<BucketId, int>, now: int, now': int)
    requires AgreesAt(cfg, s, b, r, reported, now) && now <= now'
    requires b.Some? && b.value.id in reported ==>
      b.value.id in reported' && reported'[b.value.id] == reported[b.value.id]
    ensures AgreesAt(cfg, s, b, r, reported', now')
  {
    if b.None? {
      E.FullRefill(LimitsFor(cfg), s, now, now');
    } else {
      AlikeLater(LimitsFor(cfg), s, r, now, now');
    }
  }

  /** A step leaves a place alone. */
  ghost predicate LeavesAlone(v: Server, v': Server, slot: Slot) {
    && BucketAt(v'.c.shelf, slot) == BucketAt(v.c.shelf, slot)
    && (forall id: BucketId :: id.slot == slot ==> (id in v'.tokens <==> id in v.tokens))
    && (forall id: BucketId :: id.slot == slot && id in v.tokens ==> v'.tokens[id] == v.tokens[id])
    && (forall id: BucketId :: id.slot == slot && id in v.c.reported ==>
          id in v'.c.reported && v'.c.reported[id] == v.c.reported[id])
  }

  /** The bucket that stands at a place was made for it. */
  ghost predicate Proper(v: Server, slot: Slot) {
    BucketAt(v.c.shelf, slot).Some? ==> BucketAt(v.c.shelf, slot).value.id.slot == slot
  }

  lemma BothProper(v: Server, w: Server, slot: Slot)
    requires Inv(v.c) && Inv(w.c)
    ensures Proper(v, slot) && Proper(w, slot)
  {
    if BucketAt(v.c.shelf, slot).Some? {
      BucketsFollowConfig(v.c, slot);
    }
    if BucketAt(w.c.shelf, slot).Some? {
      BucketsFollowConfig(w.c, slot);
    }
  }

  lemma AloneKeepsState(v: Server, v': Server, slot: Slot, l: T.Limits)
    requires LeavesAlone(v, v', slot) && Proper(v, slot)
    ensures StateAt(v', slot, l) == StateAt(v, slot, l)
  {
  }

  lemma UntouchedAgrees(v: Server, w: Server, v': Server, w': Server, slot: Slot)
    requires ConfigAt(v.c.shelf, slot).Some? && Agrees(v, w, slot) && v.c.now <= v'.c.now && Proper(v, slot)
    requires Proper(w, slot)
    requires ConfigAt(v'.c.shelf, slot) == ConfigAt(v.c.shelf, slot)
    requires LeavesAlone(v, v', slot) && LeavesAlone(w, w', slot)
    requires ReapablePlace(v.c.shelf, slot) ==> ReapablePlace(v'.c.shelf, slot)
    ensures Agrees(v', w', slot)
  {
    var cfg := ConfigAt(v.c.shelf, slot).value;
    var l, b := LimitsFor(cfg), BucketAt(v.c.shelf, slot);
    AloneKeepsState(v, v', slot, l);
    AloneKeepsState(w, w', slot, l);
    AgreesLater(cfg, StateAt(w, slot, l), b, StateAt(v, slot, l), v.c.reported, v'.c.reported, v.c.now, v'.c.now);
  }

  lemma StepLeavesAlone(v: Server, e: Event, a: A.Ask, slot: Slot)
    requires e.Registration? || (e.Update? && (Accepts(v.c.shelf, e.cfg) ==> KeepsSlot(v.c.shelf, e.cfg, slot)))
    ensures LeavesAlone(v, Serve(v, e, a), slot)
    ensures ConfigAt(Step(v.c, e).shelf, slot) == ConfigAt(v.c.shelf, slot)
    ensures ReapablePlace(v.c.shelf, slot) ==> ReapablePlace(Step(v.c, e).shelf, slot)
  {
    if e.Update? && Accepts(v.c.shelf, e.cfg) {
      RestockPlaces(v.c.shelf, v.c.epoch, e.cfg, slot);
      RestockKeepsConfig(v.c.shelf, v.c.epoch, e.cfg, slot);
      RestockKeepsReapable(v.c.shelf, v.c.epoch, e.cfg, slot);
    }
  }

  lemma LookupLeavesAlone(v: Server, e: Event, a: A.Ask, slot: Slot)
    requires Inv(v.c) && e.Lookup? && (Visited(v.c, e).Some? ==> Visited(v.c, e).value.id.slot != slot)
    ensures LeavesAlone(v, Serve(v, e, a), slot)
  {
    AllPlaced(v.c, e.ns, e.name);
    OthersUnvisited(v.c, e, slot);
  }

  lemma LookupKeepsReapable(c: State, e: Event, slot: Slot)
    requires e.Lookup?
    ensures ReapablePlace(c.shelf, slot) ==> ReapablePlace(Step(c, e).shelf, slot)
  {
  }

  lemma LookupAgrees(v: Server, w: Server, e: Event, a: A.Ask, slot: Slot)
    requires Inv(v.c) && Inv(w.c) && AllAgree(v, w) && Legal(v.c, e) && LastingShelf(v.c.shelf) && e.Lookup?
    requires ConfigAt(Step(v.c, e).shelf, slot).Some?
    ensures Agrees(Serve(v, e, a), Serve(w, e, a), slot)
  {
    LookupsAgree(v, w, e);
    if Visited(v.c, e).Some? && Visited(v.c, e).value.id.slot == slot {
      VisitAgrees(v, w, e, a);
    } else {
      LookupKeepsConfigs(v.c, e, slot);
      LookupKeepsReapable(v.c, e, slot);
      LookupLeavesAlone(v, e, a, slot);
      LookupLeavesAlone(w, e, a, slot);
      StepAdvances(v.c, e);
      BothProper(v, w, slot);
      UntouchedAgrees(v, w, Serve(v, e, a), Serve(w, e, a), slot);
    }
  }

  lemma CheckKeepsConfigs(c: State, now: int, key: string, slot: Slot)
    ensures ConfigAt(Reap(c, now, key).shelf, slot) == ConfigAt(c.shelf, slot)
  {
    match slot
    case GlobalDefault =>
    case NamespaceDefault(_) =>
    case Named(_, _) =>
  }

  /** At a check a place keeps its bucket, or loses it after more than its idle limit. */
  lemma CheckAtSlot(c: State, e: Event, slot: Slot)
    requires Inv(c) && Legal(c, e) && e.Check?
    ensures
      var b, b' := BucketAt(c.shelf, slot), BucketAt(Step(c, e).shelf, slot);
      || b' == b
      || (b' == None && b.Some? && b.value.Watched() && b.value.id in c.reported &&
            e.now - c.reported[b.value.id] > b.value.cfg.maxIdleMillis * 1_000_000)
  {
    var c' := Step(c, e);
    var b, b' := BucketAt(c.shelf, slot), BucketAt(c'.shelf, slot);
    StepKeepsInv(c, e);
    CheckBearsNone(c, e.now, e.key);
    if b'.Some? {
      BucketsFollowConfig(c', slot);
      assert Installed(c.shelf, b'.value.id);
      BucketStays(c, e, b'.value.id);
    } else if b.Some? {
      BucketsFollowConfig(c, slot);
      assert !Installed(c'.shelf, b.value.id);
      DeathsAreJustified(c, e, b.value.id);
    }
  }

  lemma CheckKeepsReapable(c: State, now: int, key: string, slot: Slot)
    ensures ReapablePlace(Reap(c, now, key).shelf, slot) <==> ReapablePlace(c.shelf, slot)
  {
  }

  lemma WatchedIsLasting(c: State, slot: Slot)
    requires Inv(c) && LastingShelf(c.shelf) && BucketAt(c.shelf, slot).Some? && BucketAt(c.shelf, slot).value.Watched()
    ensures LastingTemplate(BucketAt(c.shelf, slot).value.cfg) && ReapablePlace(c.shelf, slot)
  {
    DefaultsAreUnwatched(c);
    if slot.Named? {
      var k, b := slot.ns, BucketAt(c.shelf, slot).value;
      assert NamespaceOk(k, c.shelf.namespaces[k]);
      assert BucketOk(k, c.shelf.namespaces[k].cfg, slot.name, b);
      assert LastingNamespace(c.shelf.cfg.value.namespaces[k]);
    }
  }

  lemma CheckAgrees(v: Server, w: Server, e: Event, a: A.Ask, slot: Slot)
    requires Inv(v.c) && Inv(w.c) && AllAgree(v, w) && Legal(v.c, e) && e.Check? && LastingShelf(v.c.shelf)
    requires ConfigAt(Step(v.c, e).shelf, slot).Some?
    ensures Agrees(Serve(v, e, a), w, slot)
  {
    var c, c' := v.c, Step(v.c, e);
    CheckKeepsConfigs(c, e.now, e.key, slot);
    CheckKeepsReapable(c, e.now, e.key, slot);
    CheckBearsNone(c, e.now, e.key);
    CheckAtSlot(c, e, slot);
    StepAdvances(c, e);
    if BucketAt(c'.shelf, slot) == BucketAt(c.shelf, slot) {
      BothProper(v, w, slot);
      assert Agrees(v, w, slot);
      SparedAgrees(v, w, e, a, slot);
    } else {
      ReapedAgrees(v, w, e, a, slot);
    }
  }

  lemma SparedAgrees(v: Server, w: Server, e: Event, a: A.Ask, slot: Slot)
    requires e.Check? && v.c.now <= e.now && Proper(v, slot) && Proper(w, slot)
    requires ConfigAt(v.c.shelf, slot).Some? && Agrees(v, w, slot)
    requires ConfigAt(Step(v.c, e).shelf, slot) == ConfigAt(v.c.shelf, slot) && Step(v.c, e).reported == v.c.reported
    requires BucketAt(Step(v.c, e).shelf, slot) == BucketAt(v.c.shelf, slot)
    requires ReapablePlace(Step(v.c, e).shelf, slot) <==> ReapablePlace(v.c.shelf, slot)
    ensures Agrees(Serve(v, e, a), w, slot)
  {
    StepAdvances(v.c, e);
    UntouchedAgrees(v, w, Serve(v, e, a), w, slot);
  }

  lemma ReapedAgrees(v: Server, w: Server, e: Event, a: A.Ask, slot: Slot)
    requires Inv(v.c) && AllAgree(v, w) && Legal(v.c, e) && e.Check? && LastingShelf(v.c.shelf)
    requires ConfigAt(Step(v.c, e).shelf, slot) == ConfigAt(v.c.shelf, slot) && ConfigAt(v.c.shelf, slot).Some?
    requires ReapablePlace(Step(v.c, e).shelf, slot) <==> ReapablePlace(v.c.shelf, slot)
    requires BucketAt(Step(v.c, e).shelf, slot) == None && BucketAt(v.c.shelf, slot).Some?
    requires
      var b := BucketAt(v.c.shelf, slot).value;
      b.Watched() && b.id in v.c.reported && e.now - v.c.reported[b.id] > b.cfg.maxIdleMillis * 1_000_000
    ensures Agrees(Serve(v, e, a), w, slot)
  {
    var b := BucketAt(v.c.shelf, slot).value;
    WatchedIsLasting(v.c, slot);
    BucketsFollowConfig(v.c, slot);
    StepAdvances(v.c, e);
    assert Agrees(v, w, slot);
    var l := LimitsFor(b.cfg);
    AlikeLater(l, StateAt(w, slot, l), StateAt(v, slot, l), v.c.now, e.now);
    ReapedIsFull(b.cfg, StateAt(w, slot, l), StateAt(v, slot, l), v.c.reported[b.id], e.now);
  }

  lemma RestockKeepsConfig(h: Shelf, epoch: nat, sc: ServiceConfig, slot: Slot)
    requires KeepsSlot(h, sc, slot)
    ensures ConfigAt(Restock(h, epoch, sc), slot) == ConfigAt(h, slot)
  {
    match slot
    case GlobalDefault =>
    case NamespaceDefault(_) =>
    case Named(_, _) =>
  }

  /** Both servers keep the same places. */
  lemma SameKeeps(c: State, c': State, sc: ServiceConfig, slot: Slot)
    requires Inv(c) && Inv(c') && c.shelf.cfg == c'.shelf.cfg
    ensures KeepsSlot(c.shelf, sc, slot) <==> KeepsSlot(c'.shelf, sc, slot)
  {
    SameNamespaces(c, c');
    ConfigGoverns(c, GlobalDefault);
    ConfigGoverns(c', GlobalDefault);
  }

  lemma RestockKeepsReapable(h: Shelf, epoch: nat, sc: ServiceConfig, slot: Slot)
    requires KeepsSlot(h, sc, slot)
    ensures ReapablePlace(Restock(h, epoch, sc), slot) <==> ReapablePlace(h, slot)
  {
  }

  lemma QuietAgrees(v: Server, w: Server, e: Event, a: A.Ask, slot: Slot)
    requires Inv(v.c) && Inv(w.c) && Legal(v.c, e) && ConfigAt(v.c.shelf, slot).Some? && Agrees(v, w, slot)
    requires e.Registration? || (e.Update? && (Accepts(v.c.shelf, e.cfg) ==> KeepsSlot(v.c.shelf, e.cfg, slot)))
    requires e.Registration? || (e.Update? && (Accepts(w.c.shelf, e.cfg) ==> KeepsSlot(w.c.shelf, e.cfg, slot)))
    requires ConfigAt(Step(v.c, e).shelf, slot).Some?
    ensures Agrees(Serve(v, e, a), Serve(w, e, a), slot)
  {
    StepAdvances(v.c, e);
    StepLeavesAlone(v, e, a, slot);
    StepLeavesAlone(w, e, a, slot);
    BothProper(v, w, slot);
    UntouchedAgrees(v, w, Serve(v, e, a), Serve(w, e, a), slot);
  }

  lemma UpdateAgrees(v: Server, w: Server, e: Event, a: A.Ask, slot: Slot)
    requires Inv(v.c) && Inv(w.c) && AllAgree(v, w) && Legal(v.c, e) && e.Update?
    requires ConfigAt(Step(v.c, e).shelf, slot).Some?
    ensures Agrees(Serve(v, e, a), Serve(w, e, a), slot)
  {
    SameKeeps(v.c, w.c, e.cfg, slot);
    if Accepts(v.c.shelf, e.cfg) && !KeepsSlot(v.c.shelf, e.cfg, slot) {
      AnewAgrees(v, w, e, a, slot);
    } else {
      StepLeavesAlone(v, e, a, slot);
      QuietAgrees(v, w, e, a, slot);
    }
  }

  /** What a reconfiguration makes anew starts full on both sides. */
  lemma AnewAgrees(v: Server, w: Server, e: Event, a: A.Ask, slot: Slot)
    requires AllAgree(v, w) && Legal(v.c, e) && e.Update? && Accepts(v.c.shelf, e.cfg)
    requires ConfigAt(Step(v.c, e).shelf, slot).Some?
    requires !KeepsSlot(v.c.shelf, e.cfg, slot) && !KeepsSlot(w.c.shelf, e.cfg, slot)
    ensures Agrees(Serve(v, e, a), Serve(w, e, a), slot)
  {
    RestockPlaces(v.c.shelf, v.c.epoch, e.cfg, slot);
    RestockPlaces(w.c.shelf, w.c.epoch, e.cfg, slot);
    FreshIsFull(LimitsFor(ConfigAt(Step(v.c, e).shelf, slot).value), e.now);
  }

  lemma RegistrationAgrees(v: Server, w: Server, e: Event, a: A.Ask, slot: Slot)
    requires Inv(v.c) && Inv(w.c) && AllAgree(v, w) && Legal(v.c, e) && e.Registration?
    requires ConfigAt(Step(v.c, e).shelf, slot).Some?
    ensures Agrees(Serve(v, e, a), Serve(w, e, a), slot)
  {
    StepLeavesAlone(v, e, a, slot);
    QuietAgrees(v, w, e, a, slot);
  }

  lemma ServedAgrees(v: Server, w: Server, e: Event, a: A.Ask, slot: Slot)
    requires Inv(v.c) && Inv(w.c) && AllAgree(v, w) && Legal(v.c, e) && LastingShelf(v.c.shelf) && !e.Check?
    requires ConfigAt(Step(v.c, e).shelf, slot).Some?
    ensures Agrees(Serve(v, e, a), Serve(w, e, a), slot)
  {
    match e
    case Lookup(_, _, _) => LookupAgrees(v, w, e, a, slot);
    case Update(_, _) => UpdateAgrees(v, w, e, a, slot);
    case Registration(_) => RegistrationAgrees(v, w, e, a, slot);
  }

  lemma StepAgrees(v: Server, w: Server, e: Event, a: A.Ask, slot: Slot)
    requires Inv(v.c) && Inv(w.c) && AllAgree(v, w) && Legal(v.c, e) && LastingShelf(v.c.shelf)
    requires ConfigAt(Step(v.c, e).shelf, slot).Some?
    ensures Agrees(Serve(v, e, a), ServeStep(w, e, a, false), slot)
  {
    if e.Check? {
      CheckAgrees(v, w, e, a, slot);
    } else {
      ServedAgrees(v, w, e, a, slot);
    }
  }

  lemma TokensAreOld(v: Server, e: Event, a: A.Ask)
    requires Inv(v.c) && Legal(v.c, e) && (forall id :: id in v.tokens ==> id.epoch < v.c.epoch)
    ensures forall id :: id in Serve(v, e, a).tokens ==> id.epoch < Step(v.c, e).epoch
  {
    StepAdvances(v.c, e);
    if Visited(v.c, e).Some? {
      VisitedConfig(v.c, e);
    }
  }

  lemma UnreapedIsLegal(v: Server, w: Server, e: Event, a: A.Ask)
    requires Inv(v.c) && Inv(w.c) && AllAgree(v, w) && Legal(v.c, e)
    ensures Inv(ServeStep(w, e, a, false).c) && ServeStep(w, e, a, false).c.now <= Step(v.c, e).now
    ensures ServeStep(w, e, a, false).c.shelf.cfg == Step(v.c, e).shelf.cfg
    ensures forall id :: id in ServeStep(w, e, a, false).tokens ==> id.epoch < ServeStep(w, e, a, false).c.epoch
  {
    StepAdvances(v.c, e);
    VersionsIncrease(v.c, e);
    if !e.Check? {
      StepKeepsInv(w.c, e);
      StepAdvances(w.c, e);
      VersionsIncrease(w.c, e);
      TokensAreOld(w, e, a);
    }
  }

  lemma RepliesAgree(v: Server, w: Server, e: Event, a: A.Ask)
    requires Inv(v.c) && Inv(w.c) && AllAgree(v, w) && Legal(v.c, e) && LastingShelf(v.c.shelf)
    ensures Reply(v, e, a) == Reply(w, e, a)
  {
    if e.Lookup? {
      LookupsAgree(v, w, e);
      if Visited(v.c, e).Some? {
        VisitAgrees(v, w, e, a);
      }
    }
  }

  lemma PlacesAgree(v: Server, w: Server, e: Event, a: A.Ask)
    requires Inv(v.c) && Inv(w.c) && AllAgree(v, w) && Legal(v.c, e) && LastingShelf(v.c.shelf)
    ensures forall slot :: ConfigAt(Step(v.c, e).shelf, slot).Some? ==>
      Agrees(Serve(v, e, a), ServeStep(w, e, a, false), slot)
  {
    forall slot | ConfigAt(Step(v.c, e).shelf, slot).Some?
      ensures Agrees(Serve(v, e, a), ServeStep(w, e, a, false), slot)
    {
      StepAgrees(v, w, e, a, slot);
    }
  }

  lemma Assemble(v: Server, w: Server)
    requires w.c.shelf.cfg == v.c.shelf.cfg && w.c.now <= v.c.now && 0 <= v.c.now
    requires forall slot :: ConfigAt(v.c.shelf, slot).Some? ==> Agrees(v, w, slot)
    requires forall id :: id in v.tokens ==> id.epoch < v.c.epoch
    requires forall id :: id in w.tokens ==> id.epoch < w.c.epoch
    ensures AllAgree(v, w)
  {
  }

  lemma ServeAgrees(v: Server, w: Server, e: Event, a: A.Ask)
    requires Inv(v.c) && Inv(w.c) && AllAgree(v, w) && Legal(v.c, e) && LastingShelf(v.c.shelf)
    requires e.Update? ==> Lasting(e.cfg) && UsableConfig(e.cfg)
    ensures AllAgree(Serve(v, e, a), ServeStep(w, e, a, false)) && LastingShelf(Step(v.c, e).shelf)
  {
    StepAdvances(v.c, e);
    VersionsIncrease(v.c, e);
    TokensAreOld(v, e, a);
    UnreapedIsLegal(v, w, e, a);
    PlacesAgree(v, w, e, a);
    Assemble(Serve(v, e, a), ServeStep(w, e, a, false));
  }

  lemma StartedAgree()
    ensures Inv(INITIAL) && AllAgree(STARTED, STARTED) && LastingShelf(INITIAL.shelf)
  {
    InitialInv();
    forall slot
      ensures ConfigAt(INITIAL.shelf, slot) == None
    {
      match slot
      case GlobalDefault =>
      case NamespaceDefault(_) =>
      case Named(_, _) =>
    }
  }

  lemma {:induction false} RunsAgree(es: seq<Event>, asks: seq<A.Ask>)
    requires |es| == |asks| && LegalRun(INITIAL, es)
    requires forall i :: 0 <= i < |es| && es[i].Update? ==> Lasting(es[i].cfg) && UsableConfig(es[i].cfg)
    ensures
      var v, w := ServeAll(STARTED, es, asks, true), ServeAll(STARTED, es, asks, false);
      v.c == Run(INITIAL, es) && Inv(v.c) && Inv(w.c) && AllAgree(v, w) && LastingShelf(v.c.shelf)
  {
    if es == [] {
      StartedAgree();
    } else {
      var n := |es| - 1;
      var v, w := ServeAll(STARTED, es[..n], asks[..n], true), ServeAll(STARTED, es[..n], asks[..n], false);
      LegalPrefix(INITIAL, es, n);
      RunsAgree(es[..n], asks[..n]);
      assert Legal(v.c, es[n]);
      StepKeepsInv(v.c, es[n]);
      UnreapedIsLegal(v, w, es[n], asks[n]);
      ServeAgrees(v, w, es[n], asks[n]);
    }
  }

  /** The i-th client of a run is told what it would be told without a reaper. */
  ghost predicate ToldAlike(es: seq<Event>, asks: seq<A.Ask>, i: nat)
    requires i < |es| == |asks|
  {
    Reply(ServeAll(STARTED, es[..i], asks[..i], true), es[i], asks[i]) ==
    Reply(ServeAll(STARTED, es[..i], asks[..i], false), es[i], asks[i])
  }

  /** Reaping is invisible: in every run from start-up, with whatever lookups, requests,
      reconfigurations and checks, if every configuration is lasting then every client is
      told what it would be told without a reaper. */
  lemma {:induction false} ReapingIsInvisible(es: seq<Event>, asks: seq<A.Ask>, i: nat)
    requires i < |es| == |asks| && LegalRun(INITIAL, es)
    requires forall j :: 0 <= j < |es| && es[j].Update? ==> Lasting(es[j].cfg) && UsableConfig(es[j].cfg)
    ensures ToldAlike(es, asks, i)
  {
    LegalPrefix(INITIAL, es, i);
    RunsAgree(es[..i], asks[..i]);
    assert Legal(Run(INITIAL, es[..i]), es[i]);
    RepliesAgree(ServeAll(STARTED, es[..i], asks[..i], true), ServeAll(STARTED, es[..i], asks[..i], false), es[i],
      asks[i]);
  }
}
