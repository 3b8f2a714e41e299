// The bucket container, its reaper and live reconfiguration as atomic steps on
// values (bucket.go, reaper.go, server.go:229-309).
//
// A bucket's identity is the step that created it together with the place it was
// created for, so the model does not depend on the order in which Go ranges over
// maps. A bucket's activity channel is an entry of `signals`: present while the
// channel is open, true while it holds a token.
module Container {
  import opened Prelude
  import opened Config

  // ---- Data -------------------------------------------------------------------

  datatype Slot = GlobalDefault | NamespaceDefault(ns: string) | Named(ns: string, name: string)

  datatype BucketId = BucketId(epoch: nat, slot: Slot)

  datatype Bucket = Bucket(id: BucketId, cfg: BucketConfig, dynamic: bool) {
    /** Only dynamic buckets with an idle limit are wrapped for the reaper. */
    predicate Watched() {
      dynamic && cfg.maxIdleMillis > 0
    }
  }

  datatype Namespace = Namespace(
    cfg: NamespaceConfig,
    buckets: map<string, Bucket>,
    dynamicBucketCount: int,
    defaultBucket: Option<Bucket>)

  datatype Watcher = Watcher(id: BucketId, ns: string, name: string, maxIdle: int, lastActivity: int) {
    function Identifier(): string {
      FullyQualifiedName(ns, name)
    }
  }

  /** What lookups see. */
  datatype Shelf = Shelf(
    cfg: Option<ServiceConfig>,
    namespaces: map<string, Namespace>,
    defaultBucket: Option<Bucket>)

  /** The container: its shelf, the reaper's queue, watchers and channels, a step
      counter and a clock, and two records that the program does not keep: which
      buckets are alive (created and not destroyed) and when each one's activity
      was last reported. */
  datatype State = State(
    shelf: Shelf,
    queue: seq<Watcher>,
    watchers: map<string, Watcher>,
    signals: map<BucketId, bool>,
    live: set<BucketId>,
    reported: map<BucketId, int>,
    epoch: nat,
    now: int)

  datatype Lookup = Found(bucket: Bucket) | NoBucket | CapReached

  const INITIAL: State := State(Shelf(None, map[], None), [], map[], map[], {}, map[], 0, 0)

  function BucketAt(h: Shelf, slot: Slot): Option<Bucket> {
    match slot
    case GlobalDefault => h.defaultBucket
    case NamespaceDefault(k) => if k in h.namespaces then h.namespaces[k].defaultBucket else None
    case Named(k, n) =>
      if k in h.namespaces && n in h.namespaces[k].buckets then Some(h.namespaces[k].buckets[n]) else None
  }

  /** Reachable from the container. */
  predicate Installed(h: Shelf, id: BucketId) {
    BucketAt(h, id.slot).Some? && BucketAt(h, id.slot).value.id == id
  }

  function Advance(c: State, now: int): State {
    c.(epoch := c.epoch + 1, now := now)
  }

  // ---- Lookups ------------------------------------------------------------------

  /** A watched bucket puts a token in its channel; any other does nothing. */
  function Report(c: State, b: Bucket, now: int): State {
    if b.Watched() then c.(signals := c.signals[b.id := true], reported := c.reported[b.id := now]) else c
  }

  function WatcherFor(b: Bucket, ns: string, name: string): Watcher {
    Watcher(b.id, ns, name, b.cfg.maxIdleMillis * 1_000_000, 0)
  }

  function AddBucket(ns: Namespace, name: string, b: Bucket): Namespace {
    ns.(buckets := ns.buckets[name := b],
        dynamicBucketCount := ns.dynamicBucketCount + if b.dynamic then 1 else 0)
  }

  /** Puts a new bucket into a namespace, queueing a watcher if it is to be reaped,
      and reports its first activity. */
  function Install(c: State, k: string, name: string, b: Bucket, now: int): State
    requires k in c.shelf.namespaces
  {
    var h := c.shelf;
    var c' := c.(shelf := h.(namespaces := h.namespaces[k := AddBucket(h.namespaces[k], name, b)]),
                 live := c.live + {b.id},
                 queue := if b.Watched() then c.queue + [WatcherFor(b, k, name)] else c.queue);
    Report(c', b, now)
  }

  predicate AtCap(ns: Namespace) {
    ns.dynamicBucketCount >= ns.cfg.maxDynamicBuckets && ns.cfg.maxDynamicBuckets > 0
  }

  function NewNamed(epoch: nat, k: string, name: string, cfg: NamespaceConfig): Bucket
    requires cfg.dynamicBucketTemplate.Some?
  {
    var id := BucketId(epoch, Named(k, name));
    if name in cfg.buckets then Bucket(id, cfg.buckets[name], false)
    else Bucket(id, cfg.dynamicBucketTemplate.value, true)
  }

  function FoundIfAny(b: Option<Bucket>): Lookup {
    if b.Some? then Found(b.value) else NoBucket
  }

  function Find(c: State, now: int, k: string, name: string): (State, Lookup) {
    var c' := Advance(c, now);
    if k !in c.shelf.namespaces then
      (c', FoundIfAny(c.shelf.defaultBucket))
    else
      var ns := c.shelf.namespaces[k];
      if name in ns.buckets then
        (Report(c', ns.buckets[name], now), Found(ns.buckets[name]))
      else if ns.cfg.dynamicBucketTemplate.Some? then
        if name !in ns.cfg.buckets && AtCap(ns) then (c', CapReached)
        else
          var b := NewNamed(c.epoch, k, name, ns.cfg);
          (Install(c', k, name, b, now), Found(b))
      else
        (c', FoundIfAny(ns.defaultBucket))
  }

  // ---- The reaper -----------------------------------------------------------------

  /** The reaper takes one watcher off its queue. */
  function Register(c: State, now: int): State {
    var c' := Advance(c, now);
    if c.queue == [] then c'
    else
      var w := c.queue[0];
      c'.(watchers := c.watchers[w.Identifier() := w.(lastActivity := now)], queue := c.queue[1..])
  }

  /** A closed channel never blocks, so it always looks active. */
  predicate ActivityDetected(c: State, w: Watcher) {
    w.id in c.signals ==> c.signals[w.id]
  }

  predicate TooIdle(c: State, w: Watcher, now: int) {
    !ActivityDetected(c, w) && now - w.lastActivity > w.maxIdle
  }

  function DropBucket(ns: Namespace, name: string): Namespace
    requires name in ns.buckets
  {
    ns.(buckets := ns.buckets - {name},
        dynamicBucketCount := ns.dynamicBucketCount - if ns.buckets[name].dynamic then 1 else 0)
  }

  function RemoveBucket(c: State, k: string, name: string): State {
    var h := c.shelf;
    if k in h.namespaces && name in h.namespaces[k].buckets then
      var id := h.namespaces[k].buckets[name].id;
      c.(shelf := h.(namespaces := h.namespaces[k := DropBucket(h.namespaces[k], name)]),
         live := c.live - {id},
         signals := c.signals - {id})
    else c
  }

  /** The reaper looks at the watcher registered under `key`. */
  function Reap(c: State, now: int, key: string): State {
    var c' := Advance(c, now);
    if key !in c.watchers then c'
    else
      var w := c.watchers[key];
      if ActivityDetected(c, w) then
        c'.(watchers := c.watchers[key := w.(lastActivity := now)],
            signals := if w.id in c.signals then c.signals[w.id := false] else c.signals)
      else if now - w.lastActivity > w.maxIdle then
        if w.ns in c.shelf.namespaces then RemoveBucket(c', w.ns, w.name).(watchers := c.watchers - {key})
        else c'
      else c'
  }

  // ---- Reconfiguration --------------------------------------------------------------

  function NewBucket(epoch: nat, slot: Slot, cfg: BucketConfig): Bucket {
    Bucket(BucketId(epoch, slot), cfg, false)
  }

  function NewDefault(epoch: nat, slot: Slot, cfg: Option<BucketConfig>): Option<Bucket> {
    if cfg.None? then None else Some(NewBucket(epoch, slot, cfg.value))
  }

  function NewNamespace(epoch: nat, k: string, cfg: NamespaceConfig): Namespace {
    Namespace(
      cfg,
      map n | n in cfg.buckets :: NewBucket(epoch, Named(k, n), cfg.buckets[n]),
      0,
      NewDefault(epoch, NamespaceDefault(k), cfg.defaultBucket))
  }

  predicate KeepsNamespace(h: Shelf, sc: ServiceConfig, k: string) {
    k in h.namespaces && k in sc.namespaces && h.namespaces[k].cfg == sc.namespaces[k]
  }

  function ConfigOf(b: Option<Bucket>): Option<BucketConfig> {
    if b.None? then None else Some(b.value.cfg)
  }

  predicate KeepsGlobalDefault(h: Shelf, sc: ServiceConfig) {
    ConfigOf(h.defaultBucket) == sc.globalDefaultBucket
  }

  /** The buckets of a slot survive a reconfiguration. */
  predicate KeepsSlot(h: Shelf, sc: ServiceConfig, slot: Slot) {
    match slot
    case GlobalDefault => KeepsGlobalDefault(h, sc)
    case NamespaceDefault(k) => KeepsNamespace(h, sc, k)
    case Named(k, _) => KeepsNamespace(h, sc, k)
  }

  /** The statically configured places of a configuration. */
  function StaticSlots(sc: ServiceConfig): set<Slot> {
    (if sc.globalDefaultBucket.Some? then {GlobalDefault} else {}) +
    (set k | k in sc.namespaces && sc.namespaces[k].defaultBucket.Some? :: NamespaceDefault(k)) +
    (set k, n | k in sc.namespaces && n in sc.namespaces[k].buckets :: Named(k, n))
  }

  predicate Accepts(h: Shelf, sc: ServiceConfig) {
    h.cfg.None? || h.cfg.value.version < sc.version
  }

  /** The shelf after a configuration: whatever is unchanged is kept, everything
      else is made anew. */
  function Restock(h: Shelf, epoch: nat, sc: ServiceConfig): Shelf {
    Shelf(
      Some(sc),
      map k | k in sc.namespaces ::
        if KeepsNamespace(h, sc, k) then h.namespaces[k] else NewNamespace(epoch, k, sc.namespaces[k]),
      if KeepsGlobalDefault(h, sc) then h.defaultBucket
      else NewDefault(epoch, GlobalDefault, sc.globalDefaultBucket))
  }

  function Dead(h: Shelf, live: set<BucketId>, sc: ServiceConfig): set<BucketId> {
    set id | id in live && !KeepsSlot(h, sc, id.slot)
  }

  function Born(h: Shelf, epoch: nat, sc: ServiceConfig): set<BucketId> {
    set slot | slot in StaticSlots(sc) && !KeepsSlot(h, sc, slot) :: BucketId(epoch, slot)
  }

  /** Applies a configuration unless it is no newer than the current one; buckets
      that are not kept are destroyed, which closes their channels. */
  function Configure(c: State, now: int, sc: ServiceConfig): State {
    var c' := Advance(c, now);
    if !Accepts(c.shelf, sc) then c'
    else
      var dead := Dead(c.shelf, c.live, sc);
      c'.(shelf := Restock(c.shelf, c.epoch, sc),
          live := c.live - dead + Born(c.shelf, c.epoch, sc),
          signals := c.signals - dead)
  }

  // ---- Runs -----------------------------------------------------------------------

  datatype Event =
    | Lookup(now: int, ns: string, name: string)
    | Update(now: int, cfg: ServiceConfig)
    | Registration(now: int)
    | Check(now: int, key: string)

  function Step(c: State, e: Event): State {
    match e
    case Lookup(now, k, name) => Find(c, now, k, name).0
    case Update(now, sc) => Configure(c, now, sc)
    case Registration(now) => Register(c, now)
    case Check(now, key) => Reap(c, now, key)
  }

  function Run(c: State, es: seq<Event>): State {
    if es == [] then c else Step(Run(c, es[..|es| - 1]), es[|es| - 1])
  }

  ghost predicate Legal(c: State, e: Event) {
    c.now <= e.now && (e.Update? ==> Normalised(e.cfg))
  }

  /** The clock never runs backwards and configurations have had their defaults
      filled in. */
  ghost predicate LegalRun(c: State, es: seq<Event>) {
    forall i :: 0 <= i < |es| ==> Legal(Run(c, es[..i]), es[i])
  }

  // ---- Ticks of the reaper ------------------------------------------------------------

  /** A tick looks at the registered watchers one after the other. */
  function Checks(now: int, order: seq<string>): seq<Event> {
    seq(|order|, i requires 0 <= i < |order| => Check(now, order[i]))
  }

  /** The least of the minimum frequency and the idle limits of some watchers. */
  ghost predicate SleepOk(sleep: int, minFrequency: int, watchers: map<string, Watcher>, seen: set<string>)
    requires seen <= watchers.Keys
  {
    && sleep <= minFrequency
    && (forall key :: key in seen ==> sleep <= watchers[key].maxIdle)
    && (sleep == minFrequency || exists key :: key in seen && sleep == watchers[key].maxIdle)
  }
}
