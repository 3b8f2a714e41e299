// Hits and misses of dynamic buckets: the in-memory listener (stats/memory.go) is the
// specification of the batching Redis listener (stats/redis.go).
module Stats {
  datatype Kind = TokensServed | BucketMiss | OtherKind

  datatype Event = Event(kind: Kind, namespace: string, bucket: string, dynamic: bool, tokens: int)

  // ---- What the scores mean ----------------------------------------------------------

  function HitsOf(e: Event, ns: string, bucket: string): int {
    if e.dynamic && e.kind.TokensServed? && e.namespace == ns && e.bucket == bucket then e.tokens else 0
  }

  function MissesOf(e: Event, ns: string, bucket: string): int {
    if e.dynamic && e.kind.BucketMiss? && e.namespace == ns && e.bucket == bucket then 1 else 0
  }

  /** Tokens served by a dynamic bucket over a history of events. */
  function Hits(es: seq<Event>, ns: string, bucket: string): int {
    if es == [] then 0 else Hits(es[..|es| - 1], ns, bucket) + HitsOf(es[|es| - 1], ns, bucket)
  }

  /** Times a dynamic bucket could not be created. */
  function Misses(es: seq<Event>, ns: string, bucket: string): int {
    if es == [] then 0 else Misses(es[..|es| - 1], ns, bucket) + MissesOf(es[|es| - 1], ns, bucket)
  }

  lemma ScoresSnoc(es: seq<Event>, e: Event)
    ensures forall ns, bucket :: Hits(es + [e], ns, bucket) == Hits(es, ns, bucket) + HitsOf(e, ns, bucket)
    ensures forall ns, bucket :: Misses(es + [e], ns, bucket) == Misses(es, ns, bucket) + MissesOf(e, ns, bucket)
  {
    assert (es + [e])[..|es|] == es;
  }

  /** What one more event means: tokens served from a dynamic bucket raise its hits by
      their number, a dynamic bucket that could not be made raises its misses by one, and
      nothing else counts. */
  lemma EventsScoreExactly(es: seq<Event>, e: Event, ns: string, bucket: string)
    ensures Hits([], ns, bucket) == 0 && Misses([], ns, bucket) == 0
    ensures Hits(es + [e], ns, bucket) ==
      Hits(es, ns, bucket) + if e == Event(TokensServed, ns, bucket, true, e.tokens) then e.tokens else 0
    ensures Misses(es + [e], ns, bucket) ==
      Misses(es, ns, bucket) + if e == Event(BucketMiss, ns, bucket, true, e.tokens) then 1 else 0
  {
    ScoresSnoc(es, e);
  }

  // ---- The in-memory listener ------------------------------------------------------------

  datatype NamespaceStats = NamespaceStats(hits: map<string, int>, misses: map<string, int>)

  function Score(m: map<string, int>, bucket: string): int {
    if bucket in m then m[bucket] else 0
  }

  class MemoryListener {
    var namespaces: map<string, NamespaceStats>
    ghost var handled: seq<Event>

    ghost predicate Valid()
      reads this
    {
      && (forall ns, bucket ::
            Hits(handled, ns, bucket) == if ns in namespaces then Score(namespaces[ns].hits, bucket) else 0)
      && (forall ns, bucket ::
            Misses(handled, ns, bucket) == if ns in namespaces then Score(namespaces[ns].misses, bucket) else 0)
    }

    constructor ()
      ensures Valid() && handled == []
    {
      namespaces, handled := map[], [];
    }

    method HandleEvent(e: Event)
      requires Valid()
      modifies this
      ensures Valid() && handled == old(handled) + [e]
    {
      ScoresSnoc(handled, e);
      handled := handled + [e];
      if !e.dynamic {
        return;
      }
      if e.namespace !in namespaces {
        namespaces := namespaces[e.namespace := NamespaceStats(map[], map[])];
      }
      var stats := namespaces[e.namespace];
      match e.kind
      case BucketMiss =>
        var misses := stats.misses;
        if e.bucket !in misses {
          misses := misses[e.bucket := 0];
        }
        misses := misses[e.bucket := misses[e.bucket] + 1];
        namespaces := namespaces[e.namespace := stats.(misses := misses)];
      case TokensServed =>
        var hits := stats.hits;
        if e.bucket !in hits {
          hits := hits[e.bucket := 0];
        }
        hits := hits[e.bucket := hits[e.bucket] + e.tokens];
        namespaces := namespaces[e.namespace := stats.(hits := hits)];
      case OtherKind =>
    }

    method Get(ns: string, bucket: string) returns (hits: int, misses: int)
      requires Valid()
      ensures hits == Hits(handled, ns, bucket) && misses == Misses(handled, ns, bucket)
    {
      hits, misses := 0, 0;
      if ns in namespaces {
        if bucket in namespaces[ns].hits {
          hits := namespaces[ns].hits[bucket];
        }
        if bucket in namespaces[ns].misses {
          misses := namespaces[ns].misses[bucket];
        }
      }
    }
  }

  // ---- Updates to Redis ---------------------------------------------------------------------

  /** One increment of a sorted set: its key, the member and by how much. */
  datatype Update = Update(key: string, bucket: string, amount: int)

  function StatsKey(kind: string, ns: string): string {
    "stats:" + ns + ":" + kind
  }

  function UpdatesOf(e: Event): seq<Update> {
    if !e.dynamic then []
    else match e.kind
      case BucketMiss => [Update(StatsKey("misses", e.namespace), e.bucket, 1)]
      case TokensServed => [Update(StatsKey("hits", e.namespace), e.bucket, e.tokens)]
      case OtherKind => []
  }

  function Updates(es: seq<Event>): seq<Update> {
    if es == [] then [] else Updates(es[..|es| - 1]) + UpdatesOf(es[|es| - 1])
  }

  function Total(us: seq<Update>, key: string, bucket: string): int {
    if us == [] then 0
    else Total(us[..|us| - 1], key, bucket) + Contribution(us[|us| - 1], key, bucket)
  }

  function Contribution(u: Update, key: string, bucket: string): int {
    if u.key == key && u.bucket == bucket then u.amount else 0
  }

  lemma {:induction false} TotalConcat(a: seq<Update>, b: seq<Update>, key: string, bucket: string)
    ensures Total(a + b, key, bucket) == Total(a, key, bucket) + Total(b, key, bucket)
  {
    if b == [] {
      assert a + b == a;
    } else {
      TotalConcat(a, b[..|b| - 1], key, bucket);
      assert (a + b)[..|a + b| - 1] == a + b[..|b| - 1];
    }
  }

  /** The keys of two namespaces, or of hits and misses, never meet. */
  lemma KeysAreDistinct(ns: string, ns': string)
    ensures StatsKey("hits", ns) == StatsKey("hits", ns') ==> ns == ns'
    ensures StatsKey("misses", ns) == StatsKey("misses", ns') ==> ns == ns'
    ensures StatsKey("hits", ns) != StatsKey("misses", ns')
  {
    var h, h', m, m' := StatsKey("hits", ns), StatsKey("hits", ns'), StatsKey("misses", ns), StatsKey("misses", ns');
    assert h[6..|h| - 5] == ns && h'[6..|h'| - 5] == ns' && m[6..|m| - 7] == ns && m'[6..|m'| - 7] == ns';
    assert h[|h| - 5] == ':' && m'[|m'| - 5] == 'i';
  }

  /** What an event contributes to a key is what it means for the score. */
  lemma EventContribution(e: Event, ns: string, bucket: string)
    ensures Total(UpdatesOf(e), StatsKey("hits", ns), bucket) == HitsOf(e, ns, bucket)
    ensures Total(UpdatesOf(e), StatsKey("misses", ns), bucket) == MissesOf(e, ns, bucket)
  {
    KeysAreDistinct(e.namespace, ns);
    KeysAreDistinct(ns, e.namespace);
    if UpdatesOf(e) != [] {
      assert UpdatesOf(e)[..0] == [];
    }
  }

  lemma {:induction false} TotalsAreScores(es: seq<Event>, ns: string, bucket: string)
    ensures Total(Updates(es), StatsKey("hits", ns), bucket) == Hits(es, ns, bucket)
    ensures Total(Updates(es), StatsKey("misses", ns), bucket) == Misses(es, ns, bucket)
  {
    if es != [] {
      var n := |es| - 1;
      TotalsAreScores(es[..n], ns, bucket);
      EventContribution(es[n], ns, bucket);
      TotalConcat(Updates(es[..n]), UpdatesOf(es[n]), StatsKey("hits", ns), bucket);
      TotalConcat(Updates(es[..n]), UpdatesOf(es[n]), StatsKey("misses", ns), bucket);
    }
  }

  // ---- The batching listener as a protocol ------------------------------------------------------

  /** The batcher goroutine: in its select, about to check after a deadline or after a
      notification, or about to take the pipe. */
  datatype Batcher = Selecting | AtDeadline | Notified | Taking

  /** The listener, its batches on their way to Redis, and what Redis holds; `handled`
      and `shipped` record the events seen and the updates put into batches. */
  datatype Pipeline = Pipeline(
    pipe: seq<Update>,
    queued: int,
    slot: bool,
    notifying: nat,
    batcher: Batcher,
    inFlight: seq<seq<Update>>,
    store: map<(string, string), int>,
    handled: seq<Event>,
    shipped: seq<Update>)

  const EMPTY: Pipeline := Pipeline([], 0, false, 0, Selecting, [], map[], [], [])

  datatype Action =
    | Handle(event: Event)
    | NotifyBatcher
    | Deadline
    | Receive
    | Check
    | TakePipe
    | Execute(batch: nat)

  predicate Enabled(p: Pipeline, a: Action) {
    match a
    case Handle(_) => true
    case NotifyBatcher => p.notifying > 0
    case Deadline => p.batcher.Selecting?
    case Receive => p.batcher.Selecting? && p.slot
    case Check => p.batcher.AtDeadline? || p.batcher.Notified?
    case TakePipe => p.batcher.Taking?
    case Execute(i) => i < |p.inFlight|
  }

  function Stored(store: map<(string, string), int>, key: string, bucket: string): int {
    if (key, bucket) in store then store[(key, bucket)] else 0
  }

  function Increment(store: map<(string, string), int>, u: Update): map<(string, string), int> {
    store[(u.key, u.bucket) := Stored(store, u.key, u.bucket) + u.amount]
  }

  /** The first command of a batch reaches Redis; commands of different batches may
      interleave in any way. */
  function ExecuteOne(p: Pipeline, i: nat): Pipeline
    requires i < |p.inFlight|
  {
    var b := p.inFlight[i];
    if b == [] then p.(inFlight := p.inFlight[..i] + p.inFlight[i + 1..])
    else p.(store := Increment(p.store, b[0]), inFlight := p.inFlight[i := b[1..]])
  }

  function Do(p: Pipeline, batchSize: int, a: Action): Pipeline
    requires Enabled(p, a)
  {
    match a
    case Handle(e) =>
      var us := UpdatesOf(e);
      p.(handled := p.handled + [e], pipe := p.pipe + us, queued := p.queued + |us|, notifying := p.notifying + |us|)
    case NotifyBatcher => p.(notifying := p.notifying - 1, slot := true)
    case Deadline => p.(batcher := AtDeadline)
    case Receive => p.(batcher := Notified, slot := false)
    case Check =>
      p.(batcher := if (if p.batcher.AtDeadline? then p.queued != 0 else p.queued >= batchSize) then Taking
        else Selecting)
    case TakePipe =>
      p.(batcher := Selecting, pipe := [], queued := 0, inFlight := p.inFlight + [p.pipe],
        shipped := p.shipped + p.pipe)
    case Execute(i) => ExecuteOne(p, i)
  }

  /** The pipeline after a sequence of steps; a step that is not enabled does nothing. */
  function After(batchSize: int, acts: seq<Action>): Pipeline
  {
    if acts == [] then EMPTY
    else
      var p := After(batchSize, acts[..|acts| - 1]);
      if Enabled(p, acts[|acts| - 1]) then Do(p, batchSize, acts[|acts| - 1]) else p
  }

  // ---- Conservation -------------------------------------------------------------------------

  function TotalInFlight(bs: seq<seq<Update>>, key: string, bucket: string): int {
    if bs == [] then 0 else Total(bs[0], key, bucket) + TotalInFlight(bs[1..], key, bucket)
  }

  lemma {:induction false} InFlightConcat(a: seq<seq<Update>>, b: seq<seq<Update>>, key: string, bucket: string)
    ensures TotalInFlight(a + b, key, bucket) == TotalInFlight(a, key, bucket) + TotalInFlight(b, key, bucket)
  {
    if a == [] {
      assert a + b == b;
    } else {
      InFlightConcat(a[1..], b, key, bucket);
      assert (a + b)[1..] == a[1..] + b;
    }
  }

  /** Splitting the batches in flight around one of them. */
  lemma InFlightSplit(bs: seq<seq<Update>>, i: nat, key: string, bucket: string)
    requires i < |bs|
    ensures TotalInFlight(bs, key, bucket) ==
      TotalInFlight(bs[..i], key, bucket) + Total(bs[i], key, bucket) + TotalInFlight(bs[i + 1..], key, bucket)
  {
    assert bs == bs[..i] + bs[i..];
    InFlightConcat(bs[..i], bs[i..], key, bucket);
    assert bs[i..][1..] == bs[i + 1..];
  }

  /** Every update is in the pipe or in exactly one batch, in order, and the queued
      count is that of the pipe. */
  ghost predicate Accounted(p: Pipeline) {
    p.shipped + p.pipe == Updates(p.handled) && p.queued == |p.pipe|
  }

  /** Redis holds what was shipped and is no longer in flight. */
  ghost predicate Conserved(p: Pipeline) {
    forall key, bucket ::
      Stored(p.store, key, bucket) + TotalInFlight(p.inFlight, key, bucket) == Total(p.shipped, key, bucket)
  }

  /** A full batch never sits unnoticed. */
  ghost predicate Attended(p: Pipeline, batchSize: int) {
    p.queued > 0 && p.queued >= batchSize ==> p.slot || p.notifying > 0 || !p.batcher.Selecting?
  }

  lemma ExecuteConserves(p: Pipeline, i: nat)
    requires Conserved(p) && i < |p.inFlight|
    ensures Conserved(ExecuteOne(p, i))
  {
    var p' := ExecuteOne(p, i);
    var b := p.inFlight[i];
    forall key, bucket
      ensures Stored(p'.store, key, bucket) + TotalInFlight(p'.inFlight, key, bucket) == Total(p'.shipped, key, bucket)
    {
      InFlightSplit(p.inFlight, i, key, bucket);
      if b == [] {
        InFlightConcat(p.inFlight[..i], p.inFlight[i + 1..], key, bucket);
      } else {
        InFlightSplit(p'.inFlight, i, key, bucket);
        assert p'.inFlight[..i] == p.inFlight[..i] && p'.inFlight[i + 1..] == p.inFlight[i + 1..];
        assert b == [b[0]] + b[1..];
        TotalConcat([b[0]], b[1..], key, bucket);
        assert [b[0]][..0] == [];
        assert Total([b[0]], key, bucket) == Contribution(b[0], key, bucket);
      }
    }
  }

  lemma TakeConserves(p: Pipeline, batchSize: int)
    requires Conserved(p) && p.batcher.Taking?
    ensures Conserved(Do(p, batchSize, TakePipe))
  {
    var p' := Do(p, batchSize, TakePipe);
    forall key, bucket
      ensures Stored(p'.store, key, bucket) + TotalInFlight(p'.inFlight, key, bucket) == Total(p'.shipped, key, bucket)
    {
      InFlightConcat(p.inFlight, [p.pipe], key, bucket);
      TotalConcat(p.shipped, p.pipe, key, bucket);
      assert [p.pipe][1..] == [];
    }
  }

  lemma HandleAccounts(p: Pipeline, batchSize: int, e: Event)
    requires Accounted(p)
    ensures Accounted(Do(p, batchSize, Handle(e)))
  {
    var p' := Do(p, batchSize, Handle(e));
    assert p'.handled[..|p'.handled| - 1] == p.handled;
    assert p.shipped + (p.pipe + UpdatesOf(e)) == (p.shipped + p.pipe) + UpdatesOf(e);
  }

  lemma StepKeeps(p: Pipeline, batchSize: int, a: Action)
    requires Enabled(p, a) && Accounted(p) && Conserved(p) && Attended(p, batchSize)
    ensures Accounted(Do(p, batchSize, a)) && Conserved(Do(p, batchSize, a)) && Attended(Do(p, batchSize, a), batchSize)
  {
    match a
    case Handle(e) => HandleAccounts(p, batchSize, e);
    case NotifyBatcher =>
    case Deadline =>
    case Receive =>
    case Check =>
    case TakePipe =>
      TakeConserves(p, batchSize);
      assert p.shipped + p.pipe + [] == p.shipped + p.pipe;
    case Execute(i) => ExecuteConserves(p, i);
  }

  /** In every interleaving of event handlers, the batcher and the commands on their way
      to Redis, no update is lost or duplicated and no full batch is left unnoticed. */
  lemma {:induction false} RunKeeps(batchSize: int, acts: seq<Action>)
    ensures Accounted(After(batchSize, acts)) && Conserved(After(batchSize, acts))
    ensures Attended(After(batchSize, acts), batchSize)
  {
    if acts != [] {
      var n := |acts| - 1;
      RunKeeps(batchSize, acts[..n]);
      var p := After(batchSize, acts[..n]);
      if Enabled(p, acts[n]) {
        StepKeeps(p, batchSize, acts[n]);
      }
    }
  }

  /** When a batch is shipped: at a deadline exactly if anything is queued, on a notification
      exactly if a full batch is; and it is everything queued, in order. */
  ghost predicate ShipsDuly(p: Pipeline, batchSize: int) {
    && (p.batcher.AtDeadline? ==> (Do(p, batchSize, Check).batcher.Taking? <==> p.pipe != []))
    && (p.batcher.Notified? ==> (Do(p, batchSize, Check).batcher.Taking? <==> batchSize <= |p.pipe|))
    && (p.batcher.Taking? ==>
          var p' := Do(p, batchSize, TakePipe);
          p'.inFlight == p.inFlight + [p.pipe] && p'.pipe == [] && p'.store == p.store && p'.batcher.Selecting?)
  }

  lemma CountedMeansDuly(p: Pipeline, batchSize: int)
    requires p.queued == |p.pipe|
    ensures ShipsDuly(p, batchSize)
  {
  }

  lemma {:induction false} BatchesShipExactly(batchSize: int, acts: seq<Action>)
    ensures ShipsDuly(After(batchSize, acts), batchSize)
  {
    RunKeeps(batchSize, acts);
    CountedMeansDuly(After(batchSize, acts), batchSize);
  }

  /** Batched stats refine in-memory stats: once everything handled has been shipped and
      executed, Redis gives the scores of the in-memory listener, in whatever order
      batches and commands got there. */
  lemma RedisAgreesWithMemory(batchSize: int, acts: seq<Action>, ns: string, bucket: string)
    requires After(batchSize, acts).pipe == [] && After(batchSize, acts).inFlight == []
    ensures
      var p := After(batchSize, acts);
      && Stored(p.store, StatsKey("hits", ns), bucket) == Hits(p.handled, ns, bucket)
      && Stored(p.store, StatsKey("misses", ns), bucket) == Misses(p.handled, ns, bucket)
  {
    RunKeeps(batchSize, acts);
    var p := After(batchSize, acts);
    assert p.shipped + [] == p.shipped;
    TotalsAreScores(p.handled, ns, bucket);
  }

  /** At any other time Redis lags behind by exactly what is queued and in flight. */
  lemma RedisLagsByWhatIsPending(batchSize: int, acts: seq<Action>, ns: string, bucket: string)
    ensures
      var p := After(batchSize, acts);
      var hits, misses := StatsKey("hits", ns), StatsKey("misses", ns);
      && Stored(p.store, hits, bucket) + TotalInFlight(p.inFlight, hits, bucket) + Total(p.pipe, hits, bucket)
           == Hits(p.handled, ns, bucket)
      && Stored(p.store, misses, bucket) + TotalInFlight(p.inFlight, misses, bucket) + Total(p.pipe, misses, bucket)
           == Misses(p.handled, ns, bucket)
  {
    RunKeeps(batchSize, acts);
    var p := After(batchSize, acts);
    TotalConcat(p.shipped, p.pipe, StatsKey("hits", ns), bucket);
    TotalConcat(p.shipped, p.pipe, StatsKey("misses", ns), bucket);
    TotalsAreScores(p.handled, ns, bucket);
  }

  // ---- The listener object --------------------------------------------------------------------

  /** The listener's fields and the sections of its code that hold the lock or touch the
      channel; each is one step of the protocol. */
  class RedisListener {
    var pipe: seq<Update>
    var queuedUpdates: int
    var notifyBatcher: bool
    const batchSize: int

    constructor (batchSize: int)
      ensures pipe == [] && queuedUpdates == 0 && !notifyBatcher && this.batchSize == batchSize
    {
      pipe, queuedUpdates, notifyBatcher := [], 0, false;
      this.batchSize := batchSize;
    }

    ghost predicate Shows(p: Pipeline)
      reads this
    {
      pipe == p.pipe && queuedUpdates == p.queued && notifyBatcher == p.slot
    }

    /** Queues the update of an event, if it has one, and says whether a notification
        is now due. */
    method HandleEvent(e: Event, ghost p: Pipeline) returns (due: bool)
      requires Shows(p)
      modifies this
      ensures Shows(Do(p, batchSize, Handle(e)))
      ensures due <==> Do(p, batchSize, Handle(e)).notifying == p.notifying + 1
      ensures !due ==> Do(p, batchSize, Handle(e)).notifying == p.notifying
    {
      due := false;
      assert p.pipe + [] == p.pipe;
      if !e.dynamic {
        return;
      }
      var key, numTokens := "", 1;
      match e.kind {
        case BucketMiss => key := "misses";
        case TokensServed => numTokens, key := e.tokens, "hits";
        case OtherKind => return;
      }
      assert UpdatesOf(e) == [Update(StatsKey(key, e.namespace), e.bucket, numTokens)];
      pipe := pipe + [Update(StatsKey(key, e.namespace), e.bucket, numTokens)];
      queuedUpdates := queuedUpdates + 1;
      due := true;
    }

    method Notify(ghost p: Pipeline)
      requires Shows(p) && p.notifying > 0
      modifies this
      ensures Shows(Do(p, batchSize, NotifyBatcher))
    {
      if !notifyBatcher {
        notifyBatcher := true;
      }
    }

    /** The batcher's check after a deadline or a notification. */
    method BatchReady(afterDeadline: bool, ghost p: Pipeline) returns (ready: bool)
      requires Shows(p) && p.batcher == if afterDeadline then AtDeadline else Notified
      ensures Shows(Do(p, batchSize, Check)) && ready == Do(p, batchSize, Check).batcher.Taking?
    {
      if afterDeadline {
        ready := queuedUpdates != 0;
      } else {
        ready := queuedUpdates >= batchSize;
      }
    }

    /** Swaps in an empty pipe and hands over the full one. */
    method SwapPipe(ghost p: Pipeline) returns (batch: seq<Update>)
      requires Shows(p) && p.batcher.Taking?
      modifies this
      ensures Shows(Do(p, batchSize, TakePipe)) && Do(p, batchSize, TakePipe).inFlight == p.inFlight + [batch]
    {
      batch := pipe;
      pipe := [];
      queuedUpdates := 0;
    }
  }
}
