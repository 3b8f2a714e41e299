// Exactly when reaping is invisible. For every configuration that reaps too soon, or that
// caps what it reaps, there is a run of the server whose last answer gives it away.
module ReapingThreshold {
  import opened Prelude
  import opened Config
  import opened Container
  import opened ContainerTheorems
  import opened Reaping
  import T = TokenBucket
  import R = TokenBucketRuns
  import E = Eviction
  import A = Admission

  // ---- Names that are not configured -----------------------------------------------------

  lemma UnusedName(names: set<string>) returns (name: string)
    ensures forall s :: s in names ==> |s| < |name|
    decreases |names|
  {
    if names == {} {
      name := "";
    } else {
      var s :| s in names;
      var shorter := UnusedName(names - {s});
      name := seq(|s| + |shorter| + 1, _ => 'x');
    }
  }

  /** Ever longer names. */
  function Longer(name: string, i: nat): (r: string)
    ensures |r| == |name| + i
  {
    name + seq(i, _ => 'x')
  }

  // ---- One bucket's life --------------------------------------------------------------------

  ghost predicate TokensOld(v: Server) {
    forall id :: id in v.tokens ==> id.epoch < v.c.epoch
  }

  /** The namespace stands with its configured buckets and `count` dynamic ones. */
  ghost predicate Holds(v: Server, nc: NamespaceConfig, k: string, names: set<string>, count: int) {
    && k in v.c.shelf.namespaces && v.c.shelf.namespaces[k].cfg == nc
    && v.c.shelf.namespaces[k].buckets.Keys == nc.buckets.Keys + names
    && v.c.shelf.namespaces[k].dynamicBucketCount == count
    && TokensOld(v)
  }

  /** It has one dynamic bucket `b`, with state `s`. */
  ghost predicate Alone(v: Server, nc: NamespaceConfig, k: string, name: string, b: Bucket, s: T.State) {
    && Holds(v, nc, k, {name}, 1)
    && v.c.shelf.namespaces[k].buckets[name] == b && b.Watched() && b.id.slot == Named(k, name) &&
         b.id.epoch < v.c.epoch
    && nc.dynamicBucketTemplate == Some(b.cfg) && T.Usable(b.cfg)
    && Held(v.tokens, b.id, LimitsFor(b.cfg)) == s
  }

  /** The bucket that a first lookup makes. */
  function Dynamic(epoch: nat, nc: NamespaceConfig, k: string, name: string): Bucket
    requires nc.dynamicBucketTemplate.Some?
  {
    Bucket(BucketId(epoch, Named(k, name)), nc.dynamicBucketTemplate.value, true)
  }

  /** A namespace whose template is usable and can be reaped, and a name that it does not
      configure. */
  ghost predicate Fit(nc: NamespaceConfig, name: string) {
    ReapableTemplate(nc) && name !in nc.buckets && T.Usable(nc.dynamicBucketTemplate.value)
  }

  lemma FirstVisit(v: Server, nc: NamespaceConfig, k: string, name: string, now: int, a: A.Ask)
    requires Fit(nc, name) && Holds(v, nc, k, {}, 0)
    ensures
      var b := Dynamic(v.c.epoch, nc, k, name);
      var v' := Serve(v, Lookup(now, k, name), a);
      && Alone(v', nc, k, name, b, A.Settled(b.cfg, T.Fresh(LimitsFor(b.cfg)), now, a))
      && v'.c.queue == v.c.queue + [WatcherFor(b, k, name)] && b.id in v'.c.signals && v'.c.signals[b.id]
  {
    var v' := Serve(v, Lookup(now, k, name), a);
    assert v'.c.shelf.namespaces[k].buckets.Keys == nc.buckets.Keys + {name};
  }

  /** What a new bucket would answer. */
  lemma FirstReply(v: Server, nc: NamespaceConfig, k: string, name: string, now: int, a: A.Ask)
    requires Fit(nc, name) && Holds(v, nc, k, {}, 0)
    ensures
      var cfg := nc.dynamicBucketTemplate.value;
      Reply(v, Lookup(now, k, name), a) == Some(Answered(A.Decide(cfg, T.Fresh(LimitsFor(cfg)), now, a), true))
  {
  }

  lemma LaterVisit(v: Server, nc: NamespaceConfig, k: string, name: string, b: Bucket, s: T.State, now: int, a: A.Ask)
    requires Alone(v, nc, k, name, b, s)
    ensures
      var v' := Serve(v, Lookup(now, k, name), a);
      && Alone(v', nc, k, name, b, A.Settled(b.cfg, s, now, a))
      && v'.c.watchers == v.c.watchers && b.id in v'.c.signals && v'.c.signals[b.id]
  {
  }

  lemma LaterReply(v: Server, nc: NamespaceConfig, k: string, name: string, b: Bucket, s: T.State, now: int, a: A.Ask)
    requires Alone(v, nc, k, name, b, s)
    ensures Reply(v, Lookup(now, k, name), a) == Some(Answered(A.Decide(b.cfg, s, now, a), true))
  {
  }

  lemma TakenUp(v: Server, nc: NamespaceConfig, k: string, name: string, b: Bucket, s: T.State, now: int, a: A.Ask)
    requires Alone(v, nc, k, name, b, s) && v.c.queue == [WatcherFor(b, k, name)] && b.id in v.c.signals
    requires v.c.signals[b.id]
    ensures
      var v' := Serve(v, Registration(now), a);
      Alone(v', nc, k, name, b, s) && Watching(v', b, k, name, now) && v'.c.signals[b.id]
  {
  }

  /** The bucket's watcher is registered, with its last activity at `since`. */
  ghost predicate Watching(v: Server, b: Bucket, k: string, name: string, since: int) {
    && FullyQualifiedName(k, name) in v.c.watchers
    && v.c.watchers[FullyQualifiedName(k, name)] == WatcherFor(b, k, name).(lastActivity := since)
    && b.id in v.c.signals
  }

  lemma FoundActive(v: Server, nc: NamespaceConfig, k: string, name: string, b: Bucket, s: T.State, since: int,
                    now: int, a: A.Ask)
    requires Alone(v, nc, k, name, b, s) && Watching(v, b, k, name, since) && v.c.signals[b.id]
    ensures
      var v' := Serve(v, Check(now, FullyQualifiedName(k, name)), a);
      Alone(v', nc, k, name, b, s) && Watching(v', b, k, name, now) && !v'.c.signals[b.id]
  {
  }

  /** A step past its idle limit the bucket goes, and its tokens with it. */
  lemma FoundIdle(v: Server, nc: NamespaceConfig, k: string, name: string, b: Bucket, s: T.State, since: int,
                  now: int, a: A.Ask)
    requires Alone(v, nc, k, name, b, s) && Watching(v, b, k, name, since) && !v.c.signals[b.id]
    requires name !in nc.buckets && ReapedAfter(b.cfg) <= now - since
    ensures Holds(Serve(v, Check(now, FullyQualifiedName(k, name)), a), nc, k, {}, 0)
  {
    var v' := Serve(v, Check(now, FullyQualifiedName(k, name)), a);
    assert v'.c.shelf.namespaces[k].buckets.Keys == nc.buckets.Keys;
  }

  // ---- Many visits -------------------------------------------------------------------------------

  const NOTHING: A.Ask := A.Ask(0, 0, false)

  function AskFor(q: T.Request): A.Ask {
    A.Ask(q.tokens, 0, false)
  }

  function Visits(k: string, name: string, qs: seq<T.Request>): (es: seq<Event>)
    ensures |es| == |qs|
  {
    seq(|qs|, i requires 0 <= i < |qs| => Lookup(qs[i].now, k, name))
  }

  function Asks(qs: seq<T.Request>): (asks: seq<A.Ask>)
    ensures |asks| == |qs|
  {
    seq(|qs|, i requires 0 <= i < |qs| => AskFor(qs[i]))
  }

  /** The server passes these requests on as they are. */
  ghost predicate GoThrough(cfg: BucketConfig, qs: seq<T.Request>) {
    forall i :: 0 <= i < |qs| ==>
      !A.OverLimit(cfg, AskFor(qs[i])) && A.RequestOf(cfg, qs[i].now, AskFor(qs[i])) == qs[i]
  }

  /** One more step at the end of a run. */
  lemma {:induction false} ServeSnoc(v: Server, es: seq<Event>, asks: seq<A.Ask>, e: Event, a: A.Ask, reaping: bool)
    requires |es| == |asks|
    ensures ServeAll(v, es + [e], asks + [a], reaping) == ServeStep(ServeAll(v, es, asks, reaping), e, a, reaping)
  {
    assert (es + [e])[..|es|] == es && (asks + [a])[..|asks|] == asks;
  }

  lemma {:induction false} ServeJoin(v: Server, es: seq<Event>, asks: seq<A.Ask>, es': seq<Event>, asks': seq<A.Ask>,
                                     reaping: bool)
    requires |es| == |asks| && |es'| == |asks'|
    ensures ServeAll(v, es + es', asks + asks', reaping) ==
      ServeAll(ServeAll(v, es, asks, reaping), es', asks', reaping)
    decreases |es'|
  {
    if es' == [] {
      assert es + es' == es && asks + asks' == asks;
    } else {
      var n := |es'| - 1;
      var e, a := es'[n], asks'[n];
      assert es' == es'[..n] + [e] && asks' == asks'[..n] + [a];
      assert es + es' == (es + es'[..n]) + [e] && asks + asks' == (asks + asks'[..n]) + [a];
      ServeJoin(v, es, asks, es'[..n], asks'[..n], reaping);
      ServeSnoc(v, es + es'[..n], asks + asks'[..n], e, a, reaping);
      ServeSnoc(ServeAll(v, es, asks, reaping), es'[..n], asks'[..n], e, a, reaping);
    }
  }

  lemma SettledIsNext(cfg: BucketConfig, qs: seq<T.Request>, i: nat, s: T.State)
    requires T.Usable(cfg) && GoThrough(cfg, qs) && i < |qs|
    ensures A.Settled(cfg, s, qs[i].now, AskFor(qs[i])) == T.Next(LimitsFor(cfg), s, qs[i])
  {
  }

  lemma {:induction false} VisitsLast(v: Server, k: string, name: string, qs: seq<T.Request>, reaping: bool)
    requires qs != []
    ensures
      var n := |qs| - 1;
      ServeAll(v, Visits(k, name, qs), Asks(qs), reaping) ==
      Serve(ServeAll(v, Visits(k, name, qs[..n]), Asks(qs[..n]), reaping), Lookup(qs[n].now, k, name), AskFor(qs[n]))
  {
    var n := |qs| - 1;
    assert Visits(k, name, qs)[..n] == Visits(k, name, qs[..n]) && Asks(qs)[..n] == Asks(qs[..n]);
  }

  /** One visit after the other. */
  lemma {:induction false} LaterVisits(v: Server, nc: NamespaceConfig, k: string, name: string, b: Bucket, s: T.State,
                                       qs: seq<T.Request>, reaping: bool)
    requires Alone(v, nc, k, name, b, s) && GoThrough(b.cfg, qs)
    ensures
      var v' := ServeAll(v, Visits(k, name, qs), Asks(qs), reaping);
      && Alone(v', nc, k, name, b, T.After(LimitsFor(b.cfg), s, qs)) && v'.c.watchers == v.c.watchers
      && (b.id in v.c.signals && v.c.signals[b.id] ==> b.id in v'.c.signals && v'.c.signals[b.id])
    decreases |qs|
  {
    if qs != [] {
      var n := |qs| - 1;
      VisitsLast(v, k, name, qs, reaping);
      LaterVisits(v, nc, k, name, b, s, qs[..n], reaping);
      var m := ServeAll(v, Visits(k, name, qs[..n]), Asks(qs[..n]), reaping);
      var s' := T.After(LimitsFor(b.cfg), s, qs[..n]);
      LaterVisit(m, nc, k, name, b, s', qs[n].now, AskFor(qs[n]));
      SettledIsNext(b.cfg, qs, n, s');
    }
  }

  /** The same from a namespace without dynamic buckets: the first visit makes one. */
  lemma {:induction false} FirstVisits(v: Server, nc: NamespaceConfig, k: string, name: string, qs: seq<T.Request>,
                                       reaping: bool)
    requires Fit(nc, name) && Holds(v, nc, k, {}, 0) && qs != [] && GoThrough(nc.dynamicBucketTemplate.value, qs)
    ensures
      var b := Dynamic(v.c.epoch, nc, k, name);
      var l := LimitsFor(b.cfg);
      Alone(ServeAll(v, Visits(k, name, qs), Asks(qs), reaping), nc, k, name, b, T.After(l, T.Fresh(l), qs))
  {
    var b := Dynamic(v.c.epoch, nc, k, name);
    var l := LimitsFor(b.cfg);
    var e, a := Lookup(qs[0].now, k, name), AskFor(qs[0]);
    FirstVisit(v, nc, k, name, qs[0].now, a);
    SettledIsNext(b.cfg, qs, 0, T.Fresh(l));
    LaterVisits(Serve(v, e, a), nc, k, name, b, T.Next(l, T.Fresh(l), qs[0]), qs[1..], reaping);
    VisitsFirst(v, k, name, qs, reaping);
    AfterFirst(l, T.Fresh(l), qs);
  }

  lemma {:induction false} VisitsFirst(v: Server, k: string, name: string, qs: seq<T.Request>, reaping: bool)
    requires qs != []
    ensures ServeAll(v, Visits(k, name, qs), Asks(qs), reaping) ==
      ServeAll(Serve(v, Lookup(qs[0].now, k, name), AskFor(qs[0])), Visits(k, name, qs[1..]), Asks(qs[1..]), reaping)
  {
    var e, a := Lookup(qs[0].now, k, name), AskFor(qs[0]);
    assert Visits(k, name, qs) == [e] + Visits(k, name, qs[1..]) && Asks(qs) == [a] + Asks(qs[1..]);
    ServeOne(v, e, a, reaping);
    ServeJoin(v, [e], [a], Visits(k, name, qs[1..]), Asks(qs[1..]), reaping);
  }

  lemma AfterFirst(l: T.Limits, s: T.State, qs: seq<T.Request>)
    requires l.Valid() && qs != []
    ensures T.After(l, s, qs) == T.After(l, T.Next(l, s, qs[0]), qs[1..])
  {
    R.AfterConcat(l, s, [qs[0]], qs[1..]);
    assert [qs[0]] + qs[1..] == qs && [qs[0]][..0] == [];
    assert T.After(l, s, [qs[0]]) == T.Next(l, s, qs[0]);
  }

  lemma ServeOne(v: Server, e: Event, a: A.Ask, reaping: bool)
    ensures ServeAll(v, [e], [a], reaping) == if e.Check? && !reaping then v else Serve(v, e, a)
  {
    assert [e][..0] == [] && [a][..0] == [];
  }

  // ---- The opening and the reaping --------------------------------------------------------------------

  /** Configure, make the bucket, register its watcher. */
  function Opening(sc: ServiceConfig, k: string, name: string): seq<Event> {
    [Update(0, sc), Lookup(0, k, name), Registration(0)]
  }

  function OpeningAsks(a: A.Ask): seq<A.Ask> {
    [NOTHING, a, NOTHING]
  }

  lemma Configured(sc: ServiceConfig, k: string)
    requires k in sc.namespaces
    ensures
      var v := Serve(STARTED, Update(0, sc), NOTHING);
      Holds(v, sc.namespaces[k], k, {}, 0) && v.c.queue == [] && v.c.epoch == 1
  {
    var v := Serve(STARTED, Update(0, sc), NOTHING);
    assert v.c.shelf.namespaces[k].buckets.Keys == sc.namespaces[k].buckets.Keys;
  }

  lemma OpenedSteps(v: Server, nc: NamespaceConfig, k: string, name: string, a: A.Ask)
    requires Fit(nc, name) && Holds(v, nc, k, {}, 0) && v.c.queue == []
    ensures
      var b := Dynamic(v.c.epoch, nc, k, name);
      var v' := Serve(Serve(v, Lookup(0, k, name), a), Registration(0), NOTHING);
      && Alone(v', nc, k, name, b, A.Settled(b.cfg, T.Fresh(LimitsFor(b.cfg)), 0, a))
      && Watching(v', b, k, name, 0) && v'.c.signals[b.id]
  {
    var b := Dynamic(v.c.epoch, nc, k, name);
    FirstVisit(v, nc, k, name, 0, a);
    TakenUp(Serve(v, Lookup(0, k, name), a), nc, k, name, b, A.Settled(b.cfg, T.Fresh(LimitsFor(b.cfg)), 0, a), 0,
      NOTHING);
  }

  lemma Opened(sc: ServiceConfig, k: string, name: string, a: A.Ask, reaping: bool)
    requires k in sc.namespaces && Fit(sc.namespaces[k], name)
    ensures
      var nc := sc.namespaces[k];
      var b := Dynamic(1, nc, k, name);
      var v := ServeAll(STARTED, Opening(sc, k, name), OpeningAsks(a), reaping);
      && Alone(v, nc, k, name, b, A.Settled(b.cfg, T.Fresh(LimitsFor(b.cfg)), 0, a))
      && Watching(v, b, k, name, 0) && v.c.signals[b.id]
  {
    Configured(sc, k);
    OpenedSteps(Serve(STARTED, Update(0, sc), NOTHING), sc.namespaces[k], k, name, a);
    ServeThree(STARTED, Opening(sc, k, name), OpeningAsks(a), reaping);
  }

  lemma {:induction false} ServeThree(v: Server, es: seq<Event>, asks: seq<A.Ask>, reaping: bool)
    requires |es| == |asks| == 3 && forall i :: 0 <= i < 3 ==> !es[i].Check?
    ensures ServeAll(v, es, asks, reaping) == Serve(Serve(Serve(v, es[0], asks[0]), es[1], asks[1]), es[2], asks[2])
  {
    assert es[..2][..1] == es[..1] && asks[..2][..1] == asks[..1] && es[..1][..0] == [] && asks[..1][..0] == [];
    assert ServeAll(v, es[..1], asks[..1], reaping) == Serve(v, es[0], asks[0]);
    assert ServeAll(v, es[..2], asks[..2], reaping) == Serve(Serve(v, es[0], asks[0]), es[1], asks[1]);
  }

  /** See that the bucket was used, and find it idle later. */
  function Closing(key: string, used: int, end: int): seq<Event> {
    [Check(used, key), Check(end, key)]
  }

  lemma Closed(v: Server, nc: NamespaceConfig, k: string, name: string, b: Bucket, s: T.State, since: int, used: int,
               end: int)
    requires Alone(v, nc, k, name, b, s) && Watching(v, b, k, name, since) && v.c.signals[b.id]
    requires name !in nc.buckets && ReapedAfter(b.cfg) <= end - used
    ensures
      var es, asks := Closing(FullyQualifiedName(k, name), used, end), [NOTHING, NOTHING];
      Holds(ServeAll(v, es, asks, true), nc, k, {}, 0) && ServeAll(v, es, asks, false) == v
  {
    var es, asks := Closing(FullyQualifiedName(k, name), used, end), [NOTHING, NOTHING];
    FoundActive(v, nc, k, name, b, s, since, used, NOTHING);
    var m := Serve(v, es[0], NOTHING);
    FoundIdle(m, nc, k, name, b, s, used, end, NOTHING);
    assert es == [es[0]] + [es[1]] && asks == [NOTHING] + [NOTHING];
    ServeOne(v, es[0], NOTHING, true);
    ServeOne(v, es[0], NOTHING, false);
    ServeOne(m, es[1], NOTHING, true);
    ServeOne(v, es[1], NOTHING, false);
    ServeJoin(v, [es[0]], [NOTHING], [es[1]], [NOTHING], true);
    ServeJoin(v, [es[0]], [NOTHING], [es[1]], [NOTHING], false);
  }

  // ---- Legal runs -----------------------------------------------------------------------------------

  /** Events in order of time, from `lo` to `hi`, with no other configuration than `sc`. */
  ghost predicate InOrder(es: seq<Event>, sc: ServiceConfig, lo: int, hi: int) {
    && (forall i :: 0 <= i < |es| ==> lo <= es[i].now <= hi && (es[i].Update? ==> es[i].cfg == sc))
    && (forall i, j :: 0 <= i < j < |es| ==> es[i].now <= es[j].now)
  }

  lemma OrderJoin(es: seq<Event>, es': seq<Event>, sc: ServiceConfig, lo: int, mid: int, hi: int)
    requires InOrder(es, sc, lo, mid) && InOrder(es', sc, mid, hi) && lo <= mid <= hi
    ensures InOrder(es + es', sc, lo, hi)
  {
  }

  lemma {:induction false} OrderIsLegal(es: seq<Event>, sc: ServiceConfig, hi: int)
    requires InOrder(es, sc, 0, hi) && Normalised(sc)
    ensures LegalRun(INITIAL, es)
  {
    forall i | 0 <= i < |es|
      ensures Legal(Run(INITIAL, es[..i]), es[i])
    {
      if 0 < i {
        StepAdvances(Run(INITIAL, es[..i][..i - 1]), es[i - 1]);
      }
    }
  }

  lemma VisitsInOrder(k: string, name: string, qs: seq<T.Request>, sc: ServiceConfig, lo: int, hi: int)
    requires T.Ordered(qs, lo) && (forall i :: 0 <= i < |qs| ==> qs[i].now <= hi)
    ensures InOrder(Visits(k, name, qs), sc, lo, hi)
  {
  }

  // ---- Reaped too soon ----------------------------------------------------------------------------------

  /** Use the bucket as `qs` says, and let it be reaped. */
  function Lead(sc: ServiceConfig, k: string, name: string, qs: seq<T.Request>, used: int, end: int): seq<Event>
    requires qs != []
  {
    Opening(sc, k, name) + Visits(k, name, qs[1..]) + Closing(FullyQualifiedName(k, name), used, end)
  }

  function LeadAsks(qs: seq<T.Request>): seq<A.Ask>
    requires qs != []
  {
    OpeningAsks(AskFor(qs[0])) + Asks(qs[1..]) + [NOTHING, NOTHING]
  }

  lemma LeadInOrder(sc: ServiceConfig, k: string, name: string, qs: seq<T.Request>, used: int, end: int)
    requires qs != [] && T.Ordered(qs, 0) && used == qs[|qs| - 1].now <= end
    ensures InOrder(Lead(sc, k, name, qs, used, end), sc, 0, end)
  {
    VisitsInOrder(k, name, qs[1..], sc, 0, used);
    var a, b := Opening(sc, k, name), Visits(k, name, qs[1..]);
    OrderJoin(a, b, sc, 0, 0, used);
    OrderJoin(a + b, Closing(FullyQualifiedName(k, name), used, end), sc, 0, used, end);
  }

  /** A run and then a last client. */
  function Then(es: seq<Event>, es': seq<Event>, e: Event): seq<Event> {
    es + (es' + [e])
  }

  /** After the first uses. */
  lemma {:induction false} Used(sc: ServiceConfig, k: string, name: string, qs: seq<T.Request>, reaping: bool)
    requires k in sc.namespaces && Fit(sc.namespaces[k], name) && qs != [] && qs[0].now == 0
    requires GoThrough(sc.namespaces[k].dynamicBucketTemplate.value, qs)
    ensures
      var nc := sc.namespaces[k];
      var b := Dynamic(1, nc, k, name);
      var l := LimitsFor(b.cfg);
      var v := ServeAll(STARTED, Opening(sc, k, name) + Visits(k, name, qs[1..]),
        OpeningAsks(AskFor(qs[0])) + Asks(qs[1..]), reaping);
      Alone(v, nc, k, name, b, T.After(l, T.Fresh(l), qs)) && Watching(v, b, k, name, 0) && v.c.signals[b.id]
  {
    var nc := sc.namespaces[k];
    var b := Dynamic(1, nc, k, name);
    var l := LimitsFor(b.cfg);
    var a := AskFor(qs[0]);
    Opened(sc, k, name, a, reaping);
    SettledIsNext(b.cfg, qs, 0, T.Fresh(l));
    var v := ServeAll(STARTED, Opening(sc, k, name), OpeningAsks(a), reaping);
    LaterVisits(v, nc, k, name, b, T.Next(l, T.Fresh(l), qs[0]), qs[1..], reaping);
    AfterFirst(l, T.Fresh(l), qs);
    ServeJoin(STARTED, Opening(sc, k, name), OpeningAsks(a), Visits(k, name, qs[1..]), Asks(qs[1..]), reaping);
  }

  /** After the reaping: the one server has lost the bucket, the other has not. */
  lemma {:induction false} Reaped(sc: ServiceConfig, k: string, name: string, qs: seq<T.Request>, used: int, end: int)
    requires k in sc.namespaces && Fit(sc.namespaces[k], name) && qs != [] && qs[0].now == 0
    requires GoThrough(sc.namespaces[k].dynamicBucketTemplate.value, qs)
    requires ReapedAfter(sc.namespaces[k].dynamicBucketTemplate.value) <= end - used
    ensures
      var nc := sc.namespaces[k];
      var b := Dynamic(1, nc, k, name);
      var l := LimitsFor(b.cfg);
      var es, asks := Lead(sc, k, name, qs, used, end), LeadAsks(qs);
      && Holds(ServeAll(STARTED, es, asks, true), nc, k, {}, 0)
      && Alone(ServeAll(STARTED, es, asks, false), nc, k, name, b, T.After(l, T.Fresh(l), qs))
  {
    var nc := sc.namespaces[k];
    var b := Dynamic(1, nc, k, name);
    var l := LimitsFor(b.cfg);
    var es, asks := Opening(sc, k, name) + Visits(k, name, qs[1..]), OpeningAsks(AskFor(qs[0])) + Asks(qs[1..]);
    var closing := Closing(FullyQualifiedName(k, name), used, end);
    Used(sc, k, name, qs, true);
    Used(sc, k, name, qs, false);
    Closed(ServeAll(STARTED, es, asks, true), nc, k, name, b, T.After(l, T.Fresh(l), qs), 0, used, end);
    Closed(ServeAll(STARTED, es, asks, false), nc, k, name, b, T.After(l, T.Fresh(l), qs), 0, used, end);
    ServeJoin(STARTED, es, asks, closing, [NOTHING, NOTHING], true);
    ServeJoin(STARTED, es, asks, closing, [NOTHING, NOTHING], false);
  }

  /** What the last client is told after a reaping, and without one. */
  lemma {:induction false} LastReplies(v: Server, w: Server, nc: NamespaceConfig, k: string, name: string, b: Bucket,
                                       s: T.State, ps: seq<T.Request>)
    requires Fit(nc, name) && Holds(v, nc, k, {}, 0) && Alone(w, nc, k, name, b, s) && ps != [] && GoThrough(b.cfg, ps)
    requires T.AnswerAt(LimitsFor(b.cfg), s, ps, |ps| - 1) !=
      T.AnswerAt(LimitsFor(b.cfg), T.Fresh(LimitsFor(b.cfg)), ps, |ps| - 1)
    ensures
      var n := |ps| - 1;
      var es, asks := Visits(k, name, ps[..n]), Asks(ps[..n]);
      Reply(ServeAll(v, es, asks, true), Lookup(ps[n].now, k, name), AskFor(ps[n])) !=
      Reply(ServeAll(w, es, asks, false), Lookup(ps[n].now, k, name), AskFor(ps[n]))
  {
    var n, l := |ps| - 1, LimitsFor(b.cfg);
    var es, asks := Visits(k, name, ps[..n]), Asks(ps[..n]);
    LaterVisits(w, nc, k, name, b, s, ps[..n], false);
    LaterReply(ServeAll(w, es, asks, false), nc, k, name, b, T.After(l, s, ps[..n]), ps[n].now, AskFor(ps[n]));
    if n == 0 {
      assert ps[..n] == [] && es == [] && asks == [];
      FirstReply(v, nc, k, name, ps[n].now, AskFor(ps[n]));
    } else {
      FirstVisits(v, nc, k, name, ps[..n], true);
      LaterReply(ServeAll(v, es, asks, true), nc, k, name, Dynamic(v.c.epoch, nc, k, name),
        T.After(l, T.Fresh(l), ps[..n]),
                 ps[n].now, AskFor(ps[n]));
    }
  }

  lemma {:induction false} ShowsAtTheEnd(es: seq<Event>, asks: seq<A.Ask>, es': seq<Event>, asks': seq<A.Ask>,
                                         e: Event, a: A.Ask)
    requires |es| == |asks| && |es'| == |asks'|
    requires Reply(ServeAll(ServeAll(STARTED, es, asks, true), es', asks', true), e, a) !=
             Reply(ServeAll(ServeAll(STARTED, es, asks, false), es', asks', false), e, a)
    ensures !ToldAlike(Then(es, es', e), asks + (asks' + [a]), |es| + |es'|)
  {
    var i := |es| + |es'|;
    ServeJoin(STARTED, es, asks, es', asks', true);
    ServeJoin(STARTED, es, asks, es', asks', false);
    assert Then(es, es', e)[..i] == es + es' && (asks + (asks' + [a]))[..i] == asks + asks';
    assert Then(es, es', e)[i] == e && (asks + (asks' + [a]))[i] == a;
  }

  lemma LastVisit(k: string, name: string, ps: seq<T.Request>)
    requires ps != []
    ensures
      var n := |ps| - 1;
      && Visits(k, name, ps) == Visits(k, name, ps[..n]) + [Lookup(ps[n].now, k, name)]
      && Asks(ps) == Asks(ps[..n]) + [AskFor(ps[n])]
  {
  }

  lemma {:induction false} RepliesDiffer(sc: ServiceConfig, k: string, name: string, qs: seq<T.Request>,
                                         ps: seq<T.Request>,
                                         es: seq<Event>, asks: seq<A.Ask>)
    requires k in sc.namespaces && Fit(sc.namespaces[k], name) && qs != [] && qs[0].now == 0 && ps != []
    requires es == Lead(sc, k, name, qs, qs[|qs| - 1].now, ps[0].now) && asks == LeadAsks(qs)
    requires
      var cfg := sc.namespaces[k].dynamicBucketTemplate.value;
      var l := LimitsFor(cfg);
      && GoThrough(cfg, qs) && GoThrough(cfg, ps) && ReapedAfter(cfg) <= ps[0].now - qs[|qs| - 1].now
      && T.AnswerAt(l, T.After(l, T.Fresh(l), qs), ps, |ps| - 1) != T.AnswerAt(l, T.Fresh(l), ps, |ps| - 1)
    ensures |es| == |asks|
    ensures
      var n := |ps| - 1;
      var es', asks' := Visits(k, name, ps[..n]), Asks(ps[..n]);
      Reply(ServeAll(ServeAll(STARTED, es, asks, true), es', asks', true), Lookup(ps[n].now, k, name), AskFor(ps[n])) !=
      Reply(ServeAll(ServeAll(STARTED, es, asks, false), es', asks', false), Lookup(ps[n].now, k, name), AskFor(ps[n]))
  {
    var nc := sc.namespaces[k];
    var b := Dynamic(1, nc, k, name);
    var l := LimitsFor(b.cfg);
    Reaped(sc, k, name, qs, qs[|qs| - 1].now, ps[0].now);
    LastReplies(ServeAll(STARTED, es, asks, true), ServeAll(STARTED, es, asks, false), nc, k, name, b,
      T.After(l, T.Fresh(l), qs), ps);
  }

  // ---- The exact condition ----------------------------------------------------------------------------

  ghost predicate Only(es: seq<Event>, sc: ServiceConfig) {
    forall i :: 0 <= i < |es| && es[i].Update? ==> es[i].cfg == sc
  }

  /** Nobody can tell that buckets are reaped, whatever happens under this configuration:
      every client of every run is told what it would be told if the reaper never looked. */
  ghost predicate Unnoticed(sc: ServiceConfig) {
    forall es: seq<Event>, asks: seq<A.Ask>, i: nat ::
      i < |es| == |asks| && LegalRun(INITIAL, es) && Only(es, sc) ==> ToldAlike(es, asks, i)
  }

  lemma {:induction false} NoticedAtTheEnd(sc: ServiceConfig, es: seq<Event>, asks: seq<A.Ask>, es': seq<Event>,
                                           asks': seq<A.Ask>,
                                           e: Event, a: A.Ask, mid: int, hi: int)
    requires |es| == |asks| && |es'| == |asks'| && Normalised(sc)
    requires InOrder(es, sc, 0, mid) && InOrder(es' + [e], sc, mid, hi) && 0 <= mid <= hi
    requires Reply(ServeAll(ServeAll(STARTED, es, asks, true), es', asks', true), e, a) !=
             Reply(ServeAll(ServeAll(STARTED, es, asks, false), es', asks', false), e, a)
    ensures !Unnoticed(sc)
  {
    ShowsAtTheEnd(es, asks, es', asks', e, a);
    OrderJoin(es, es' + [e], sc, 0, mid, hi);
    OrderIsLegal(Then(es, es', e), sc, hi);
    assert Only(Then(es, es', e), sc);
  }

  lemma DrainGoesThrough(cfg: BucketConfig)
    requires T.Usable(cfg) && 0 <= LimitsFor(cfg).maxDebt
    ensures
      var l, g := LimitsFor(cfg), A.CallersOf(cfg);
      GoThrough(cfg, E.Drain(l, g)) && GoThrough(cfg, E.Probe(l, g))
  {
    E.DrainAndProbeAreAdmitted(LimitsFor(cfg), A.CallersOf(cfg));
  }

  /** A template whose buckets can be reaped too soon: drain one to its horizon, let it be
      reaped a moment before it would be full again, and probe it. */
  lemma {:induction false} TooSoonIsNoticed(sc: ServiceConfig, k: string)
    requires Normalised(sc) && UsableConfig(sc) && k in sc.namespaces && ReapableTemplate(sc.namespaces[k])
    requires !LastingTemplate(sc.namespaces[k].dynamicBucketTemplate.value)
    ensures !Unnoticed(sc)
  {
    var nc := sc.namespaces[k];
    var cfg := nc.dynamicBucketTemplate.value;
    var l, g := LimitsFor(cfg), A.CallersOf(cfg);
    var name := UnusedName(nc.buckets.Keys);
    assert UsableNamespace(nc);
    var qs, ps := E.Drain(l, g), E.Probe(l, g);
    E.DrainAndProbeAreAdmitted(l, g);
    E.DrainReachesHorizon(l, g);
    E.ProbeTells(l, g);
    E.ClimbBounds(l, g);
    DrainGoesThrough(cfg);
    E.OrderedPrefix(qs, ps);
    var n, used, end := |ps| - 1, E.Peak(l, g), E.Brink(l, g);
    var es, asks := Lead(sc, k, name, qs, used, end), LeadAsks(qs);
    RepliesDiffer(sc, k, name, qs, ps, es, asks);
    LeadInOrder(sc, k, name, qs, used, end);
    VisitsInOrder(k, name, ps, sc, end, end);
    LastVisit(k, name, ps);
    NoticedAtTheEnd(sc, es, asks, Visits(k, name, ps[..n]), Asks(ps[..n]), Lookup(ps[n].now, k, name), AskFor(ps[n]),
      end, end);
  }

  // ---- A cap that reaping makes room under ------------------------------------------------------------

  /** The namespace counts so many dynamic buckets, none of them of a name longer than
      `Longer(name, j)`. */
  ghost predicate Room(v: Server, nc: NamespaceConfig, k: string, name: string, j: nat, count: int) {
    && k in v.c.shelf.namespaces && v.c.shelf.namespaces[k].cfg == nc &&
         v.c.shelf.namespaces[k].dynamicBucketCount == count
    && forall s :: s in v.c.shelf.namespaces[k].buckets ==> |s| <= |name| + j
  }

  /** Ask for one new name after the other. */
  function Fills(k: string, name: string, now: int, n: nat): (es: seq<Event>)
    ensures |es| == n
  {
    seq(n, i requires 0 <= i < n => Lookup(now, k, Longer(name, i + 1)))
  }

  function Nothings(n: nat): (asks: seq<A.Ask>)
    ensures |asks| == n
  {
    seq(n, _ => NOTHING)
  }

  ghost predicate Unconfigured(nc: NamespaceConfig, name: string) {
    forall s :: s in nc.buckets ==> |s| < |name|
  }

  lemma Fill(v: Server, nc: NamespaceConfig, k: string, name: string, j: nat, count: int, now: int, a: A.Ask)
    requires Room(v, nc, k, name, j, count) && count < nc.maxDynamicBuckets
    requires nc.dynamicBucketTemplate.Some? && Unconfigured(nc, name)
    ensures Room(Serve(v, Lookup(now, k, Longer(name, j + 1)), a), nc, k, name, j + 1, count + 1)
    ensures Find(v.c, now, k, Longer(name, j + 1)).1.Found?
  {
    assert Longer(name, j + 1) !in v.c.shelf.namespaces[k].buckets && Longer(name, j + 1) !in nc.buckets;
  }

  lemma Refused(v: Server, nc: NamespaceConfig, k: string, name: string, j: nat, count: int, now: int)
    requires Room(v, nc, k, name, j, count) && count == nc.maxDynamicBuckets && 0 < count
    requires nc.dynamicBucketTemplate.Some? && Unconfigured(nc, name)
    ensures Find(v.c, now, k, Longer(name, j + 1)).1.CapReached?
  {
    assert Longer(name, j + 1) !in v.c.shelf.namespaces[k].buckets && Longer(name, j + 1) !in nc.buckets;
  }

  lemma {:induction false} FillUp(v: Server, nc: NamespaceConfig, k: string, name: string, count: int, now: int,
                                  n: nat, reaping: bool)
    requires Room(v, nc, k, name, 0, count) && count + n <= nc.maxDynamicBuckets
    requires nc.dynamicBucketTemplate.Some? && Unconfigured(nc, name)
    ensures Room(ServeAll(v, Fills(k, name, now, n), Nothings(n), reaping), nc, k, name, n, count + n)
    decreases n
  {
    if n > 0 {
      var m := n - 1;
      FillUp(v, nc, k, name, count, now, m, reaping);
      Fill(ServeAll(v, Fills(k, name, now, m), Nothings(m), reaping), nc, k, name, m, count + m, now, NOTHING);
      FillsLast(v, k, name, now, m, reaping);
    } else {
      assert Fills(k, name, now, 0) == [];
    }
  }

  lemma {:induction false} FillsLast(v: Server, k: string, name: string, now: int, m: nat, reaping: bool)
    ensures ServeAll(v, Fills(k, name, now, m + 1), Nothings(m + 1), reaping) ==
      Serve(ServeAll(v, Fills(k, name, now, m), Nothings(m), reaping), Lookup(now, k, Longer(name, m + 1)), NOTHING)
  {
    assert Fills(k, name, now, m + 1) == Fills(k, name, now, m) + [Lookup(now, k, Longer(name, m + 1))];
    assert Nothings(m + 1) == Nothings(m) + [NOTHING];
    ServeSnoc(v, Fills(k, name, now, m), Nothings(m), Lookup(now, k, Longer(name, m + 1)), NOTHING, reaping);
  }

  lemma HoldsRoom(v: Server, nc: NamespaceConfig, k: string, name: string, names: set<string>, count: int)
    requires Holds(v, nc, k, names, count) && Unconfigured(nc, name) && forall s :: s in names ==> |s| <= |name|
    ensures Room(v, nc, k, name, 0, count)
  {
  }

  /** The last of as many new names as the cap allows is refused if nothing was reaped. */
  lemma {:induction false} CapTells(v: Server, w: Server, nc: NamespaceConfig, k: string, name: string, now: int)
    requires Room(v, nc, k, name, 0, 0) && Room(w, nc, k, name, 0, 1) && 0 < nc.maxDynamicBuckets
    requires nc.dynamicBucketTemplate.Some? && Unconfigured(nc, name)
    ensures
      var n := nc.maxDynamicBuckets - 1;
      var es, asks, e := Fills(k, name, now, n), Nothings(n), Lookup(now, k, Longer(name, n + 1));
      Reply(ServeAll(v, es, asks, true), e, NOTHING) != Reply(ServeAll(w, es, asks, false), e, NOTHING)
  {
    var n := nc.maxDynamicBuckets - 1;
    FillUp(v, nc, k, name, 0, now, n, true);
    FillUp(w, nc, k, name, 1, now, n, false);
    FullOrNot(ServeAll(v, Fills(k, name, now, n), Nothings(n), true),
      ServeAll(w, Fills(k, name, now, n), Nothings(n), false),
              nc, k, name, n, now);
  }

  lemma FullOrNot(v: Server, w: Server, nc: NamespaceConfig, k: string, name: string, n: nat, now: int)
    requires Room(v, nc, k, name, n, n) && Room(w, nc, k, name, n, n + 1) && nc.maxDynamicBuckets == n + 1
    requires nc.dynamicBucketTemplate.Some? && Unconfigured(nc, name)
    ensures Reply(v, Lookup(now, k, Longer(name, n + 1)), NOTHING) !=
      Reply(w, Lookup(now, k, Longer(name, n + 1)), NOTHING)
  {
    Fill(v, nc, k, name, n, n, now, NOTHING);
    Refused(w, nc, k, name, n, n + 1, now);
  }

  lemma FillsInOrder(sc: ServiceConfig, k: string, name: string, now: int, n: nat)
    ensures InOrder(Fills(k, name, now, n) + [Lookup(now, k, Longer(name, n + 1))], sc, now, now)
  {
  }

  /** A positive cap on buckets that can be reaped: make one, let it be reaped, and ask
      for as many others as the cap allows. */
  lemma {:induction false} CapIsNoticed(sc: ServiceConfig, k: string)
    requires Normalised(sc) && UsableConfig(sc) && k in sc.namespaces && ReapableTemplate(sc.namespaces[k])
    requires 0 < sc.namespaces[k].maxDynamicBuckets
    ensures !Unnoticed(sc)
  {
    var nc := sc.namespaces[k];
    var cfg := nc.dynamicBucketTemplate.value;
    var name := UnusedName(nc.buckets.Keys);
    assert UsableNamespace(nc);
    var qs, end, n := [A.RequestOf(cfg, 0, NOTHING)], ReapedAfter(cfg), nc.maxDynamicBuckets - 1;
    var es, asks := Lead(sc, k, name, qs, 0, end), LeadAsks(qs);
    Reaped(sc, k, name, qs, 0, end);
    HoldsRoom(ServeAll(STARTED, es, asks, true), nc, k, name, {}, 0);
    HoldsRoom(ServeAll(STARTED, es, asks, false), nc, k, name, {name}, 1);
    CapTells(ServeAll(STARTED, es, asks, true), ServeAll(STARTED, es, asks, false), nc, k, name, end);
    LeadInOrder(sc, k, name, qs, 0, end);
    FillsInOrder(sc, k, name, end, n);
    NoticedAtTheEnd(sc, es, asks, Fills(k, name, end, n), Nothings(n), Lookup(end, k, Longer(name, n + 1)), NOTHING,
      end, end);
  }

  /** Exactly when reaping is invisible: no client of any run under a configuration is told
      anything else than without a reaper, if and only if every template whose buckets can
      be reaped is uncapped and either grants nothing or has an idle limit that covers, with
      a nanosecond, its horizon and a full refill. */
  lemma {:induction false} ReapingIsInvisibleIff(sc: ServiceConfig)
    requires Normalised(sc) && UsableConfig(sc)
    ensures Unnoticed(sc) <==> Lasting(sc)
  {
    if Lasting(sc) {
      forall es: seq<Event>, asks: seq<A.Ask>, i: nat | i < |es| == |asks| && LegalRun(INITIAL, es) && Only(es, sc)
        ensures ToldAlike(es, asks, i)
      {
        ReapingIsInvisible(es, asks, i);
      }
    } else {
      var k :| k in sc.namespaces && ReapableTemplate(sc.namespaces[k]) && !LastingNamespace(sc.namespaces[k]);
      if 0 < sc.namespaces[k].maxDynamicBuckets {
        CapIsNoticed(sc, k);
      } else {
        TooSoonIsNoticed(sc, k);
      }
    }
  }
}
