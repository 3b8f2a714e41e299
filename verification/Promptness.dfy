// How soon an idle bucket is gone: from its place in the reaper's queue to the tick that
// removes it (reaper.go:36-157).
module Promptness {
  import opened Prelude
  import opened Config
  import opened Container
  import opened ContainerInvariant
  import opened ContainerTheorems
  import opened ReaperTheorems

  // ---- Runs in two parts -------------------------------------------------------------------

  lemma {:induction false} RunJoin(c: State, lead: seq<Event>, rest: seq<Event>)
    ensures Run(c, lead + rest) == Run(Run(c, lead), rest)
    decreases |rest|
  {
    var es := lead + rest;
    if rest == [] {
      assert es == lead;
    } else {
      assert es[..|es| - 1] == lead + rest[..|rest| - 1];
      RunJoin(c, lead, rest[..|rest| - 1]);
    }
  }

  lemma LegalJoin(c: State, lead: seq<Event>, rest: seq<Event>)
    requires LegalRun(c, lead + rest)
    ensures LegalRun(c, lead) && LegalRun(Run(c, lead), rest)
  {
    var es := lead + rest;
    LegalPrefix(c, es, |lead|);
    assert es[..|lead|] == lead;
    forall i | 0 <= i < |rest|
      ensures Legal(Run(Run(c, lead), rest[..i]), rest[i])
    {
      assert Legal(Run(c, es[..|lead| + i]), es[|lead| + i]);
      assert es[..|lead| + i] == lead + rest[..i];
      RunJoin(c, lead, rest[..i]);
    }
  }

  /** What is alive at the end was alive all along, the same bucket throughout. */
  lemma AliveThroughout(c: State, es: seq<Event>, id: BucketId)
    requires Inv(c) && LegalRun(c, es) && id.epoch < c.epoch && id in Run(c, es).live
    ensures id in c.live && BucketAt(Run(c, es).shelf, id.slot) == BucketAt(c.shelf, id.slot)
    ensures WatchedId(Run(c, es).shelf, id) <==> WatchedId(c.shelf, id)
  {
    if id !in c.live {
      DeadStayDead(c, es, id);
    } else {
      StaysThroughout(c, es, id);
    }
  }

  lemma {:induction false} StaysThroughout(c: State, es: seq<Event>, id: BucketId)
    requires Inv(c) && LegalRun(c, es) && id.epoch < c.epoch && id in Run(c, es).live && id in c.live
    ensures BucketAt(Run(c, es).shelf, id.slot) == BucketAt(c.shelf, id.slot)
  {
    if es != [] {
      var n := |es| - 1;
      LegalPrefix(c, es, n);
      RunKeepsInv(c, es[..n]);
      AliveBefore(c, es, id);
      StaysThroughout(c, es[..n], id);
      BucketStays(Run(c, es[..n]), es[n], id);
    }
  }

  lemma AliveBefore(c: State, es: seq<Event>, id: BucketId)
    requires es != [] && id.epoch < c.epoch && id in Run(c, es).live
    ensures id in Run(c, es[..|es| - 1]).live
  {
    var n := |es| - 1;
    EpochGrows(c, es[..n]);
    if id !in Run(c, es[..n]).live {
      BirthsAreNew(Run(c, es[..n]), es[n], id);
    }
  }

  // ---- The queue -----------------------------------------------------------------------------

  function Registrations(es: seq<Event>): nat {
    if es == [] then 0
    else Registrations(es[..|es| - 1]) + if es[|es| - 1].Registration? then 1 else 0
  }

  /** Whatever is ahead of a watcher goes first; nothing else moves it. */
  lemma {:induction false} QueueMovesUp(c: State, es: seq<Event>, j: nat)
    requires j < |c.queue| && Registrations(es) <= j
    ensures j - Registrations(es) < |Run(c, es).queue| && Run(c, es).queue[j - Registrations(es)] == c.queue[j]
  {
    if es != [] {
      var n := |es| - 1;
      QueueMovesUp(c, es[..n], j);
      StepMovesQueue(Run(c, es[..n]), es[n], j - Registrations(es[..n]));
    }
  }

  lemma StepMovesQueue(c: State, e: Event, p: nat)
    requires p < |c.queue| && (e.Registration? ==> 0 < p)
    ensures
      var p' := if e.Registration? then p - 1 else p;
      p' < |Step(c, e).queue| && Step(c, e).queue[p'] == c.queue[p]
  {
    match e
    case Lookup(now, k, name) =>
    case Update(now, sc) =>
    case Registration(now) =>
    case Check(now, key) => assert Step(c, e).queue == c.queue;
  }

  lemma StepShiftsQueue(c: State, e: Event, id: BucketId, p: nat)
    requires id.epoch < c.epoch && p < |Step(c, e).queue| && Step(c, e).queue[p].id == id
    ensures
      var q := if e.Registration? then p + 1 else p;
      q < |c.queue| && c.queue[q].id == id
  {
    match e
    case Lookup(now, k, name) =>
    case Update(now, sc) =>
    case Registration(now) =>
    case Check(now, key) => assert Step(c, e).queue == c.queue;
  }

  /** A watcher of an old bucket in the queue has been there from the start. */
  lemma {:induction false} QueuedBefore(c: State, es: seq<Event>, id: BucketId, p: nat)
    requires id.epoch < c.epoch && p < |Run(c, es).queue| && Run(c, es).queue[p].id == id
    ensures p + Registrations(es) < |c.queue| && c.queue[p + Registrations(es)].id == id
  {
    if es != [] {
      var n := |es| - 1;
      EpochGrows(c, es[..n]);
      StepShiftsQueue(Run(c, es[..n]), es[n], id, p);
      QueuedBefore(c, es[..n], id, if es[n].Registration? then p + 1 else p);
    }
  }

  /** First come, first served: the watcher at place `j` of the queue stays queued for `j`
      registrations, and from the next one on its bucket is registered as long as it lives
      and is not taken over. */
  lemma QueuedIsRegisteredInTurn(c: State, es: seq<Event>, id: BucketId, j: nat)
    requires Inv(c) && LegalRun(c, es) && j < |c.queue| && c.queue[j].id == id
    requires id in Run(c, es).live && WatchedId(Run(c, es).shelf, id)
    ensures Registrations(es) <= j <==> Queued(Run(c, es), id)
    ensures j < Registrations(es) ==> (Registered(Run(c, es), id) <==> !TakenOverIn(c, es, id))
  {
    assert WatcherOk(c.shelf, c.epoch, c.queue[j]);
    RunKeepsInv(c, es);
    var c' := Run(c, es);
    if Registrations(es) <= j {
      QueueMovesUp(c, es, j);
    }
    if Queued(c', id) {
      var p :| 0 <= p < |c'.queue| && c'.queue[p].id == id;
      QueuedBefore(c, es, id, p);
      SamePlace(c, j, p + Registrations(es));
    }
    WatchedMeans(c', id);
    WatcherLostIff(c, es, id);
  }

  lemma SamePlace(c: State, i: nat, j: nat)
    requires Inv(c) && i < |c.queue| && j < |c.queue| && c.queue[i].id == c.queue[j].id
    ensures i == j
  {
  }

  // ---- Timely looks ---------------------------------------------------------------------------

  /** When the reaper must next look at `key`: by `due`, and then every `gap`. */
  function Due(es: seq<Event>, key: string, due: int, gap: int): int {
    if es == [] then due
    else if es[|es| - 1].Check? && es[|es| - 1].key == key then es[|es| - 1].now + gap
    else Due(es[..|es| - 1], key, due, gap)
  }

  /** The reaper is never late. */
  ghost predicate Timely(es: seq<Event>, key: string, due: int, gap: int) {
    forall i :: 0 <= i < |es| ==> es[i].now <= Due(es[..i], key, due, gap)
  }

  lemma TimelyPrefix(es: seq<Event>, key: string, due: int, gap: int, n: nat)
    requires n <= |es| && Timely(es, key, due, gap)
    ensures Timely(es[..n], key, due, gap)
  {
    forall i | 0 <= i < n
      ensures es[..n][i].now <= Due(es[..n][..i], key, due, gap)
    {
      assert es[..n][..i] == es[..i];
    }
  }

  /** Nobody asks for the name of this place. */
  ghost predicate Unasked(es: seq<Event>, slot: Slot) {
    forall i :: 0 <= i < |es| && es[i].Lookup? ==> Named(es[i].ns, es[i].name) != slot
  }

  // ---- On the clock ----------------------------------------------------------------------------

  /** Either the next look is due by `limit`, or the reaper has seen the last activity and
      did not find the bucket idle at its last look. */
  ghost predicate OnTheClock(c: State, id: BucketId, limit: int, gap: int, due: int) {
    && Registered(c, id)
    && id in c.signals
    && var w := c.watchers[Key(id)];
       && w.lastActivity <= limit
       && (due <= limit || (!c.signals[id] && due <= w.lastActivity + w.maxIdle + gap))
  }

  /** What a step does to the watcher of a registered bucket that survives it and is
      neither asked for nor taken over. */
  ghost predicate Ticks(c: State, c': State, e: Event, id: BucketId)
    requires Registered(c, id) && id in c.signals
  {
    var w := c.watchers[Key(id)];
    && Registered(c', id) && id in c'.signals && c'.watchers[Key(id)].maxIdle == w.maxIdle
    && if e.Check? && e.key == Key(id) then
         if c.signals[id] then !c'.signals[id] && c'.watchers[Key(id)].lastActivity == e.now
         else !c'.signals[id] && c'.watchers[Key(id)] == w && e.now <= w.lastActivity + w.maxIdle
       else c'.watchers[Key(id)] == w && c'.signals[id] == c.signals[id]
  }

  lemma StepTicks(c: State, e: Event, id: BucketId)
    requires Inv(c) && Registered(c, id) && id in c.signals && id in c.live && id in Step(c, e).live
    requires (e.Lookup? ==> Named(e.ns, e.name) != id.slot) && !TakenOver(c, e, id)
    ensures Ticks(c, Step(c, e), e, id)
  {
    assert id.epoch < c.epoch;
    match e
    case Lookup(now, k, name) =>
      if k in c.shelf.namespaces && name in c.shelf.namespaces[k].buckets {
        BucketFacts(c, k, name);
      }
      LookupTicks(c, now, k, name, id);
    case Update(now, sc) => UpdateTicks(c, now, sc, id);
    case Registration(now) => RegistrationTicks(c, now, id);
    case Check(now, key) => CheckTicks(c, now, key, id);
  }

  lemma UpdateTicks(c: State, now: int, sc: ServiceConfig, id: BucketId)
    requires Registered(c, id) && id in c.signals && id in c.live && id in Configure(c, now, sc).live
    requires id.epoch < c.epoch
    ensures Ticks(c, Configure(c, now, sc), Update(now, sc), id)
  {
  }

  lemma RegistrationTicks(c: State, now: int, id: BucketId)
    requires Registered(c, id) && id in c.signals && !TakenOver(c, Registration(now), id)
    ensures Ticks(c, Register(c, now), Registration(now), id)
  {
  }

  lemma LookupTicks(c: State, now: int, k: string, name: string, id: BucketId)
    requires Named(k, name) != id.slot && Registered(c, id) && id in c.signals
    requires k in c.shelf.namespaces && name in c.shelf.namespaces[k].buckets ==>
      c.shelf.namespaces[k].buckets[name].id.slot == Named(k, name)
    ensures Ticks(c, Find(c, now, k, name).0, Lookup(now, k, name), id)
  {
  }

  lemma CheckTicks(c: State, now: int, key: string, id: BucketId)
    requires Inv(c) && Registered(c, id) && id in c.signals && id in c.live && id in Reap(c, now, key).live
    ensures Ticks(c, Reap(c, now, key), Check(now, key), id)
  {
    OnlyOneKey(c, id);
    if key in c.watchers && TooIdle(c, c.watchers[key], now) {
      CheckRemovesWatched(c, now, key);
      OtherRemovedTicks(c, Reap(c, now, key), now, key, id);
    } else {
      SparingCheckTicks(c, now, key, id);
    }
  }

  lemma OtherRemovedTicks(c: State, c': State, now: int, key: string, id: BucketId)
    requires Registered(c, id) && id in c.signals && key in c.watchers && c.watchers[key].id != id
    requires c'.watchers == c.watchers - {key} && c'.signals == c.signals - {c.watchers[key].id}
    ensures Ticks(c, c', Check(now, key), id)
  {
  }

  lemma SparingCheckTicks(c: State, now: int, key: string, id: BucketId)
    requires Registered(c, id) && id in c.signals && (key in c.watchers ==> !TooIdle(c, c.watchers[key], now))
    requires key in c.watchers && key != Key(id) ==> c.watchers[key].id != id
    ensures Ticks(c, Reap(c, now, key), Check(now, key), id)
  {
  }

  lemma StepOnTheClock(c: State, e: Event, id: BucketId, limit: int, gap: int, due: int)
    requires Inv(c) && OnTheClock(c, id, limit, gap, due) && id in c.live && id in Step(c, e).live
    requires (e.Lookup? ==> Named(e.ns, e.name) != id.slot) && !TakenOver(c, e, id)
    requires e.now <= due && 0 <= c.watchers[Key(id)].maxIdle
    ensures OnTheClock(Step(c, e), id, limit, gap, if e.Check? && e.key == Key(id) then e.now + gap else due)
    ensures Step(c, e).watchers[Key(id)].maxIdle == c.watchers[Key(id)].maxIdle
  {
    StepTicks(c, e, id);
  }

  lemma {:induction false} RunOnTheClock(c: State, es: seq<Event>, id: BucketId, limit: int, gap: int, due: int)
    requires Inv(c) && LegalRun(c, es) && OnTheClock(c, id, limit, gap, due) && id.epoch < c.epoch
    requires id in c.live && 0 <= c.watchers[Key(id)].maxIdle && Timely(es, Key(id), due, gap) && Unasked(es, id.slot)
    requires id in Run(c, es).live && !Unwatched(Run(c, es), id)
    ensures OnTheClock(Run(c, es), id, limit, gap, Due(es, Key(id), due, gap))
    ensures Run(c, es).watchers[Key(id)].maxIdle == c.watchers[Key(id)].maxIdle
  {
    if es != [] {
      var n := |es| - 1;
      var m := Run(c, es[..n]);
      LegalPrefix(c, es, n);
      TimelyPrefix(es, Key(id), due, gap, n);
      AliveBefore(c, es, id);
      RunKeepsInv(c, es[..n]);
      StepLosesWatcherIff(m, es[n], id);
      RunOnTheClock(c, es[..n], id, limit, gap, due);
      StepOnTheClock(m, es[n], id, limit, gap, Due(es[..n], Key(id), due, gap));
    }
  }

  ghost function IdleLimit(c: State, id: BucketId): int
    requires BucketAt(c.shelf, id.slot).Some?
  {
    BucketAt(c.shelf, id.slot).value.cfg.maxIdleMillis * 1_000_000
  }

  lemma WatcherLimit(c: State, id: BucketId)
    requires Inv(c) && Registered(c, id) && WatchedId(c.shelf, id)
    ensures c.watchers[Key(id)].maxIdle == IdleLimit(c, id) && 0 < IdleLimit(c, id)
    ensures id in c.signals && id.epoch < c.epoch && id in c.live && c.watchers[Key(id)].lastActivity <= c.now
  {
    assert WatcherOk(c.shelf, c.epoch, c.watchers[Key(id)]);
  }

  /** From registration on: an idle bucket that keeps its watcher is gone within its idle
      limit and one gap of the first look after registration. */
  lemma RegisteredIsGoneInTime(c: State, es: seq<Event>, id: BucketId, due: int, gap: int)
    requires Inv(c) && LegalRun(c, es) && Registered(c, id) && WatchedId(c.shelf, id)
    requires c.now <= due && 0 <= gap && Timely(es, Key(id), due, gap) && Unasked(es, id.slot)
    ensures id in Run(c, es).live && !Unwatched(Run(c, es), id) ==> Run(c, es).now <= due + IdleLimit(c, id) + gap
  {
    WatcherLimit(c, id);
    if id in Run(c, es).live && !Unwatched(Run(c, es), id) && es != [] {
      var n := |es| - 1;
      var m := Run(c, es[..n]);
      LegalPrefix(c, es, n);
      TimelyPrefix(es, Key(id), due, gap, n);
      AliveBefore(c, es, id);
      RunKeepsInv(c, es[..n]);
      StepLosesWatcherIff(m, es[n], id);
      RunOnTheClock(c, es[..n], id, due, gap, due);
      StepAdvances(m, es[n]);
    }
  }

  /** Promptness. Take any state the container can be in, with a live reapable bucket that
      has a watcher, and any run: a first part in which the queue has moved up to that
      watcher, and a second in which nobody asks for the bucket and the reaper looks at
      its key by `due` and then at least every `gap`. At the end the bucket is gone, or a
      namesake has taken it over, or it is no later than `due` plus the idle limit plus
      one gap. */
  lemma IdleBucketsAreGoneInTime(c: State, lead: seq<Event>, rest: seq<Event>, id: BucketId, due: int, gap: int)
    requires Inv(c) && LegalRun(c, lead + rest) && id in c.live && WatchedId(c.shelf, id) && !Unwatched(c, id)
    requires forall i :: 0 <= i < |c.queue| && c.queue[i].id == id ==> i < Registrations(lead)
    requires Run(c, lead).now <= due && 0 <= gap && Timely(rest, Key(id), due, gap) && Unasked(rest, id.slot)
    ensures id in Run(c, lead + rest).live && !TakenOverIn(c, lead + rest, id) ==>
      Run(c, lead + rest).now <= due + IdleLimit(c, id) + gap
  {
    var es := lead + rest;
    var m := Run(c, lead);
    RunJoin(c, lead, rest);
    LegalJoin(c, lead, rest);
    RunKeepsInv(c, lead);
    EpochGrows(c, lead);
    assert id.epoch < c.epoch;
    if id in Run(c, es).live && !TakenOverIn(c, es, id) {
      AliveThroughout(c, es, id);
      WatcherLostIff(c, es, id);
      AliveThroughout(m, rest, id);
      AliveThroughout(c, lead, id);
      WatcherLostIff(m, rest, id);
      if Queued(m, id) {
        var p :| 0 <= p < |m.queue| && m.queue[p].id == id;
        QueuedBefore(c, lead, id, p);
      }
      WatchedMeans(m, id);
      RegisteredIsGoneInTime(m, rest, id, due, gap);
    }
  }

  // ---- The reaper's own pace --------------------------------------------------------------------

  /** A turn of the server: a step of its own, or a tick of the reaper, which looks at
      every registered watcher once and says how long to sleep. */
  datatype Turn = Act(e: Event) | Tick(now: int, order: seq<string>, sleep: int)

  function TurnEvents(t: Turn): seq<Event> {
    match t
    case Act(e) => [e]
    case Tick(now, order, _) => Checks(now, order)
  }

  function Events(ts: seq<Turn>): seq<Event> {
    if ts == [] then [] else TurnEvents(ts[0]) + Events(ts[1..])
  }

  /** The reaper keeps its own pace: a tick comes by `due`, each next one no later than it
      decided to sleep. */
  ghost predicate Paced(c: State, ts: seq<Turn>, minFrequency: int, due: int)
    decreases ts
  {
    ts != [] ==>
      var c' := Run(c, TurnEvents(ts[0]));
      match ts[0]
      case Act(e) => !e.Check? && Legal(c, e) && e.now <= due && Paced(c', ts[1..], minFrequency, due)
      case Tick(now, order, sleep) =>
        && c.now <= now <= due
        && multiset(order) == multiset(c.watchers.Keys)
        && SleepOk(sleep, minFrequency, c'.watchers, c'.watchers.Keys)
        && Paced(c', ts[1..], minFrequency, now + sleep)
  }

  lemma ChecksAreLegal(c: State, now: int, order: seq<string>)
    requires c.now <= now
    ensures LegalRun(c, Checks(now, order)) && (Run(c, Checks(now, order)).now == if order == [] then c.now else now)
  {
    var es := Checks(now, order);
    LegalAtOneTime(c, es, now);
    if order != [] {
      StepAdvances(Run(c, es[..|es| - 1]), es[|es| - 1]);
    }
  }

  lemma TurnIsLegal(c: State, ts: seq<Turn>, minFrequency: int, due: int)
    requires ts != [] && Paced(c, ts, minFrequency, due)
    ensures LegalRun(c, TurnEvents(ts[0])) && Run(c, TurnEvents(ts[0])).now <= (if c.now <= due then due else c.now)
  {
    match ts[0]
    case Act(e) =>
      assert [e][..0] == [];
      StepAdvances(c, e);
    case Tick(now, order, _) => ChecksAreLegal(c, now, order);
  }

  lemma {:induction false} TurnsAreLegal(c: State, ts: seq<Turn>, minFrequency: int, due: int)
    requires Paced(c, ts, minFrequency, due)
    ensures LegalRun(c, Events(ts))
    decreases ts
  {
    if ts != [] {
      var first := TurnEvents(ts[0]);
      TurnIsLegal(c, ts, minFrequency, due);
      TurnsAreLegal(Run(c, first), ts[1..], minFrequency, NextDue(ts[0], due));
      LegalMeet(c, first, Events(ts[1..]));
    }
  }

  lemma LegalMeet(c: State, lead: seq<Event>, rest: seq<Event>)
    requires LegalRun(c, lead) && LegalRun(Run(c, lead), rest)
    ensures LegalRun(c, lead + rest)
  {
    var es := lead + rest;
    forall i | 0 <= i < |es|
      ensures Legal(Run(c, es[..i]), es[i])
    {
      if i < |lead| {
        assert es[..i] == lead[..i];
      } else {
        assert es[..i] == lead + rest[..i - |lead|];
        RunJoin(c, lead, rest[..i - |lead|]);
      }
    }
  }

  lemma {:induction false} DueAfterChecks(now: int, order: seq<string>, key: string, due: int, gap: int)
    requires now <= due && 0 <= gap
    ensures Timely(Checks(now, order), key, due, gap)
    ensures Due(Checks(now, order), key, due, gap) == if key in order then now + gap else due
    decreases |order|
  {
    if order != [] {
      var n := |order| - 1;
      var es := Checks(now, order);
      DueAfterChecks(now, order[..n], key, due, gap);
      assert es[..n] == Checks(now, order[..n]) && order == order[..n] + [order[n]];
      forall i | 0 <= i < |es|
        ensures es[i].now <= Due(es[..i], key, due, gap)
      {
        if i < n { assert es[..i] == es[..n][..i] && es[i] == es[..n][i]; }
      }
    }
  }

  /** One turn on the clock. */
  lemma TurnOnTheClock(c: State, ts: seq<Turn>, id: BucketId, limit: int, minFrequency: int, due: int)
    requires Inv(c) && ts != [] && Paced(c, ts, minFrequency, due) && Unasked(TurnEvents(ts[0]), id.slot)
    requires 0 <= minFrequency
    requires Registered(c, id) && WatchedId(c.shelf, id)
    requires OnTheClock(c, id, limit, Min(minFrequency, IdleLimit(c, id)), due)
    requires
      var c' := Run(c, TurnEvents(ts[0]));
      id in c'.live && !Unwatched(c', id) && WatchedId(c'.shelf, id) && IdleLimit(c', id) == IdleLimit(c, id)
    ensures
      var c' := Run(c, TurnEvents(ts[0]));
      OnTheClock(c', id, limit, Min(minFrequency, IdleLimit(c, id)), NextDue(ts[0], due))
  {
    var es := TurnEvents(ts[0]);
    var gap := Min(minFrequency, IdleLimit(c, id));
    WatcherLimit(c, id);
    TurnIsLegal(c, ts, minFrequency, due);
    match ts[0] {
      case Act(e) =>
        assert Due(es, Key(id), due, gap) == due && Timely(es, Key(id), due, gap);
      case Tick(now, order, sleep) =>
        DueAfterChecks(now, order, Key(id), due, gap);
        assert Key(id) in multiset(order);
    }
    RunOnTheClock(c, es, id, limit, gap, due);
  }

  /** Registered, on the clock, and not past the last moment. */
  ghost predicate OnTrack(c: State, id: BucketId, limit: int, minFrequency: int, idle: int, due: int) {
    && Registered(c, id) && WatchedId(c.shelf, id) && IdleLimit(c, id) == idle
    && OnTheClock(c, id, limit, Min(minFrequency, idle), due)
    && c.now <= limit + idle + Min(minFrequency, idle)
  }

  function NextDue(t: Turn, due: int): int {
    if t.Tick? then t.now + t.sleep else due
  }

  lemma TurnOnTrack(c: State, ts: seq<Turn>, id: BucketId, limit: int, minFrequency: int, idle: int, due: int)
    requires Inv(c) && ts != [] && Paced(c, ts, minFrequency, due) && 0 <= minFrequency
    requires Unasked(TurnEvents(ts[0]), id.slot) && OnTrack(c, id, limit, minFrequency, idle, due)
    requires
      var m := Run(c, TurnEvents(ts[0]));
      id in m.live && !Unwatched(m, id) && WatchedId(m.shelf, id) && IdleLimit(m, id) == idle
    ensures OnTrack(Run(c, TurnEvents(ts[0])), id, limit, minFrequency, idle, NextDue(ts[0], due))
  {
    WatcherLimit(c, id);
    TurnIsLegal(c, ts, minFrequency, due);
    TurnOnTheClock(c, ts, id, limit, minFrequency, due);
  }

  lemma PacedTail(c: State, ts: seq<Turn>, minFrequency: int, due: int)
    requires ts != [] && Paced(c, ts, minFrequency, due)
    ensures Paced(Run(c, TurnEvents(ts[0])), ts[1..], minFrequency, NextDue(ts[0], due))
  {
  }

  lemma UnaskedParts(lead: seq<Event>, rest: seq<Event>, slot: Slot)
    requires Unasked(lead + rest, slot)
    ensures Unasked(lead, slot) && Unasked(rest, slot)
  {
    assert forall i :: 0 <= i < |lead| ==> lead[i] == (lead + rest)[i];
    assert forall i :: 0 <= i < |rest| ==> rest[i] == (lead + rest)[|lead| + i];
  }

  lemma {:induction false} TurnsOnTrack(c: State, ts: seq<Turn>, id: BucketId, limit: int, minFrequency: int,
                                        idle: int, due: int)
    requires Inv(c) && Paced(c, ts, minFrequency, due) && Unasked(Events(ts), id.slot) && 0 <= minFrequency
    requires OnTrack(c, id, limit, minFrequency, idle, due) && id.epoch < c.epoch
    requires id in Run(c, Events(ts)).live && !Unwatched(Run(c, Events(ts)), id)
    ensures Run(c, Events(ts)).now <= limit + idle + Min(minFrequency, idle)
    decreases ts
  {
    if ts != [] {
      var lead, rest := TurnEvents(ts[0]), Events(ts[1..]);
      RunJoin(c, lead, rest);
      UnaskedParts(lead, rest, id.slot);
      PacedTail(c, ts, minFrequency, due);
      TurnIsLegal(c, ts, minFrequency, due);
      TurnsAreLegal(Run(c, lead), ts[1..], minFrequency, NextDue(ts[0], due));
      WatchedAtTurn(c, lead, rest, id);
      EpochGrows(c, lead);
      TurnOnTrack(c, ts, id, limit, minFrequency, idle, due);
      TurnsOnTrack(Run(c, lead), ts[1..], id, limit, minFrequency, idle, NextDue(ts[0], due));
    }
  }

  /** Promptness without a gap to be given: with the reaper at its own pace, a registered
      bucket that nobody asks for is gone, or taken over, within its idle limit and once
      more the lesser of that and the minimum frequency, counted from the next tick. */
  lemma GoneWithinItsOwnLimits(c: State, ts: seq<Turn>, id: BucketId, minFrequency: int, due: int)
    requires Inv(c) && Paced(c, ts, minFrequency, due) && Unasked(Events(ts), id.slot) && 0 <= minFrequency
    requires Registered(c, id) && WatchedId(c.shelf, id) && c.now <= due
    ensures
      var c' := Run(c, Events(ts));
      id in c'.live && !TakenOverIn(c, Events(ts), id) ==>
        c'.now <= due + IdleLimit(c, id) + Min(minFrequency, IdleLimit(c, id))
  {
    var es := Events(ts);
    WatcherLimit(c, id);
    TurnsAreLegal(c, ts, minFrequency, due);
    if id in Run(c, es).live && !TakenOverIn(c, es, id) {
      AliveThroughout(c, es, id);
      WatcherLostIff(c, es, id);
      TurnsOnTrack(c, ts, id, due, minFrequency, IdleLimit(c, id), due);
    }
  }

  /** A bucket alive and watched at the end is so half-way, and unaltered. */
  lemma WatchedAtTurn(c: State, lead: seq<Event>, rest: seq<Event>, id: BucketId)
    requires Inv(c) && LegalRun(c, lead) && LegalRun(Run(c, lead), rest) && id.epoch < c.epoch && WatchedId(c.shelf, id)
    requires id in Run(Run(c, lead), rest).live && !Unwatched(Run(Run(c, lead), rest), id)
    ensures
      var m := Run(c, lead);
      && Inv(m) && id in m.live && WatchedId(m.shelf, id) && !Unwatched(m, id)
      && BucketAt(m.shelf, id.slot) == BucketAt(c.shelf, id.slot)
  {
    var m := Run(c, lead);
    RunKeepsInv(c, lead);
    EpochGrows(c, lead);
    AliveThroughout(m, rest, id);
    AliveThroughout(c, lead, id);
    WatcherLostIff(m, rest, id);
  }
}
