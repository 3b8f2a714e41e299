// Re-establishing the connection to Redis (buckets/redis/bucket_factory.go:202-278).
//
// Callers that find their client closed report it; one of them starts a handler that
// closes and replaces the client until a ping succeeds. Clients are numbered in the
// order of their creation.
module Reconnect {
  import opened Prelude

  // ---- The delays ----------------------------------------------------------------------

  const CEILING_SECONDS := 180

  function Pow2(n: nat): nat {
    if n == 0 then 1 else 2 * Pow2(n - 1)
  }

  /** The delay after a long sleep: doubled, and back to a second past the ceiling. */
  function NextDelay(delay: int): int {
    if delay * 2 > CEILING_SECONDS then 1 else delay * 2
  }

  lemma Pow2Values()
    ensures Pow2(0) == 1 && Pow2(1) == 2 && Pow2(2) == 4 && Pow2(3) == 8
    ensures Pow2(4) == 16 && Pow2(5) == 32 && Pow2(6) == 64 && Pow2(7) == 128
  {
    assert Pow2(2) == 2 * Pow2(1) && Pow2(3) == 2 * Pow2(2) && Pow2(4) == 2 * Pow2(3);
    assert Pow2(5) == 2 * Pow2(4) && Pow2(6) == 2 * Pow2(5) && Pow2(7) == 2 * Pow2(6);
  }

  /** The delays run through the powers of two from one to 128 seconds, over and over. */
  lemma DelaySchedule(k: nat)
    ensures 1 <= Pow2(k % 8) <= 128 <= CEILING_SECONDS
    ensures NextDelay(Pow2(k % 8)) == Pow2((k + 1) % 8)
  {
    Pow2Values();
    assert k % 8 in {0, 1, 2, 3, 4, 5, 6, 7};
  }

  // ---- The protocol -----------------------------------------------------------------------

  datatype Phase = Reconnecting | Fetching | Pinging | Sleeping | Finishing

  /** A handler: the client it will pass on, where it is, how many attempts it has left,
      how many long sleeps it has made and how long the next one is. */
  datatype Handler = Handler(client: nat, phase: Phase, attempts: int, sleeps: nat, delay: int)

  /** The factory's fields, all handlers running, the clients made and closed so far,
      and how many handlers have been started. */
  datatype Factory = Factory(
    client: nat,
    needsResolution: bool,
    resolved: nat,
    handlers: seq<Handler>,
    made: nat,
    closed: set<nat>,
    started: nat)

  const CONNECTED: Factory := Factory(0, false, 0, [], 1, {}, 0)

  datatype Action =
    | Fail(client: nat)
    | Close
    | Reconnect(h: nat)
    | Fetch(h: nat)
    | Ping(h: nat, ok: bool)
    | LongSleep(h: nat)
    | Finish(h: nat)

  ghost predicate Enabled(f: Factory, a: Action) {
    match a
    case Fail(c) => c < f.made
    case Close => true
    case Reconnect(h) => h < |f.handlers| && f.handlers[h].phase.Reconnecting?
    case Fetch(h) => h < |f.handlers| && f.handlers[h].phase.Fetching?
    case Ping(h, ok) => h < |f.handlers| && f.handlers[h].phase.Pinging? && (ok ==> f.handlers[h].client !in f.closed)
    case LongSleep(h) => h < |f.handlers| && f.handlers[h].phase.Sleeping?
    case Finish(h) => h < |f.handlers| && f.handlers[h].phase.Finishing?
  }

  /** A failure is acted on if it is about the current client and no handler runs. */
  function HandleFailure(f: Factory, c: nat, retries: int): Factory {
    if c == f.client && !f.needsResolution then
      f.(needsResolution := true, handlers := f.handlers + [Handler(c, Reconnecting, retries, 0, 1)],
        started := f.started + 1)
    else f
  }

  /** The current client is always closed, and replaced if it is the one passed in. */
  function Replace(f: Factory, oldClient: nat): Factory {
    var f' := f.(closed := f.closed + {f.client});
    if oldClient == f.client then f'.(client := f.made, made := f.made + 1) else f'
  }

  function Do(f: Factory, retries: int, a: Action): Factory
    requires a.Reconnect? || a.Fetch? || a.Ping? || a.LongSleep? || a.Finish? ==> a.h < |f.handlers|
  {
    match a
    case Fail(c) => HandleFailure(f, c, retries)
    case Close => f.(closed := f.closed + {f.client})
    case Reconnect(h) =>
      var d := f.handlers[h];
      Replace(f, d.client).(handlers := f.handlers[h := d.(phase := Fetching, attempts := d.attempts - 1)])
    case Fetch(h) => f.(handlers := f.handlers[h := f.handlers[h].(phase := Pinging, client := f.client)])
    case Ping(h, ok) =>
      var d := f.handlers[h];
      f.(handlers := f.handlers[h := d.(phase := if ok then Finishing else if d.attempts > 0 then Reconnecting
        else Sleeping)])
    case LongSleep(h) =>
      var d := f.handlers[h];
      f.(handlers := f.handlers[h := d.(phase := Reconnecting, attempts := retries, sleeps := d.sleeps + 1,
        delay := NextDelay(d.delay))])
    case Finish(h) =>
      f.(needsResolution := false, resolved := f.resolved + 1, handlers := f.handlers[..h] + f.handlers[h + 1..])
  }

  /** The factory after a sequence of steps; a step that is not enabled does nothing. */
  ghost function Play(f: Factory, retries: int, acts: seq<Action>): Factory {
    if acts == [] then f
    else
      var g := Play(f, retries, acts[..|acts| - 1]);
      if Enabled(g, acts[|acts| - 1]) then Do(g, retries, acts[|acts| - 1]) else g
  }

  ghost function After(retries: int, acts: seq<Action>): Factory {
    Play(CONNECTED, retries, acts)
  }

  /** Every step is enabled in its turn. */
  ghost predicate Possible(f: Factory, retries: int, acts: seq<Action>) {
    acts == [] ||
    (Possible(f, retries, acts[..|acts| - 1]) && Enabled(Play(f, retries, acts[..|acts| - 1]), acts[|acts| - 1]))
  }

  lemma {:induction false} PlaySnoc(f: Factory, retries: int, acts: seq<Action>, a: Action)
    requires Possible(f, retries, acts) && Enabled(Play(f, retries, acts), a)
    ensures Possible(f, retries, acts + [a]) && Play(f, retries, acts + [a]) == Do(Play(f, retries, acts), retries, a)
  {
    assert (acts + [a])[..|acts|] == acts;
  }

  ghost predicate HandlerOk(f: Factory, retries: int, d: Handler) {
    && (!d.phase.Fetching? ==> d.client == f.client)
    && d.delay == Pow2(d.sleeps % 8)
    && 0 <= d.attempts <= retries && (d.phase.Reconnecting? ==> 1 <= d.attempts)
  }

  /** At most one handler runs, exactly while the flag is up, on the current client; and
      every client but the current one has been closed. */
  ghost predicate Inv(f: Factory, retries: int) {
    && |f.handlers| == (if f.needsResolution then 1 else 0)
    && (forall h :: 0 <= h < |f.handlers| ==> HandlerOk(f, retries, f.handlers[h]))
    && f.client < f.made
    && (forall c :: 0 <= c < f.made && c != f.client ==> c in f.closed)
    && (forall c :: c in f.closed ==> c < f.made)
    && f.started == f.resolved + |f.handlers|
  }

  lemma StepKeepsInv(f: Factory, retries: int, a: Action)
    requires 1 <= retries && Inv(f, retries) && Enabled(f, a)
    ensures Inv(Do(f, retries, a), retries)
  {
    if a.LongSleep? {
      DelaySchedule(f.handlers[a.h].sleeps);
    }
    if a.Fail? {
      Pow2Values();
    }
  }

  /** In every run there is at most one handler; it works on the current client and
      sleeps for a power of two of seconds within the ceiling; and no client is
      abandoned unclosed. */
  lemma {:induction false} OneHandlerAtATime(retries: int, acts: seq<Action>)
    requires 1 <= retries
    ensures Inv(After(retries, acts), retries)
  {
    if acts != [] {
      var n := |acts| - 1;
      OneHandlerAtATime(retries, acts[..n]);
      var f := After(retries, acts[..n]);
      if Enabled(f, acts[n]) {
        StepKeepsInv(f, retries, acts[n]);
      }
    }
  }

  /** Whatever happened before, a handler's next reconnection closes the client it was
      given, which is the current one, and leaves an open one that nobody has seen. */
  lemma ReconnectionReplaces(retries: int, acts: seq<Action>, h: nat)
    requires 1 <= retries && Enabled(After(retries, acts), Reconnect(h))
    ensures
      var f := After(retries, acts);
      var f' := Do(f, retries, Reconnect(h));
      && h == 0 && f.handlers[h].client == f.client
      && f.client in f'.closed && f'.client == f.made && f'.client !in f'.closed
      && f'.closed == f.closed + {f.client}
  {
    OneHandlerAtATime(retries, acts);
    var f := After(retries, acts);
    assert HandlerOk(f, retries, f.handlers[h]);
  }

  /** A failure starts a handler exactly when it is about the current client and none is
      running; a late report about a replaced client changes nothing. */
  lemma FailureStartsHandlerIff(retries: int, acts: seq<Action>, c: nat)
    requires 1 <= retries && c < After(retries, acts).made
    ensures
      var f := After(retries, acts);
      var f' := Do(f, retries, Fail(c));
      && (f'.started == f.started + 1 <==> c == f.client && f.handlers == [])
      && (c != f.client ==> f' == f && c in f.closed)
  {
    OneHandlerAtATime(retries, acts);
  }

  /** When a handler finishes, the current client is the one it has pinged with success,
      and the next failure can start a new handler. */
  lemma FinishedOnCurrentClient(retries: int, acts: seq<Action>, h: nat)
    requires 1 <= retries && Enabled(After(retries, acts), Finish(h))
    ensures
      var f := After(retries, acts);
      var f' := Do(f, retries, Finish(h));
      f.handlers[h].client == f.client == f'.client && f'.handlers == [] && !f'.needsResolution &&
        f'.started == f'.resolved
  {
    OneHandlerAtATime(retries, acts);
    var f := After(retries, acts);
    assert HandlerOk(f, retries, f.handlers[h]);
  }

  // ---- Runs of a handler -------------------------------------------------------------------

  /** Steps and where they lead. */
  datatype Trace = Trace(acts: seq<Action>, end: Factory)

  /** A run of the protocol from `f`. */
  ghost predicate Follows(f: Factory, retries: int, t: Trace) {
    match t
    case Trace(acts, end) => Possible(f, retries, acts) && end == Play(f, retries, acts)
  }

  /** Only clients that have been made are current or closed. */
  ghost predicate WellMade(f: Factory) {
    f.client < f.made && forall c :: c in f.closed ==> c < f.made
  }

  lemma Extended(f: Factory, retries: int, t: Trace, a: Action)
    requires Follows(f, retries, t) && Enabled(t.end, a)
    ensures Follows(f, retries, Extend(t, retries, a))
  {
    PlaySnoc(f, retries, t.acts, a);
  }

  ghost function Extend(t: Trace, retries: int, a: Action): Trace
    requires Enabled(t.end, a)
  {
    Trace(t.acts + [a], Do(t.end, retries, a))
  }

  /** The single handler of a factory. */
  ghost predicate Handling(f: Factory, client: nat, phase: Phase, attempts: int, sleeps: nat, delay: int) {
    f.handlers == [Handler(client, phase, attempts, sleeps, delay)] && f.needsResolution
  }

  /** The factory as its object shows it, handlers apart. */
  ghost predicate SameFields(f: Factory, g: Factory) {
    f.client == g.client && f.needsResolution == g.needsResolution && f.resolved == g.resolved && f.made == g.made &&
      f.closed == g.closed
  }

  /** One attempt is a reconnect, a fetch and a ping. */
  lemma StepsOfAttempt(g: Factory, retries: int, attempts: int, sleeps: nat, delay: int, ok: bool)
    requires WellMade(g) && Handling(g, g.client, Reconnecting, attempts, sleeps, delay)
    ensures
      var g1 := Do(g, retries, Reconnect(0));
      && Enabled(g, Reconnect(0)) && Enabled(g1, Fetch(0)) && SameFields(g1, Replace(g, g.client))
      && var g2 := Do(g1, retries, Fetch(0));
         && Enabled(g2, Ping(0, ok)) && SameFields(g2, g1)
         && var g3 := Do(g2, retries, Ping(0, ok));
            && SameFields(g3, g2) && WellMade(g3)
            && Handling(g3, g3.client, PhaseAfter(ok, attempts - 1), attempts - 1, sleeps, delay)
  {
  }

  /** Where a ping leaves the handler. */
  function PhaseAfter(ok: bool, attempts: int): Phase {
    if ok then Finishing else if attempts > 0 then Reconnecting else Sleeping
  }

  lemma Attempted(f: Factory, retries: int, t: Trace, attempts: int, sleeps: nat, delay: int,
                  ok: bool) returns (t': Trace)
    requires Follows(f, retries, t) && WellMade(t.end)
    requires Handling(t.end, t.end.client, Reconnecting, attempts, sleeps, delay)
    ensures Follows(f, retries, t') && WellMade(t'.end) && SameFields(t'.end, Replace(t.end, t.end.client))
    ensures Handling(t'.end, t'.end.client, PhaseAfter(ok, attempts - 1), attempts - 1, sleeps, delay)
  {
    StepsOfAttempt(t.end, retries, attempts, sleeps, delay, ok);
    Extended(f, retries, t, Reconnect(0));
    var t1 := Extend(t, retries, Reconnect(0));
    Extended(f, retries, t1, Fetch(0));
    var t2 := Extend(t1, retries, Fetch(0));
    Extended(f, retries, t2, Ping(0, ok));
    t' := Extend(t2, retries, Ping(0, ok));
  }

  lemma StepOfSleep(g: Factory, retries: int, sleeps: nat, delay: int)
    requires Handling(g, g.client, Sleeping, 0, sleeps, delay)
    ensures
      var g' := Do(g, retries, LongSleep(0));
      Enabled(g, LongSleep(0)) && SameFields(g', g) &&
        Handling(g', g.client, Reconnecting, retries, sleeps + 1, NextDelay(delay))
  {
  }

  lemma Slept(f: Factory, retries: int, t: Trace, sleeps: nat, delay: int) returns (t': Trace)
    requires Follows(f, retries, t) && Handling(t.end, t.end.client, Sleeping, 0, sleeps, delay)
    ensures Follows(f, retries, t') && SameFields(t'.end, t.end)
    ensures Handling(t'.end, t.end.client, Reconnecting, retries, sleeps + 1, NextDelay(delay))
  {
    StepOfSleep(t.end, retries, sleeps, delay);
    Extended(f, retries, t, LongSleep(0));
    t' := Extend(t, retries, LongSleep(0));
  }

  lemma Finished(f: Factory, retries: int, t: Trace, attempts: int, sleeps: nat, delay: int) returns (t': Trace)
    requires Follows(f, retries, t) && Handling(t.end, t.end.client, Finishing, attempts, sleeps, delay)
    ensures Follows(f, retries, t')
    ensures SameFields(t'.end, t.end.(needsResolution := false, resolved := t.end.resolved + 1))
  {
    Extended(f, retries, t, Finish(0));
    t' := Extend(t, retries, Finish(0));
  }

  /** How attempts, sleeps and delays go together: a full round of attempts before each
      sleep, and the i-th sleep of 2^(i mod 8) seconds. */
  ghost predicate Pace(retries: int, tried: int, attempts: int, sleeps: seq<int>, delay: int) {
    && 0 <= attempts <= retries && tried == retries * |sleeps| + (retries - attempts)
    && delay == Pow2(|sleeps| % 8)
    && forall i :: 0 <= i < |sleeps| ==> sleeps[i] == Pow2(i % 8) && 1 <= sleeps[i] <= CEILING_SECONDS
  }

  lemma PaceSleeps(retries: int, tried: int, sleeps: seq<int>, delay: int)
    requires Pace(retries, tried, 0, sleeps, delay)
    ensures Pace(retries, tried, retries, sleeps + [delay], NextDelay(delay))
  {
    DelaySchedule(|sleeps|);
    Distribute(retries, |sleeps|, 1);
  }

  lemma PaceTries(retries: int, tried: int, attempts: int, sleeps: seq<int>, delay: int)
    requires Pace(retries, tried, attempts, sleeps, delay) && 0 < attempts
    ensures Pace(retries, tried + 1, attempts - 1, sleeps, delay)
  {
  }

  lemma PaceStarts(retries: int)
    requires 1 <= retries
    ensures Pace(retries, 0, retries, [], 1)
  {
    assert Pow2(0) == 1;
  }

  /** The first `tried` answers were failures, but for the last one if connected. */
  ghost predicate Heard(pings: seq<bool>, tried: nat, connected: bool) {
    && tried <= |pings|
    && (connected ==> 0 < tried && pings[tried - 1] && forall i :: 0 <= i < tried - 1 ==> !pings[i])
    && (!connected ==> forall i :: 0 <= i < tried ==> !pings[i])
  }

  lemma HeardNext(pings: seq<bool>, tried: nat)
    requires Heard(pings, tried, false) && tried < |pings|
    ensures Heard(pings, tried + 1, pings[tried])
  {
  }

  // ---- The factory object ------------------------------------------------------------------

  class BucketFactory {
    var client: nat
    var connectionNeedsResolution: bool
    var numTimesConnResolved: nat
    const connectionRetries: int
    // The next client to be made.
    var nextClient: nat
    ghost var closed: set<nat>

    constructor (connectionRetries: int)
      ensures client == 0 && nextClient == 1 && !connectionNeedsResolution && numTimesConnResolved == 0 && closed == {}
      ensures this.connectionRetries == if connectionRetries < 1 then 1 else connectionRetries
    {
      this.connectionRetries := if connectionRetries < 1 then 1 else connectionRetries;
      client, connectionNeedsResolution, numTimesConnResolved, nextClient, closed := 0, false, 0, 1, {};
    }

    ghost predicate Shows(f: Factory)
      reads this
    {
      && client == f.client && connectionNeedsResolution == f.needsResolution && numTimesConnResolved == f.resolved
      && nextClient == f.made && closed == f.closed
    }

    method HandleConnectionFailure(oldClient: nat, ghost f: Factory) returns (start: bool)
      requires Shows(f)
      modifies this`connectionNeedsResolution
      ensures Shows(HandleFailure(f, oldClient, connectionRetries))
      ensures start == (HandleFailure(f, oldClient, connectionRetries).started == f.started + 1)
    {
      start := oldClient == client && !connectionNeedsResolution;
      if start {
        connectionNeedsResolution := true;
      }
    }

    method ReconnectToRedis(oldClient: nat)
      modifies this`client, this`nextClient, this`closed
      ensures forall f :: old(Shows(f)) ==> Shows(Replace(f, oldClient))
      ensures client == if oldClient == old(client) then old(nextClient) else old(client)
      ensures nextClient == if oldClient == old(client) then old(nextClient) + 1 else old(nextClient)
      ensures closed == old(closed) + {old(client)}
    {
      closed := closed + {client};
      if oldClient == client {
        client, nextClient := nextClient, nextClient + 1;
      }
    }

    /** One attempt of the handler: the client is closed and replaced. */
    method TryOnce(current: nat, ghost f: Factory, ghost run: Trace, ghost attempts: int, ghost sleeps: nat,
                   ghost delay: int, ghost ok: bool)
      returns (ghost run': Trace)
      requires Follows(f, connectionRetries, run) && WellMade(run.end) && Shows(run.end) && current == client
      requires Handling(run.end, client, Reconnecting, attempts, sleeps, delay)
      modifies this`client, this`nextClient, this`closed
      ensures Follows(f, connectionRetries, run') && WellMade(run'.end) && Shows(run'.end)
      ensures client == old(nextClient) && nextClient == old(nextClient) + 1
      ensures Handling(run'.end, client, PhaseAfter(ok, attempts - 1), attempts - 1, sleeps, delay)
    {
      run' := Attempted(f, connectionRetries, run, attempts, sleeps, delay, ok);
      ReconnectToRedis(current);
    }

    /** The handler. `pings` are the answers of the network, for as long as it is watched.
        Every attempt makes a new client; after each round of failed attempts there is a long
        sleep, the i-th one of 2^(i mod 8) seconds; the first success ends it all. What it
        does is a run of the protocol. */
    method EstablishNewConnection(oldClient: nat, pings: seq<bool>, ghost f: Factory)
      returns (connected: bool, sleeps: seq<int>, tried: nat, ghost attempts: nat, ghost delay: int, ghost run: Trace)
      requires 1 <= connectionRetries && Shows(f) && f.needsResolution && WellMade(f)
      requires oldClient == client && f.handlers == [Handler(oldClient, Reconnecting, connectionRetries, 0, 1)]
      modifies this
      ensures client == if tried == 0 then old(client) else old(nextClient) + tried - 1
      ensures Heard(pings, tried, connected) && (!connected ==> tried == |pings|)
      ensures connectionNeedsResolution == !connected
      ensures numTimesConnResolved == old(numTimesConnResolved) + if connected then 1 else 0
      ensures Pace(connectionRetries, tried, attempts, sleeps, delay)
      ensures Follows(f, connectionRetries, run) && Shows(run.end)
    {
      var current := oldClient;
      var exponentialDelay := 1;
      var attemptsRemaining := connectionRetries;
      connected, sleeps, tried, run := false, [], 0, Trace([], f);
      PaceStarts(connectionRetries);
      while !connected && tried < |pings|
        invariant Heard(pings, tried, connected) && numTimesConnResolved == old(numTimesConnResolved)
        invariant current == client == (if tried == 0 then old(client) else old(nextClient) + tried - 1)
        invariant nextClient == old(nextClient) + tried
        invariant Pace(connectionRetries, tried, attemptsRemaining, sleeps, exponentialDelay)
        invariant Follows(f, connectionRetries, run) && WellMade(run.end) && Shows(run.end) && connectionNeedsResolution
        invariant Handling(run.end, client, PhaseAfter(connected, attemptsRemaining), attemptsRemaining, |sleeps|,
          exponentialDelay)
        decreases |pings| - tried, if attemptsRemaining == 0 then 1 else 0
      {
        if attemptsRemaining == 0 {
          run := Slept(f, connectionRetries, run, |sleeps|, exponentialDelay);
          PaceSleeps(connectionRetries, tried, sleeps, exponentialDelay);
          sleeps := sleeps + [exponentialDelay];
          exponentialDelay := exponentialDelay * 2;
          if exponentialDelay > CEILING_SECONDS {
            exponentialDelay := 1;
          }
          attemptsRemaining := connectionRetries;
        } else {
          run := TryOnce(current, f, run, attemptsRemaining, |sleeps|, exponentialDelay, pings[tried]);
          PaceTries(connectionRetries, tried, attemptsRemaining, sleeps, exponentialDelay);
          HeardNext(pings, tried);
          attemptsRemaining := attemptsRemaining - 1;
          current := client;
          connected := pings[tried];
          tried := tried + 1;
        }
      }
      attempts, delay := attemptsRemaining, exponentialDelay;
      if connected {
        run := Finished(f, connectionRetries, run, attemptsRemaining, |sleeps|, exponentialDelay);
        connectionNeedsResolution := false;
        numTimesConnResolved := numTimesConnResolved + 1;
      }
    }
  }
}
