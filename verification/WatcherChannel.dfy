// The channel that carries new watchers to the reaper (reaper.go:85-157, bucket.go:203-292).
//
// `Container` lets that queue grow without bound. In the program it has room for so many
// watchers, a lookup that makes a bucket sends while it holds the lock of the namespace,
// and the reaper, in the middle of a tick, waits for that lock and receives nothing. This
// module shows exactly when the two wait for each other for good.
module WatcherChannel {

  // ---- Steps -----------------------------------------------------------------------------

  /** The reaper receives, or is at a tick with the namespaces of idle buckets still to be
      removed from. */
  datatype Reaper = Receiving | Ticking(todo: seq<string>)

  /** The watchers in the channel, the namespaces whose locks are held by lookups about to
      send, and the reaper. */
  datatype Channel = Channel(queued: nat, senders: set<string>, reaper: Reaper)

  const EMPTY: Channel := Channel(0, {}, Receiving)

  datatype Step =
    | Lock(ns: string)
    | Send(ns: string)
    | Receive
    | Tick(idle: seq<string>)
    | Remove
    | EndTick

  /** A send needs room, or a reaper waiting at an empty channel. */
  predicate Enabled(c: Channel, capacity: nat, t: Step) {
    match t
    case Lock(k) => k !in c.senders
    case Send(k) => k in c.senders && (c.queued < capacity || (c.queued == 0 && c.reaper.Receiving?))
    case Receive => c.reaper.Receiving? && c.queued > 0
    case Tick(_) => c.reaper.Receiving?
    case Remove => c.reaper.Ticking? && c.reaper.todo != [] && c.reaper.todo[0] !in c.senders
    case EndTick => c.reaper == Ticking([])
  }

  /** A watcher that finds no room is handed over directly. */
  function Do(c: Channel, capacity: nat, t: Step): Channel
    requires Enabled(c, capacity, t)
  {
    match t
    case Lock(k) => c.(senders := c.senders + {k})
    case Send(k) => c.(queued := if c.queued < capacity then c.queued + 1 else c.queued, senders := c.senders - {k})
    case Receive => c.(queued := c.queued - 1)
    case Tick(idle) => c.(reaper := Ticking(idle))
    case Remove => c.(reaper := Ticking(c.reaper.todo[1..]))
    case EndTick => c.(reaper := Receiving)
  }

  predicate Possible(c: Channel, capacity: nat, ts: seq<Step>)
    decreases ts
  {
    ts == [] || (Enabled(c, capacity, ts[0]) && Possible(Do(c, capacity, ts[0]), capacity, ts[1..]))
  }

  function After(c: Channel, capacity: nat, ts: seq<Step>): Channel
    requires Possible(c, capacity, ts)
    decreases ts
  {
    if ts == [] then c else After(Do(c, capacity, ts[0]), capacity, ts[1..])
  }

  // ---- Deadlock ---------------------------------------------------------------------------

  /** The reaper waits for a lock whose holder waits for room. */
  ghost predicate Deadlocked(c: Channel, capacity: nat) {
    c.reaper.Ticking? && c.reaper.todo != [] && c.reaper.todo[0] in c.senders && c.queued == capacity
  }

  /** A step by which the reaper gets on with its tick or its queue, or a lookup gets rid
      of its watcher. */
  predicate GetsOn(t: Step) {
    t.Send? || t.Receive? || t.Remove? || t.EndTick?
  }

  /** Nothing left to do: the reaper is at rest and no lookup is about to send. */
  predicate AtRest(c: Channel) {
    c.senders == {} && c.queued == 0 && c.reaper.Receiving?
  }

  lemma {:induction false} NeverOverfull(c: Channel, capacity: nat, ts: seq<Step>)
    requires c.queued <= capacity && Possible(c, capacity, ts)
    ensures After(c, capacity, ts).queued <= capacity
    decreases ts
  {
    if ts != [] {
      NeverOverfull(Do(c, capacity, ts[0]), capacity, ts[1..]);
    }
  }

  /** In every state that is not at rest somebody can get on, except in a deadlock, where
      nobody can. */
  lemma StuckIffDeadlocked(c: Channel, capacity: nat)
    requires c.queued <= capacity && !AtRest(c)
    ensures (exists t :: GetsOn(t) && Enabled(c, capacity, t)) <==> !Deadlocked(c, capacity)
  {
    if !Deadlocked(c, capacity) {
      if c.reaper.Receiving? {
        if c.queued > 0 {
          assert GetsOn(Receive) && Enabled(c, capacity, Receive);
        } else {
          var k :| k in c.senders;
          assert GetsOn(Send(k)) && Enabled(c, capacity, Send(k));
        }
      } else if c.reaper.todo == [] {
        assert GetsOn(EndTick) && Enabled(c, capacity, EndTick);
      } else if c.reaper.todo[0] !in c.senders {
        assert GetsOn(Remove) && Enabled(c, capacity, Remove);
      } else {
        assert GetsOn(Send(c.reaper.todo[0])) && Enabled(c, capacity, Send(c.reaper.todo[0]));
      }
    }
  }

  /** With room in the channel no lookup waits to send, and the reaper waits for nobody but
      a lookup that can. */
  lemma RoomMeansNoWaiting(c: Channel, capacity: nat, k: string)
    requires c.queued < capacity
    ensures k in c.senders ==> Enabled(c, capacity, Send(k))
    ensures c.reaper.Ticking? && c.reaper.todo != [] && !Enabled(c, capacity, Remove) ==>
      Enabled(c, capacity, Send(c.reaper.todo[0])) &&
        (c.reaper.todo[0] !in Do(c, capacity, Send(c.reaper.todo[0])).senders)
  {
  }

  /** A deadlock is for good: whatever else happens, the reaper stays where it is, the
      channel stays full and no lock is given up; all that can happen is that lookups
      lock further namespaces and wait as well. */
  lemma {:induction false} DeadlockIsForGood(c: Channel, capacity: nat, ts: seq<Step>)
    requires Deadlocked(c, capacity) && Possible(c, capacity, ts)
    ensures
      var c' := After(c, capacity, ts);
      Deadlocked(c', capacity) && c'.reaper == c.reaper && c'.queued == c.queued && c.senders <= c'.senders
    ensures forall i :: 0 <= i < |ts| ==> ts[i].Lock?
    decreases ts
  {
    if ts != [] {
      assert ts[0].Lock?;
      DeadlockIsForGood(Do(c, capacity, ts[0]), capacity, ts[1..]);
      assert forall i :: 0 < i < |ts| ==> ts[i] == ts[1..][i - 1];
    }
  }

  // ---- It happens at the bound, and no sooner ------------------------------------------------

  function Sends(ts: seq<Step>): nat {
    if ts == [] then 0 else (if ts[0].Send? then 1 else 0) + Sends(ts[1..])
  }

  /** Without as many sends as there was room for there is no deadlock. */
  lemma {:induction false} DeadlockTakesSends(c: Channel, capacity: nat, ts: seq<Step>)
    requires c.queued <= capacity && Possible(c, capacity, ts) && Deadlocked(After(c, capacity, ts), capacity)
    ensures capacity - c.queued <= Sends(ts)
    decreases ts
  {
    if ts != [] {
      DeadlockTakesSends(Do(c, capacity, ts[0]), capacity, ts[1..]);
    }
  }

  /** Lookups in one namespace, one after the other, each making a bucket. */
  function Makes(k: string, n: nat): seq<Step> {
    if n == 0 then [] else [Lock(k), Send(k)] + Makes(k, n - 1)
  }

  /** A tick that is about to remove from `k`, as many new buckets there as the channel has
      room for, and one more. */
  function Jam(k: string, n: nat): seq<Step> {
    [Tick([k])] + (Makes(k, n) + [Lock(k)])
  }

  lemma {:induction false} MakesFill(c: Channel, capacity: nat, k: string, n: nat)
    requires c.reaper == Ticking([k]) && k !in c.senders && c.queued + n == capacity
    ensures
      var ts := Makes(k, n) + [Lock(k)];
      Possible(c, capacity, ts) && Deadlocked(After(c, capacity, ts), capacity) && Sends(ts) == n
    decreases n
  {
    var ts := Makes(k, n) + [Lock(k)];
    if n == 0 {
      assert ts == [Lock(k)] && ts[1..] == [];
      assert Sends(ts[1..]) == 0;
    } else {
      var c1 := Do(c, capacity, Lock(k));
      var c2 := Do(c1, capacity, Send(k));
      var rest := Makes(k, n - 1) + [Lock(k)];
      MakesFill(c2, capacity, k, n - 1);
      assert ts[0] == Lock(k) && ts[1..] == [Send(k)] + rest && ts[1..][1..] == rest;
      assert Possible(c1, capacity, ts[1..]) && After(c1, capacity, ts[1..]) == After(c2, capacity, rest);
      assert Sends(ts[1..]) == 1 + Sends(rest);
    }
  }

  /** The program can get there from start-up, whatever the capacity, with exactly as many
      sends as the channel has room for. */
  lemma DeadlockHappens(capacity: nat, k: string)
    ensures Possible(EMPTY, capacity, Jam(k, capacity))
    ensures Deadlocked(After(EMPTY, capacity, Jam(k, capacity)), capacity)
    ensures Sends(Jam(k, capacity)) == capacity
  {
    MakesFill(EMPTY.(reaper := Ticking([k])), capacity, k, capacity);
    assert Jam(k, capacity)[1..] == Makes(k, capacity) + [Lock(k)];
  }
}
