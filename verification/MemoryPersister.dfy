// A single server over the in-memory persister (config/memory_persister.go,
// config/internal/notifier.go, server.go:193-238): a stored configuration, a
// one-slot notification channel and a listener.
module MemoryPersister {
  import opened Prelude
  import opened Config
  import opened ConfigPropagation

  // ---- The objects ----------------------------------------------------------------------

  /** A channel with room for one notification; further ones coalesce. */
  class Notifier {
    var pending: bool

    constructor ()
      ensures !pending
    {
      pending := false;
    }

    method Notify()
      modifies this
      ensures pending
    {
      if !pending {
        pending := true;
      }
    }

    method Receive() returns (received: bool)
      modifies this
      ensures received == old(pending) && !pending
    {
      received := pending;
      pending := false;
    }
  }

  class Persister {
    var stored: Option<ServiceConfig>
    const notifier: Notifier

    /** The protocol's view of this object between writes. */
    ghost predicate Shows(m: Memory)
      reads this, notifier
    {
      stored == Some(m.stored) && notifier.pending == m.slot && !m.locked
    }

    constructor ()
      ensures stored == None && fresh(notifier) && notifier.pending
    {
      stored := None;
      var n := new Notifier();
      n.Notify();
      notifier := n;
    }

    /** A write is the protocol's store and notify steps, the first write included. */
    method PersistAndNotify(cfg: ServiceConfig, ghost m: Memory)
      requires !m.locked && notifier.pending == m.slot
      modifies this`stored, notifier
      ensures Shows(Perform(Perform(m, Store(cfg)), Notify))
    {
      stored := Some(cfg);
      notifier.Notify();
    }

    /** A woken listener reads what the protocol's fetch step hands it. */
    method ReadPersistedConfig(ghost m: Memory) returns (r: Option<ServiceConfig>)
      requires stored.Some? ==> Shows(m) && m.listener.Woken?
      ensures r == stored
      ensures r.Some? ==> Perform(m, Fetch).listener == Holding(r.value)
    {
      r := stored;
    }
  }

  // ---- The interleavings ------------------------------------------------------------------

  /** `locked` while a writer has stored its configuration and not yet notified. */
  datatype Memory = Memory(
    stored: ServiceConfig,
    locked: bool,
    slot: bool,
    listener: Listener,
    applied: Option<ServiceConfig>)

  datatype Move = Store(cfg: ServiceConfig) | Notify | Receive | Fetch | Install

  /** Only a strictly higher version replaces the configuration in use. */
  function Newer(a: Option<ServiceConfig>, c: ServiceConfig): Option<ServiceConfig> {
    if a.Some? && c.version <= a.value.version then a else Some(c)
  }

  predicate Enabled(m: Memory, v: Move) {
    match v
    case Store(_) => !m.locked
    case Notify => m.locked
    case Receive => m.listener.Waiting? && m.slot
    case Fetch => m.listener.Woken? && !m.locked
    case Install => m.listener.Holding?
  }

  function Perform(m: Memory, v: Move): Memory
    requires Enabled(m, v)
  {
    match v
    case Store(c) => m.(stored := c, locked := true)
    case Notify => m.(locked := false, slot := true)
    case Receive => m.(slot := false, listener := Woken)
    case Fetch => m.(listener := Holding(m.stored))
    case Install =>
      m.(applied := Newer(m.applied, m.listener.cfg), listener := Waiting)
  }

  predicate Possible(m: Memory, moves: seq<Move>)
    decreases moves
  {
    moves == [] || (Enabled(m, moves[0]) && Possible(Perform(m, moves[0]), moves[1..]))
  }

  function After(m: Memory, moves: seq<Move>): Memory
    requires Possible(m, moves)
    decreases moves
  {
    if moves == [] then m else After(Perform(m, moves[0]), moves[1..])
  }

  // ---- No lost wake-up -----------------------------------------------------------------------

  ghost predicate Coming(m: Memory) {
    m.slot || m.locked
  }

  /** If what is applied is older than what is stored, the listener is at work or has a
      notification coming. */
  ghost predicate Awake(m: Memory) {
    match m.listener
    case Waiting => (m.applied.None? || m.applied.value.version < m.stored.version) ==> Coming(m)
    case Woken => true
    case Holding(c) => c.version < m.stored.version ==> Coming(m)
  }

  lemma {:induction false} NoLostWakeUp(m: Memory, moves: seq<Move>)
    requires Awake(m) && Possible(m, moves)
    ensures Awake(After(m, moves))
    decreases moves
  {
    if moves != [] {
      NoLostWakeUp(Perform(m, moves[0]), moves[1..]);
    }
  }

  /** The applied version never decreases, whatever is stored. */
  lemma {:induction false} AppliedNeverDecreases(m: Memory, moves: seq<Move>)
    requires m.applied.Some? && Possible(m, moves)
    ensures After(m, moves).applied.Some?
    ensures After(m, moves).applied == m.applied || m.applied.value.version < After(m, moves).applied.value.version
    decreases moves
  {
    if moves != [] {
      AppliedNeverDecreases(Perform(m, moves[0]), moves[1..]);
    }
  }

  ghost predicate Quiet(m: Memory) {
    !m.locked && !m.slot && m.listener.Waiting?
  }

  // ---- When is a stored configuration applied? --------------------------------------------------

  /** Every write carries a version above the one stored before it. */
  ghost predicate Rising(m: Memory, moves: seq<Move>)
    requires Possible(m, moves)
    decreases moves
  {
    moves != [] ==>
      (moves[0].Store? ==> m.stored.version < moves[0].cfg.version) && Rising(Perform(m, moves[0]), moves[1..])
  }

  ghost predicate Trails(c: ServiceConfig, m: Memory) {
    c == m.stored || c.version < m.stored.version
  }

  ghost predicate AllTrail(m: Memory) {
    && (m.applied.Some? ==> Trails(m.applied.value, m))
    && (m.listener.Holding? ==> Trails(m.listener.cfg, m))
  }

  /** If versions only ever rise, then whenever everything is quiet the stored
      configuration is the one applied. */
  lemma {:induction false} RisingWritesAreApplied(m: Memory, moves: seq<Move>)
    requires Awake(m) && AllTrail(m) && Possible(m, moves) && Rising(m, moves)
    requires Quiet(After(m, moves))
    ensures After(m, moves).applied == Some(After(m, moves).stored)
    decreases moves
  {
    if moves != [] {
      RisingWritesAreApplied(Perform(m, moves[0]), moves[1..]);
    }
  }

  // ---- What is applied is the newest configuration that was read -------------------------------

  /** The configurations the listener reads along a run. */
  function Reads(m: Memory, moves: seq<Move>): seq<ServiceConfig>
    requires Possible(m, moves)
    decreases moves
  {
    if moves == [] then []
    else (if moves[0].Fetch? then [m.stored] else []) + Reads(Perform(m, moves[0]), moves[1..])
  }

  function Held(m: Memory): seq<ServiceConfig> {
    if m.listener.Holding? then [m.listener.cfg] else []
  }

  function Newest(a: Option<ServiceConfig>, cs: seq<ServiceConfig>): Option<ServiceConfig>
    decreases cs
  {
    if cs == [] then a else Newest(Newer(a, cs[0]), cs[1..])
  }

  /** `Newest` picks the highest version, and the first of those. */
  ghost predicate IsFirstHighest(r: Option<ServiceConfig>, a: Option<ServiceConfig>, cs: seq<ServiceConfig>) {
    if r == a then a.Some? ==> forall i :: 0 <= i < |cs| ==> cs[i].version <= a.value.version
    else
      && r.Some?
      && (a.Some? ==> a.value.version < r.value.version)
      && exists i :: 0 <= i < |cs| && FirstHighestAt(r.value, cs, i)
  }

  ghost predicate FirstHighestAt(c: ServiceConfig, cs: seq<ServiceConfig>, i: nat)
    requires i < |cs|
  {
    && cs[i] == c
    && (forall j :: 0 <= j < i ==> cs[j].version < c.version)
    && (forall j :: i < j < |cs| ==> cs[j].version <= c.version)
  }

  lemma {:induction false} NewestIsFirstHighest(a: Option<ServiceConfig>, cs: seq<ServiceConfig>)
    ensures IsFirstHighest(Newest(a, cs), a, cs)
    ensures Newest(a, cs) == None <==> a == None && cs == []
    decreases cs
  {
    if cs != [] {
      var b, rest := Newer(a, cs[0]), cs[1..];
      NewestIsFirstHighest(b, rest);
      var r := Newest(b, rest);
      assert forall j :: 0 < j < |cs| ==> cs[j] == rest[j - 1];
      if r != b {
        var i :| 0 <= i < |rest| && FirstHighestAt(r.value, rest, i);
        assert FirstHighestAt(r.value, cs, i + 1);
      } else if r != a {
        assert FirstHighestAt(r.value, cs, 0);
      }
    }
  }

  /** In every interleaving: what is applied, with what the listener still holds, is
      the newest of what was applied, held and read. */
  lemma {:induction false} AppliedIsNewestRead(m: Memory, moves: seq<Move>)
    requires Possible(m, moves)
    ensures
      var m' := After(m, moves);
      Newest(m'.applied, Held(m')) == Newest(m.applied, Held(m) + Reads(m, moves))
    decreases moves
  {
    if moves != [] {
      var n := Perform(m, moves[0]);
      AppliedIsNewestRead(n, moves[1..]);
      StepReads(m, moves[0], Reads(n, moves[1..]));
    } else {
      assert Held(m) + Reads(m, moves) == Held(m);
    }
  }

  /** One move turns a read into what is held, and what is held into what is applied. */
  lemma StepReads(m: Memory, v: Move, rest: seq<ServiceConfig>)
    requires Enabled(m, v)
    ensures
      var n := Perform(m, v);
      Newest(n.applied, Held(n) + rest) == Newest(m.applied, Held(m) + ((if v.Fetch? then [m.stored] else []) + rest))
  {
    var n := Perform(m, v);
    if v.Install? {
      assert (Held(m) + rest)[1..] == rest && Held(n) + rest == rest;
      assert Held(m) + ([] + rest) == Held(m) + rest;
    } else {
      assert Held(m) + ((if v.Fetch? then [m.stored] else []) + rest) == Held(n) + rest;
    }
  }

  lemma {:induction false} RunsJoin(m: Memory, first: seq<Move>, second: seq<Move>)
    requires Possible(m, first + second)
    ensures Possible(m, first) && Possible(After(m, first), second)
    ensures After(m, first + second) == After(After(m, first), second)
    decreases first
  {
    if first == [] {
      assert first + second == second;
    } else {
      assert (first + second)[1..] == first[1..] + second;
      RunsJoin(Perform(m, first[0]), first[1..], second);
    }
  }

  ghost predicate NoWrites(moves: seq<Move>) {
    forall i :: 0 <= i < |moves| ==> !moves[i].Store?
  }

  /** Between writes every read gives what is stored; a write is read before all is quiet. */
  lemma {:induction false} ReadsBetweenWrites(m: Memory, moves: seq<Move>)
    requires Possible(m, moves) && NoWrites(moves)
    ensures After(m, moves).stored == m.stored
    ensures forall i :: 0 <= i < |Reads(m, moves)| ==> Reads(m, moves)[i] == m.stored
    ensures Reads(m, moves) != [] <==> Fetch in moves
    ensures Coming(m) && Quiet(After(m, moves)) ==> Reads(m, moves) != []
    ensures m.listener.Woken? && Quiet(After(m, moves)) ==> Reads(m, moves) != []
    decreases moves
  {
    if moves != [] {
      assert NoWrites(moves[1..]);
      ReadsBetweenWrites(Perform(m, moves[0]), moves[1..]);
    }
  }

  lemma {:induction false} NewestOfOne(a: Option<ServiceConfig>, cs: seq<ServiceConfig>, w: ServiceConfig)
    requires cs != [] && forall i :: 0 <= i < |cs| ==> cs[i] == w
    ensures Newest(a, cs) == Newer(a, w)
    decreases cs
  {
    assert cs[0] == w;
    if |cs| > 1 {
      NewestOfOne(Newer(a, w), cs[1..], w);
    }
  }

  /** The configuration the server is heading for after a run: the newest it has applied,
      holds or has read. */
  function Heading(m: Memory, moves: seq<Move>): Option<ServiceConfig>
    requires Possible(m, moves)
  {
    Newest(m.applied, Held(m) + Reads(m, moves))
  }

  /** Exactly when a write takes effect. After any run, storing `w` and letting everything
      settle without another write applies `w` if and only if no configuration read so far
      has a version as high (or the first such is `w` itself); otherwise that one stays. */
  lemma WriteIsAppliedIff(m: Memory, before: seq<Move>, w: ServiceConfig, rest: seq<Move>)
    requires Possible(m, before + ([Store(w)] + rest)) && NoWrites(rest)
    requires Quiet(After(m, before + ([Store(w)] + rest)))
    ensures Possible(m, before)
    ensures
      var m' := After(m, before + ([Store(w)] + rest));
      var a := Heading(m, before);
      && m'.stored == w
      && (m'.applied == Some(w) <==> a.None? || a.value.version < w.version || a.value == w)
      && (m'.applied == a <==> a.Some? && (w.version <= a.value.version || a.value == w))
  {
    RunsJoin(m, before, [Store(w)] + rest);
    var m1 := After(m, before);
    assert ([Store(w)] + rest)[1..] == rest;
    var m2 := Perform(m1, Store(w));
    AppliedIsNewestRead(m, before);
    AppliedIsNewestRead(m2, rest);
    ReadsBetweenWrites(m2, rest);
    NewestJoin(m1.applied, Held(m1), Reads(m2, rest));
    NewestOfOne(Newest(m1.applied, Held(m1)), Reads(m2, rest), w);
  }

  lemma {:induction false} NewestJoin(a: Option<ServiceConfig>, cs: seq<ServiceConfig>, ds: seq<ServiceConfig>)
    ensures Newest(a, cs + ds) == Newest(Newest(a, cs), ds)
    decreases cs
  {
    if cs == [] {
      assert cs + ds == ds;
    } else {
      assert (cs + ds)[1..] == cs[1..] + ds;
      NewestJoin(Newer(a, cs[0]), cs[1..], ds);
    }
  }

  // ---- Two edits of one configuration --------------------------------------------------------------

  /** The stored and the applied configuration agree and nothing is under way. */
  ghost predicate Synced(m: Memory, a: ServiceConfig) {
    Quiet(m) && m.stored == a && m.applied == Some(a)
  }

  /** This persister does not refuse stale edits as the table does. Of two different edits
      of the same configuration both are stored and reported as successful, and exactly
      one is ever applied: the first if the listener reads between the two writes, and
      otherwise the second. */
  lemma OneOfTwoEditsIsLost(m: Memory, base: ServiceConfig, e1: Edit, e2: Edit, mid: seq<Move>, rest: seq<Move>)
    requires Synced(m, base) && NoWrites(mid) && NoWrites(rest)
    requires Outcome(e1, base).Some? && Outcome(e2, base).Some? && Outcome(e1, base) != Outcome(e2, base)
    requires Possible(m, Race(base, e1, e2, mid, rest)) && Quiet(After(m, Race(base, e1, e2, mid, rest)))
    ensures
      var m' := After(m, Race(base, e1, e2, mid, rest));
      && m'.stored == Outcome(e2, base).value
      && (m'.applied == Outcome(e1, base) <==> Fetch in mid)
      && (m'.applied == Outcome(e2, base) <==> Fetch !in mid)
  {
    var w1, w2 := Outcome(e1, base).value, Outcome(e2, base).value;
    WriteIsAppliedIff(m, [Store(w1)] + mid, w2, rest);
    assert ([Store(w1)] + mid)[1..] == mid;
    var m1 := Perform(m, Store(w1));
    ReadsBetweenWrites(m1, mid);
    assert Reads(m, [Store(w1)] + mid) == Reads(m1, mid);
    assert Held(m) + Reads(m1, mid) == Reads(m1, mid);
    if Fetch in mid {
      NewestOfOne(Some(base), Reads(m1, mid), w1);
    }
  }

  ghost function Race(base: ServiceConfig, e1: Edit, e2: Edit, mid: seq<Move>, rest: seq<Move>): seq<Move>
    requires Outcome(e1, base).Some? && Outcome(e2, base).Some?
  {
    [Store(Outcome(e1, base).value)] + mid + ([Store(Outcome(e2, base).value)] + rest)
  }

  /** Both orders happen. */
  lemma EitherEditCanBeLost(m: Memory, base: ServiceConfig, e1: Edit, e2: Edit)
    requires Synced(m, base)
    requires Outcome(e1, base).Some? && Outcome(e2, base).Some? && Outcome(e1, base) != Outcome(e2, base)
    ensures
      var settle := [Notify, Receive, Fetch, Install];
      var apart := Race(base, e1, e2, settle, settle);
      var close := Race(base, e1, e2, [Notify], settle);
      && Possible(m, apart) && Quiet(After(m, apart)) && After(m, apart).applied == Outcome(e1, base)
      && Possible(m, close) && Quiet(After(m, close)) && After(m, close).applied == Outcome(e2, base)
  {
    var settle := [Notify, Receive, Fetch, Install];
    var w1, w2 := Outcome(e1, base).value, Outcome(e2, base).value;
    WriteSettles(m, w1);
    WriteSettles(After(m, [Store(w1)] + settle), w2);
    RunsMeet(m, [Store(w1)] + settle, [Store(w2)] + settle);
    var m1 := Perform(Perform(m, Store(w1)), Notify);
    WriteSettles(m1, w2);
    assert [Store(w1), Notify][1..] == [Notify] && [Notify][1..] == [];
    assert Possible(m, [Store(w1), Notify]) && After(m, [Store(w1), Notify]) == m1;
    RunsMeet(m, [Store(w1)] + [Notify], [Store(w2)] + settle);
  }

  lemma WriteSettles(m: Memory, w: ServiceConfig)
    requires !m.locked && m.listener.Waiting?
    ensures
      var moves := [Store(w)] + [Notify, Receive, Fetch, Install];
      Possible(m, moves) && After(m, moves) == Memory(w, false, false, Waiting, Newer(m.applied, w))
  {
    var m1 := Perform(m, Store(w));
    var m2 := Perform(m1, Notify);
    var m3 := Perform(m2, Receive);
    var m4 := Perform(m3, Fetch);
    var m5 := Perform(m4, Install);
    assert [Install][1..] == [] && Possible(m4, [Install]) && After(m4, [Install]) == m5;
    assert [Fetch, Install][1..] == [Install] && Possible(m3, [Fetch, Install]) && After(m3, [Fetch, Install]) == m5;
    assert [Receive, Fetch, Install][1..] == [Fetch, Install] && Possible(m2, [Receive, Fetch, Install])
      && After(m2, [Receive, Fetch, Install]) == m5;
    assert [Notify, Receive, Fetch, Install][1..] == [Receive, Fetch, Install];
    assert Possible(m1, [Notify, Receive, Fetch, Install]) && After(m1, [Notify, Receive, Fetch, Install]) == m5;
    assert ([Store(w)] + [Notify, Receive, Fetch, Install])[1..] == [Notify, Receive, Fetch, Install];
  }

  lemma {:induction false} RunsMeet(m: Memory, first: seq<Move>, second: seq<Move>)
    requires Possible(m, first) && Possible(After(m, first), second)
    ensures Possible(m, first + second) && After(m, first + second) == After(After(m, first), second)
    decreases first
  {
    if first == [] {
      assert first + second == second;
    } else {
      assert (first + second)[1..] == first[1..] + second;
      RunsMeet(Perform(m, first[0]), first[1..], second);
    }
  }
}
