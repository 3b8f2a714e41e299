// How configuration edits reach every server (server.go:193-238, server.go:311-331,
// config/mysqlpersister/mysqlpersister.go, config/internal/notifier.go).
//
// Any number of servers share one table of configurations whose version column is
// unique. An edit clones a server's current configuration, changes it and inserts
// the next version. Each server polls the table into a cache, row by row, and
// wakes its listener through a one-slot channel. The steps below interleave freely.
module ConfigPropagation {
  import opened Prelude
  import opened Config

  // ---- Edits -------------------------------------------------------------------------

  /** An administrator's change: an arbitrary function that may fail. */
  datatype Edit = Edit(user: string, date: int, updater: ServiceConfig -> Option<ServiceConfig>)

  /** What an edit makes of a configuration, if it succeeds. */
  ghost function Outcome(e: Edit, base: ServiceConfig): Option<ServiceConfig> {
    match e.updater(base)
    case None => None
    case Some(c) =>
      match Defaulted(c)
      case None => None
      case Some(d) => Some(d.(user := e.user, date := e.date, version := base.version + 1))
  }

  /** What a successful edit makes of a configuration, in full: the settings and names that
      its updater gives, with defaults for those left at zero, the edit's user and date,
      and the next version. */
  ghost predicate Makes(e: Edit, base: ServiceConfig, row: ServiceConfig) {
    && e.updater(base).Some? && !HasConflict(e.updater(base).value)
    && FillsSettings(e.updater(base).value, row)
    && row.user == e.user && row.date == e.date && row.version == base.version + 1
  }

  /** An edit fails if its updater does, or gives some namespace both fallbacks. */
  ghost predicate Fails(e: Edit, base: ServiceConfig) {
    e.updater(base).None? || HasConflict(e.updater(base).value)
  }

  /** An edit does exactly that: no part of what the updater gives is lost. */
  lemma EditExactly(e: Edit, base: ServiceConfig, row: ServiceConfig)
    ensures Outcome(e, base) == None <==> Fails(e, base)
    ensures Outcome(e, base) == Some(row) <==> Makes(e, base, row)
    ensures e.updater(base).Some? && Normalised(e.updater(base).value) ==>
      Outcome(e, base) == Some(e.updater(base).value.(user := e.user, date := e.date, version := base.version + 1))
  {
    if e.updater(base).Some? {
      var c := e.updater(base).value;
      var d := row.(user := c.user, date := c.date, version := c.version);
      DefaultsExactly(c, d);
      assert FillsSettings(c, d) <==> FillsSettings(c, row);
      NormalisedIffUnchanged(c);
    }
  }

  // ---- States ------------------------------------------------------------------------

  /** The polling goroutine: at rest, part-way through the rows of a query, or about
      to notify. */
  datatype Pull = Resting | Fetching(rows: seq<ServiceConfig>, next: nat) | Announcing

  /** The config listener: waiting, woken, or holding a configuration it has read. */
  datatype Listener = Waiting | Woken | Holding(cfg: ServiceConfig)

  datatype InFlight = InFlight(base: ServiceConfig, edit: Edit)

  datatype Server = Server(
    configs: map<int, ServiceConfig>,
    latest: int,
    pull: Pull,
    slot: bool,
    listener: Listener,
    applied: Option<ServiceConfig>,
    edits: seq<InFlight>)

  const NEW_SERVER: Server := Server(map[], -1, Resting, false, Waiting, None, [])

  /** The shared table with its first and last version, the edit behind each later
      row, and the servers. */
  datatype System = System(
    lo: int,
    hi: int,
    table: map<int, ServiceConfig>,
    log: map<int, Edit>,
    servers: map<nat, Server>)

  // ---- Steps -------------------------------------------------------------------------

  /** The rows later than `v`, in ascending order of version. */
  ghost predicate QueryResult(table: map<int, ServiceConfig>, v: int, rows: seq<ServiceConfig>) {
    && (forall i, j :: 0 <= i < j < |rows| ==> rows[i].version < rows[j].version)
    && (forall i :: 0 <= i < |rows| ==>
         v < rows[i].version && rows[i].version in table && rows[i] == table[rows[i].version])
    && (forall u :: u in table && v < u ==> exists i :: 0 <= i < |rows| && rows[i].version == u)
  }

  datatype Action =
    | Join(id: nat)
    | Nudge(id: nat)
    | Query(id: nat, rows: seq<ServiceConfig>)
    | StoreRow(id: nat)
    | FinishPull(id: nat)
    | AbandonPull(id: nat)
    | Announce(id: nat)
    | Wake(id: nat)
    | Read(id: nat)
    | Apply(id: nat)
    | Begin(id: nat, edit: Edit)
    | Commit(id: nat, index: nat)

  ghost predicate Enabled(y: System, a: Action) {
    if a.Join? then a.id !in y.servers
    else
      && a.id in y.servers
      && var s := y.servers[a.id];
         match a
         case Nudge(_) => true
         case Query(_, rows) => s.pull.Resting? && QueryResult(y.table, s.latest, rows)
         case StoreRow(_) => s.pull.Fetching? && s.pull.next < |s.pull.rows|
         case FinishPull(_) => s.pull.Fetching? && 0 < s.pull.next <= |s.pull.rows|
         case AbandonPull(_) => s.pull.Fetching?
         case Announce(_) => s.pull.Announcing?
         case Wake(_) => s.listener.Waiting? && s.slot
         case Read(_) => s.listener.Woken?
         case Apply(_) => s.listener.Holding?
         case Begin(_, _) => s.applied.Some?
         case Commit(_, j) => j < |s.edits|
         case Join(_) => true
  }

  /** The step of one server that does not touch the table. A pull finishes when the rows
      end, which the program takes for the end of the table even if the connection broke;
      it is abandoned when a row cannot be scanned, and what was cached stays. */
  ghost function ServerStep(s: Server, a: Action): Server
    requires a.StoreRow? ==> s.pull.Fetching? && s.pull.next < |s.pull.rows|
    requires a.FinishPull? ==> s.pull.Fetching? && 0 < s.pull.next <= |s.pull.rows|
    requires a.Apply? ==> s.listener.Holding?
    requires a.Begin? ==> s.applied.Some?
    requires a.Commit? ==> a.index < |s.edits|
  {
    match a
    case Join(_) => s
    case Nudge(_) => s.(slot := true)
    case Query(_, rows) => if rows == [] then s else s.(pull := Fetching(rows, 0))
    case StoreRow(_) =>
      var r := s.pull.rows[s.pull.next];
      s.(configs := s.configs[r.version := r], pull := s.pull.(next := s.pull.next + 1))
    case FinishPull(_) => s.(latest := s.pull.rows[s.pull.next - 1].version, pull := Announcing)
    case AbandonPull(_) => s.(pull := Resting)
    case Announce(_) => s.(slot := true, pull := Resting)
    case Wake(_) => s.(slot := false, listener := Woken)
    case Read(_) => s.(listener := if s.latest in s.configs then Holding(s.configs[s.latest]) else Waiting)
    case Apply(_) =>
      var c := s.listener.cfg;
      s.(applied := if s.applied.Some? && c.version <= s.applied.value.version then s.applied else Some(c),
         listener := Waiting)
    case Begin(_, e) => s.(edits := s.edits + [InFlight(s.applied.value, e)])
    case Commit(_, j) => s.(edits := s.edits[..j] + s.edits[j + 1..])
  }

  /** Committing an edit inserts its outcome unless that version exists already. */
  ghost function Do(y: System, a: Action): System
    requires Enabled(y, a)
  {
    if a.Join? then y.(servers := y.servers[a.id := NEW_SERVER])
    else
      var s := y.servers[a.id];
      var y' := y.(servers := y.servers[a.id := ServerStep(s, a)]);
      if !a.Commit? then y'
      else
        var f := s.edits[a.index];
        var r := Outcome(f.edit, f.base);
        if r.None? || r.value.version in y.table then y'
        else y'.(table := y.table[r.value.version := r.value], log := y.log[r.value.version := f.edit],
          hi := r.value.version)
  }

  ghost predicate Initial(y: System) {
    && 0 <= y.lo == y.hi && y.table.Keys == {y.lo} && y.table[y.lo].version == y.lo && Normalised(y.table[y.lo])
    && y.log == map[] && y.servers == map[]
  }

  ghost predicate Possible(y: System, acts: seq<Action>)
    decreases |acts|, 0
  {
    acts == [] || (Possible(y, acts[..|acts| - 1]) && Enabled(After(y, acts[..|acts| - 1]), acts[|acts| - 1]))
  }

  ghost function After(y: System, acts: seq<Action>): System
    requires Possible(y, acts)
    decreases |acts|, 1
  {
    if acts == [] then y else Do(After(y, acts[..|acts| - 1]), acts[|acts| - 1])
  }

  // ---- The invariant -------------------------------------------------------------------

  ghost predicate IsRow(table: map<int, ServiceConfig>, c: ServiceConfig) {
    c.version in table && table[c.version] == c
  }

  /** A row is what the edit behind it makes of exactly the row before. */
  ghost predicate OneEditLater(table: map<int, ServiceConfig>, log: map<int, Edit>, v: int) {
    v in log && v in table && v - 1 in table && Makes(log[v], table[v - 1], table[v])
  }

  /** Versions are contiguous, and each row is one edit of exactly the row before. */
  ghost predicate TableOk(y: System) {
    && 0 <= y.lo <= y.hi
    && (forall v :: v in y.table <==> y.lo <= v <= y.hi)
    && (forall v :: v in y.table ==> y.table[v].version == v && Normalised(y.table[v]))
    && (forall v :: y.lo < v <= y.hi ==> OneEditLater(y.table, y.log, v))
  }

  /** The last version a server has taken in. */
  ghost function Top(s: Server): int {
    if s.pull.Fetching? && 0 < s.pull.next <= |s.pull.rows| then s.pull.rows[s.pull.next - 1].version else s.latest
  }

  /** The cache is an exact prefix of the table, which goes on past the latest version
      only while a pull is under way or after one was abandoned. */
  ghost predicate CacheOk(lo: int, hi: int, table: map<int, ServiceConfig>, s: Server) {
    && (s.latest == -1 || lo <= s.latest <= hi)
    && Top(s) <= hi
    && (forall v :: lo <= v <= Top(s) ==> v in s.configs)
    && (forall u, v :: v in s.configs && lo <= u <= v ==> u in s.configs)
    && (forall v :: v in s.configs ==> v in table && s.configs[v] == table[v])
  }

  function Start(lo: int, latest: int): int {
    if latest == -1 then lo else latest + 1
  }

  ghost predicate PullOk(lo: int, table: map<int, ServiceConfig>, s: Server) {
    s.pull.Fetching? ==>
      && s.pull.rows != [] && s.pull.next <= |s.pull.rows|
      && (forall i :: 0 <= i < |s.pull.rows| ==>
            s.pull.rows[i].version == Start(lo, s.latest) + i && IsRow(table, s.pull.rows[i]))
  }

  ghost predicate HoldsRows(table: map<int, ServiceConfig>, s: Server) {
    && (s.applied.Some? ==> IsRow(table, s.applied.value) && s.applied.value.version <= s.latest)
    && (s.listener.Holding? ==> IsRow(table, s.listener.cfg) && s.listener.cfg.version <= s.latest)
    && (forall i :: 0 <= i < |s.edits| ==> IsRow(table, s.edits[i].base))
  }

  ghost predicate Behind(applied: Option<ServiceConfig>, latest: int) {
    latest != -1 && (applied.None? || applied.value.version < latest)
  }

  /** No lost wake-up: a listener that is waiting while its server is behind its cache,
      or holding an outdated configuration, has a notification coming. */
  ghost predicate Awake(s: Server) {
    && (s.listener.Waiting? && Behind(s.applied, s.latest) ==> s.slot || s.pull.Announcing?)
    && (s.listener.Holding? && s.listener.cfg.version < s.latest ==> s.slot || s.pull.Announcing?)
  }

  ghost predicate ServerOk(lo: int, hi: int, table: map<int, ServiceConfig>, s: Server) {
    CacheOk(lo, hi, table, s) && PullOk(lo, table, s) && HoldsRows(table, s) && Awake(s)
  }

  ghost predicate Inv(y: System) {
    TableOk(y) && forall i :: i in y.servers ==> ServerOk(y.lo, y.hi, y.table, y.servers[i])
  }

  // ---- Each step keeps it -----------------------------------------------------------------

  /** The rows of a query on a contiguous table are consecutive. */
  lemma {:induction false} QueryIsConsecutive(y: System, latest: int, rows: seq<ServiceConfig>, i: nat)
    requires TableOk(y) && (latest == -1 || y.lo <= latest <= y.hi) && QueryResult(y.table, latest, rows) && i < |rows|
    ensures rows[i].version == Start(y.lo, latest) + i
  {
    var v := Start(y.lo, latest) + i;
    if i > 0 {
      QueryIsConsecutive(y, latest, rows, i - 1);
    }
    assert v <= rows[i].version && v in y.table;
    var j :| 0 <= j < |rows| && rows[j].version == v;
    if j < i {
      QueryIsConsecutive(y, latest, rows, j);
    }
  }

  lemma QueryKeepsOk(y: System, s: Server, rows: seq<ServiceConfig>)
    requires TableOk(y) && ServerOk(y.lo, y.hi, y.table, s) && s.pull.Resting? && QueryResult(y.table, s.latest, rows)
    ensures ServerOk(y.lo, y.hi, y.table, if rows == [] then s else s.(pull := Fetching(rows, 0)))
  {
    forall i | 0 <= i < |rows|
      ensures rows[i].version == Start(y.lo, s.latest) + i
    {
      QueryIsConsecutive(y, s.latest, rows, i);
    }
  }

  lemma StoreKeepsOk(y: System, s: Server)
    requires TableOk(y) && ServerOk(y.lo, y.hi, y.table, s) && s.pull.Fetching? && s.pull.next < |s.pull.rows|
    ensures ServerOk(y.lo, y.hi, y.table, ServerStep(s, StoreRow(0)))
  {
    var s' := ServerStep(s, StoreRow(0));
    assert Top(s') == Start(y.lo, s.latest) + s.pull.next;
    assert IsRow(y.table, s.pull.rows[s.pull.next]);
  }

  lemma FinishKeepsOk(y: System, s: Server)
    requires TableOk(y) && ServerOk(y.lo, y.hi, y.table, s) && s.pull.Fetching? && 0 < s.pull.next <= |s.pull.rows|
    ensures ServerOk(y.lo, y.hi, y.table, ServerStep(s, FinishPull(0)))
  {
    assert IsRow(y.table, s.pull.rows[s.pull.next - 1]);
  }

  lemma StepKeepsServerOk(y: System, a: Action)
    requires TableOk(y) && Enabled(y, a) && !a.Join? && ServerOk(y.lo, y.hi, y.table, y.servers[a.id])
    ensures ServerOk(y.lo, y.hi, y.table, ServerStep(y.servers[a.id], a))
  {
    var s := y.servers[a.id];
    match a
    case Nudge(_) =>
    case Query(_, rows) => QueryKeepsOk(y, s, rows);
    case StoreRow(_) => StoreKeepsOk(y, s);
    case FinishPull(_) => FinishKeepsOk(y, s);
    case AbandonPull(_) =>
    case Announce(_) =>
    case Wake(_) => ListenerKeepsOk(y.lo, y.hi, y.table, s, a);
    case Read(_) => ListenerKeepsOk(y.lo, y.hi, y.table, s, a);
    case Apply(_) => ListenerKeepsOk(y.lo, y.hi, y.table, s, a);
    case Begin(_, _) => EditsKeepOk(y.lo, y.hi, y.table, s, a);
    case Commit(_, _) => EditsKeepOk(y.lo, y.hi, y.table, s, a);
    case Join(_) =>
  }

  lemma ListenerKeepsOk(lo: int, hi: int, table: map<int, ServiceConfig>, s: Server, a: Action)
    requires ServerOk(lo, hi, table, s) && (forall v :: v in table ==> table[v].version == v)
    requires a.Wake? || (a.Read? && s.listener.Woken?) || (a.Apply? && s.listener.Holding?)
    ensures ServerOk(lo, hi, table, ServerStep(s, a))
  {
  }

  lemma EditsKeepOk(lo: int, hi: int, table: map<int, ServiceConfig>, s: Server, a: Action)
    requires ServerOk(lo, hi, table, s) && ((a.Begin? && s.applied.Some?) || (a.Commit? && a.index < |s.edits|))
    ensures ServerOk(lo, hi, table, ServerStep(s, a))
  {
  }

  /** A longer table with the same rows serves every server as before. */
  lemma GrowthKeepsServerOk(lo: int, hi: int, table: map<int, ServiceConfig>, c: ServiceConfig, s: Server)
    requires ServerOk(lo, hi, table, s) && c.version == hi + 1 && c.version !in table
    ensures ServerOk(lo, hi + 1, table[c.version := c], s)
  {
  }

  /** An edit is accepted exactly when it does not fail and was made on the last row; the
      row it adds is what it makes of that one. Otherwise it changes nothing. */
  lemma AcceptedIffCurrent(y: System, id: nat, j: nat)
    requires Inv(y) && id in y.servers && j < |y.servers[id].edits|
    ensures
      var f := y.servers[id].edits[j];
      var y' := Do(y, Commit(id, j));
      && f.base.version in y.table && y.table[f.base.version] == f.base && y'.lo == y.lo
      && (Fails(f.edit, f.base) || f.base.version != y.hi ==> y'.hi == y.hi && y'.table == y.table && y'.log == y.log)
      && (!Fails(f.edit, f.base) && f.base.version == y.hi ==>
            && y'.hi == y.hi + 1 && y'.hi in y'.table && y'.table == y.table[y'.hi := y'.table[y'.hi]]
            && Makes(f.edit, f.base, y'.table[y'.hi]) && Normalised(y'.table[y'.hi]) &&
                 y'.log == y.log[y'.hi := f.edit])
  {
    var f := y.servers[id].edits[j];
    assert ServerOk(y.lo, y.hi, y.table, y.servers[id]) && IsRow(y.table, f.base);
    EditExactly(f.edit, f.base, f.base);
    if Outcome(f.edit, f.base).Some? {
      EditExactly(f.edit, f.base, Outcome(f.edit, f.base).value);
      DefaultsNormalise(f.edit.updater(f.base).value);
    }
  }

  lemma GrowthKeepsTableOk(y: System, y': System, c: ServiceConfig, e: Edit)
    requires TableOk(y) && c.version == y.hi + 1 && Normalised(c) && Makes(e, y.table[y.hi], c)
    requires y'.lo == y.lo && y'.hi == c.version
    requires y'.table == y.table[c.version := c] && y'.log == y.log[c.version := e]
    ensures TableOk(y')
  {
    forall v | y'.lo < v <= y'.hi
      ensures OneEditLater(y'.table, y'.log, v)
    {
      if v <= y.hi {
        assert OneEditLater(y.table, y.log, v);
      }
    }
  }

  lemma CommitKeepsTableOk(y: System, id: nat, j: nat)
    requires Inv(y) && id in y.servers && j < |y.servers[id].edits|
    ensures TableOk(Do(y, Commit(id, j)))
  {
    AcceptedIffCurrent(y, id, j);
    var f := y.servers[id].edits[j];
    var y' := Do(y, Commit(id, j));
    if y'.hi == y.hi {
      SameTableOk(y, y');
    } else {
      assert f.base == y.table[y.hi] by {
        assert ServerOk(y.lo, y.hi, y.table, y.servers[id]) && IsRow(y.table, f.base);
      }
      GrowthKeepsTableOk(y, y', y'.table[y'.hi], f.edit);
    }
  }

  lemma SameTableOk(y: System, y': System)
    requires TableOk(y) && y'.lo == y.lo && y'.hi == y.hi && y'.table == y.table && y'.log == y.log
    ensures TableOk(y')
  {
  }

  /** Every server is in order after one has changed and the table may have grown. */
  lemma ServersStayOk(y: System, y': System, id: nat, s: Server)
    requires Inv(y) && ServerOk(y.lo, y.hi, y.table, s) && y'.lo == y.lo && y'.servers == y.servers[id := s]
    requires TableOk(y')
    requires (y'.hi == y.hi && y'.table == y.table) ||
      (y'.hi == y.hi + 1 && y'.table == y.table[y'.hi := y'.table[y'.hi]])
    ensures Inv(y')
  {
    forall i | i in y'.servers
      ensures ServerOk(y'.lo, y'.hi, y'.table, y'.servers[i])
    {
      assert ServerOk(y.lo, y.hi, y.table, y'.servers[i]);
      if y'.hi == y.hi + 1 {
        GrowthKeepsServerOk(y.lo, y.hi, y.table, y'.table[y'.hi], y'.servers[i]);
      }
    }
  }

  lemma StepKeepsInv(y: System, a: Action)
    requires Inv(y) && Enabled(y, a)
    ensures Inv(Do(y, a))
  {
    var y' := Do(y, a);
    if a.Join? {
      assert ServerOk(y.lo, y.hi, y.table, NEW_SERVER);
      ServersStayOk(y, y', a.id, NEW_SERVER);
    } else {
      StepKeepsServerOk(y, a);
      if a.Commit? {
        CommitKeepsTableOk(y, a.id, a.index);
        AcceptedIffCurrent(y, a.id, a.index);
      } else {
        SameTableOk(y, y');
      }
      ServersStayOk(y, y', a.id, ServerStep(y.servers[a.id], a));
    }
  }

  lemma InitialInv(y: System)
    requires Initial(y)
    ensures Inv(y)
  {
  }

  lemma {:induction false} RunKeepsInv(y: System, acts: seq<Action>)
    requires Inv(y) && Possible(y, acts)
    ensures Inv(After(y, acts))
    decreases |acts|
  {
    if acts != [] {
      RunKeepsInv(y, acts[..|acts| - 1]);
      StepKeepsInv(After(y, acts[..|acts| - 1]), acts[|acts| - 1]);
    }
  }

  // ---- What it means ------------------------------------------------------------------------

  /** The edits that were accepted in a run, in order: those whose commit added a row. */
  ghost function Accepted(y: System, acts: seq<Action>): seq<Edit>
    requires Possible(y, acts)
    decreases |acts|
  {
    if acts == [] then []
    else
      var n := |acts| - 1;
      Accepted(y, acts[..n]) + AcceptedBy(After(y, acts[..n]), acts[n])
  }

  /** Starting from `base`, each edit makes of a row exactly the next one. */
  ghost predicate Holds(z: System, base: ServiceConfig, edits: seq<Edit>) {
    && z.hi == z.lo + |edits|
    && z.lo in z.table && z.table[z.lo] == base
    && forall i :: 0 <= i < |edits| ==> RowAfter(z.table, z.lo + i, edits[i])
  }

  ghost predicate RowAfter(table: map<int, ServiceConfig>, v: int, e: Edit) {
    v in table && v + 1 in table && Makes(e, table[v], table[v + 1])
  }

  /** No lost edits: after any interleaving the table holds the first row and then, for
      each accepted edit in order, what it made of the row before; none was lost,
      reordered or applied to anything else. */
  lemma {:induction false} NoLostEdits(y: System, acts: seq<Action>)
    requires Initial(y) && Possible(y, acts)
    ensures TableOk(After(y, acts)) && Holds(After(y, acts), y.table[y.lo], Accepted(y, acts))
    decreases |acts|
  {
    InitialInv(y);
    RunKeepsInv(y, acts);
    if acts != [] {
      var n := |acts| - 1;
      NoLostEdits(y, acts[..n]);
      RunKeepsInv(y, acts[..n]);
      StepHolds(After(y, acts[..n]), acts[n], y.table[y.lo], Accepted(y, acts[..n]));
    }
  }

  lemma HoldsMore(z: System, z': System, base: ServiceConfig, edits: seq<Edit>, e: Edit)
    requires Holds(z, base, edits) && z'.lo == z.lo && z'.hi == z.hi + 1 && z'.hi in z'.table && z.hi in z.table
    requires z'.table == z.table[z'.hi := z'.table[z'.hi]] && Makes(e, z.table[z.hi], z'.table[z'.hi])
    ensures Holds(z', base, edits + [e])
  {
    forall i | 0 <= i < |edits + [e]|
      ensures RowAfter(z'.table, z'.lo + i, (edits + [e])[i])
    {
      assert i < |edits| ==> RowAfter(z.table, z.lo + i, edits[i]);
    }
  }

  /** What a step adds to the accepted edits. */
  ghost function AcceptedBy(z: System, a: Action): seq<Edit>
    requires Enabled(z, a)
  {
    if a.Commit? && z.hi < Do(z, a).hi then [z.servers[a.id].edits[a.index].edit] else []
  }

  lemma OnlyCommitsWrite(z: System, a: Action)
    requires Enabled(z, a) && !a.Commit?
    ensures Do(z, a).lo == z.lo && Do(z, a).hi == z.hi && Do(z, a).table == z.table
  {
  }

  lemma CommitHolds(z: System, a: Action, base: ServiceConfig, edits: seq<Edit>)
    requires Inv(z) && Enabled(z, a) && a.Commit? && Holds(z, base, edits)
    ensures Holds(Do(z, a), base, edits + AcceptedBy(z, a))
  {
    AcceptedIffCurrent(z, a.id, a.index);
    if z.hi < Do(z, a).hi {
      HoldsMore(z, Do(z, a), base, edits, z.servers[a.id].edits[a.index].edit);
    } else {
      assert edits + [] == edits;
    }
  }

  lemma StepHolds(z: System, a: Action, base: ServiceConfig, edits: seq<Edit>)
    requires Inv(z) && Enabled(z, a) && Holds(z, base, edits)
    ensures Holds(Do(z, a), base, edits + AcceptedBy(z, a))
  {
    if a.Commit? {
      CommitHolds(z, a, base, edits);
    } else {
      OnlyCommitsWrite(z, a);
      assert edits + AcceptedBy(z, a) == edits;
    }
  }

  /** An editor that is up to date succeeds: an edit begun and committed at a server that
      runs the last row adds what it makes of that row. */
  lemma EditorSucceeds(y: System, id: nat, e: Edit)
    requires Inv(y) && id in y.servers && y.servers[id].applied == Some(y.table[y.hi]) && !Fails(e, y.table[y.hi])
    ensures
      var y1 := Do(y, Begin(id, e));
      var last := Commit(id, |y.servers[id].edits|);
      && Enabled(y, Begin(id, e)) && Enabled(y1, last)
      && var y2 := Do(y1, last);
         && y2.hi == y.hi + 1 && y2.hi in y2.table && Makes(e, y.table[y.hi], y2.table[y2.hi])
         && y2.servers[id].edits == y.servers[id].edits
  {
    StepKeepsInv(y, Begin(id, e));
    AcceptedIffCurrent(Do(y, Begin(id, e)), id, |y.servers[id].edits|);
  }

  /** Rows and their edits are never changed, and no version is ever removed. */
  lemma {:induction false} RowsAreForever(y: System, acts: seq<Action>, v: int)
    requires Inv(y) && Possible(y, acts) && v in y.table
    ensures v in After(y, acts).table && After(y, acts).table[v] == y.table[v]
    decreases |acts|
  {
    if acts != [] {
      var n := |acts| - 1;
      RowsAreForever(y, acts[..n], v);
      RunKeepsInv(y, acts[..n]);
      if acts[n].Commit? {
        AcceptedIffCurrent(After(y, acts[..n]), acts[n].id, acts[n].index);
      }
    }
  }

  /** A server never goes back to an older configuration or a different one of the
      same version. */
  lemma AppliedVersionsIncrease(y: System, a: Action, id: nat)
    requires Enabled(y, a) && id in y.servers
    ensures
      var s := y.servers[id];
      var s' := Do(y, a).servers[id];
      s'.applied == s.applied ||
      (a == Apply(id) && s'.applied.Some? && (s.applied.Some? ==> s.applied.value.version < s'.applied.value.version))
  {
  }

  /** Nothing is under way at a server. */
  ghost predicate Quiet(s: Server) {
    s.pull.Resting? && !s.slot && s.listener.Waiting?
  }

  lemma EmptyQueryMeansCurrent(y: System, id: nat)
    requires Inv(y) && id in y.servers && QueryResult(y.table, y.servers[id].latest, [])
    ensures y.servers[id].latest == y.hi
  {
    assert ServerOk(y.lo, y.hi, y.table, y.servers[id]);
    assert y.hi in y.table;
  }

  lemma QuietServerIsCurrent(z: System, id: nat)
    requires Inv(z) && id in z.servers && Quiet(z.servers[id]) && QueryResult(z.table, z.servers[id].latest, [])
    ensures z.hi in z.table && z.servers[id].applied == Some(z.table[z.hi])
  {
    EmptyQueryMeansCurrent(z, id);
    var s := z.servers[id];
    assert ServerOk(z.lo, z.hi, z.table, s);
    assert !Behind(s.applied, s.latest);
  }

  /** Convergence: after any interleaving, every server that is quiet and whose last
      poll found nothing new runs exactly the last row of the table. Two such
      servers run the same configuration, with every accepted edit in it. */
  lemma QuietServersAgree(y: System, acts: seq<Action>, id: nat)
    requires Initial(y) && Possible(y, acts) && id in After(y, acts).servers
    requires
      var z := After(y, acts);
      Quiet(z.servers[id]) && QueryResult(z.table, z.servers[id].latest, [])
    ensures
      var z := After(y, acts);
      && Holds(z, y.table[y.lo], Accepted(y, acts))
      && z.hi in z.table && z.servers[id].applied == Some(z.table[z.hi])
  {
    InitialInv(y);
    RunKeepsInv(y, acts);
    QuietServerIsCurrent(After(y, acts), id);
    NoLostEdits(y, acts);
  }

  // ---- No server gets stuck ---------------------------------------------------------------------

  /** The steps by which a server catches up with the table, when no error intervenes. */
  ghost predicate CatchingUp(a: Action) {
    a.StoreRow? || a.FinishPull? || a.Announce? || a.Wake? || a.Read? || a.Apply? || (a.Query? && a.rows != [])
  }

  /** How far a server is from the last row: in versions, in steps of its pull, and in
      steps of its listener. */
  ghost function Distance(y: System, s: Server): (int, int, int) {
    (y.hi - s.latest,
     match s.pull
     case Resting => if s.latest < y.hi then y.hi - s.latest + 2 else 0
     case Fetching(rows, next) => |rows| - next + 1
     case Announcing => y.hi - s.latest + 3,
     (if s.slot then 4 else 0) + match s.listener case Waiting => 0 case Woken => 2 case Holding(_) => 1)
  }

  ghost predicate Closer(a: (int, int, int), b: (int, int, int)) {
    && 0 <= a.0 && 0 <= a.1 && 0 <= a.2
    && (a.0 < b.0 || (a.0 == b.0 && (a.1 < b.1 || (a.1 == b.1 && a.2 < b.2))))
  }

  /** Every such step brings the server closer, in an order without infinite descent, so
      they can only come to an end. */
  lemma CatchingUpComesCloser(y: System, a: Action)
    requires Inv(y) && Enabled(y, a) && CatchingUp(a)
    ensures Closer(Distance(y, Do(y, a).servers[a.id]), Distance(y, y.servers[a.id]))
    ensures Do(y, a).hi == y.hi && Do(y, a).table == y.table
  {
    var s := y.servers[a.id];
    assert ServerOk(y.lo, y.hi, y.table, s);
    assert Do(y, a).servers[a.id] == ServerStep(s, a);
    if a.Query? {
      QueryComesCloser(y, s, a.rows);
    } else if a.FinishPull? {
      assert IsRow(y.table, s.pull.rows[s.pull.next - 1]);
    } else {
      SmallStepComesCloser(y, s, a);
    }
  }

  lemma SmallStepComesCloser(y: System, s: Server, a: Action)
    requires s.latest <= y.hi && (s.pull.Fetching? ==> s.pull.next <= |s.pull.rows|)
    requires
      || (a.StoreRow? && s.pull.Fetching? && s.pull.next < |s.pull.rows|)
      || (a.Announce? && s.pull.Announcing?) || (a.Wake? && s.listener.Waiting? && s.slot)
      || (a.Read? && s.listener.Woken?) || (a.Apply? && s.listener.Holding?)
    ensures Closer(Distance(y, ServerStep(s, a)), Distance(y, s))
  {
  }

  lemma QueryComesCloser(y: System, s: Server, rows: seq<ServiceConfig>)
    requires TableOk(y) && (s.latest == -1 || y.lo <= s.latest <= y.hi) && s.pull.Resting?
    requires rows != [] && QueryResult(y.table, s.latest, rows)
    ensures Closer(Distance(y, s.(pull := Fetching(rows, 0))), Distance(y, s))
  {
    QueryIsConsecutive(y, s.latest, rows, |rows| - 1);
    assert rows[|rows| - 1].version in y.table;
  }

  /** The rows a query finds. */
  ghost function LaterRows(y: System, latest: int): seq<ServiceConfig>
    requires TableOk(y) && (latest == -1 || y.lo <= latest <= y.hi)
  {
    var v := Start(y.lo, latest);
    seq(y.hi + 1 - v, i requires 0 <= i < y.hi + 1 - v => y.table[v + i])
  }

  lemma LaterRowsAnswerTheQuery(y: System, latest: int)
    requires TableOk(y) && (latest == -1 || y.lo <= latest <= y.hi)
    ensures QueryResult(y.table, latest, LaterRows(y, latest))
    ensures latest < y.hi ==> LaterRows(y, latest) != []
  {
    var v := Start(y.lo, latest);
    var rows := LaterRows(y, latest);
    forall i | 0 <= i < |rows|
      ensures rows[i].version == v + i && v + i in y.table && rows[i] == y.table[v + i]
    {
    }
    forall u | u in y.table && latest < u
      ensures exists i :: 0 <= i < |rows| && rows[i].version == u
    {
      var i := u - v;
      assert 0 <= i < |rows| && rows[i].version == u;
    }
  }

  /** And as long as a server has not caught up, one of them is possible. */
  lemma CatchingUpIsPossible(y: System, id: nat) returns (a: Action)
    requires Inv(y) && id in y.servers
    requires !(Quiet(y.servers[id]) && y.servers[id].latest == y.hi)
    ensures a.id == id && CatchingUp(a) && Enabled(y, a)
  {
    var s := y.servers[id];
    assert CacheOk(y.lo, y.hi, y.table, s) && PullOk(y.lo, y.table, s) by {
      assert ServerOk(y.lo, y.hi, y.table, s);
    }
    match s.pull
    case Announcing => a := Announce(id);
    case Fetching(rows, next) => a := if next < |rows| then StoreRow(id) else FinishPull(id);
    case Resting =>
      if s.latest < y.hi {
        LaterRowsAnswerTheQuery(y, s.latest);
        a := Query(id, LaterRows(y, s.latest));
      } else {
        a := match s.listener case Waiting => Wake(id) case Woken => Read(id) case Holding(_) => Apply(id);
      }
  }
}
