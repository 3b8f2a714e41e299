// One server's cache of the configuration table (config/mysqlpersister/mysqlpersister.go),
// as the program fills and reads it, including rows that do not decode.
module MysqlPersister {
  import opened Prelude
  import opened Config
  import opened ConfigPropagation

  /** A row of a query's answer: without a configuration when its contents do not decode,
      or one that cannot be scanned at all. */
  datatype Row = Row(version: int, config: Option<ServiceConfig>) | Unscannable

  /** The cache after storing the rows that decode. */
  function Merge(configs: map<int, ServiceConfig>, rows: seq<Row>): map<int, ServiceConfig> {
    if rows == [] then configs
    else
      var m := Merge(configs, rows[..|rows| - 1]);
      var r := rows[|rows| - 1];
      if r.Row? && r.config.Some? then m[r.version := r.config.value] else m
  }

  /** The version of the last row that decodes, or -1. */
  function LastDecoded(rows: seq<Row>): int {
    if rows == [] then -1
    else if rows[|rows| - 1].Row? && rows[|rows| - 1].config.Some? then rows[|rows| - 1].version
    else LastDecoded(rows[..|rows| - 1])
  }

  /** The rows before the first that cannot be scanned. */
  function Scanned(rows: seq<Row>): seq<Row> {
    if rows == [] || rows[0].Unscannable? then [] else [rows[0]] + Scanned(rows[1..])
  }

  lemma {:induction false} ScannedUpTo(rows: seq<Row>, n: nat)
    requires n <= |rows| && (forall i :: 0 <= i < n ==> rows[i].Row?) && (n < |rows| ==> rows[n].Unscannable?)
    ensures Scanned(rows) == rows[..n]
  {
    if n > 0 {
      ScannedUpTo(rows[1..], n - 1);
      assert rows[..n] == [rows[0]] + rows[1..][..n - 1];
    }
  }

  class MysqlPersister {
    var latestVersion: int
    var configs: map<int, ServiceConfig>

    /** The protocol's view of this object. */
    ghost predicate Shows(s: Server)
      reads this
    {
      latestVersion == s.latest && configs == s.configs
    }

    constructor ()
      ensures Shows(NEW_SERVER)
    {
      latestVersion, configs := -1, map[];
    }

    /** Takes in the answer to one query and tells whether there were rows, or fails: at
        once if the query is refused, else at the first row that cannot be scanned. */
    method PullConfigs(answer: Option<seq<Row>>) returns (found: Option<bool>)
      modifies this
      ensures found.Some? <==> answer.Some? && Scanned(answer.value) == answer.value
      ensures found.Some? ==> found.value == (answer.value != [])
      ensures configs == if answer.None? then old(configs) else Merge(old(configs), Scanned(answer.value))
      ensures latestVersion == if found == Some(true) then LastDecoded(answer.value) else old(latestVersion)
    {
      if answer.None? {
        return None;
      }
      var rows := answer.value;
      var rowCount, maxVersion := 0, -1;
      while rowCount < |rows|
        invariant 0 <= rowCount <= |rows| && forall i :: 0 <= i < rowCount ==> rows[i].Row?
        invariant configs == Merge(old(configs), rows[..rowCount]) && maxVersion == LastDecoded(rows[..rowCount])
        invariant latestVersion == old(latestVersion)
      {
        var r := rows[rowCount];
        if r.Unscannable? {
          ScannedUpTo(rows, rowCount);
          return None;
        }
        assert rows[..rowCount + 1][..rowCount] == rows[..rowCount];
        rowCount := rowCount + 1;
        if r.config.Some? {
          configs := configs[r.version := r.config.value];
          maxVersion := r.version;
        }
      }
      ScannedUpTo(rows, |rows|);
      assert rows[..rowCount] == rows;
      if rowCount == 0 {
        return Some(false);
      }
      latestVersion := maxVersion;
      return Some(true);
    }

    /** What the listener reads is what the protocol's read step hands it: in every
        reachable state the row of the table with the server's version, and nothing only
        before the first pull. */
    method ReadPersistedConfig(ghost y: System, ghost id: nat) returns (r: Option<ServiceConfig>)
      requires id in y.servers && Shows(y.servers[id])
      ensures ServerStep(y.servers[id], Read(id)).listener == if r.Some? then Holding(r.value) else Waiting
      ensures Inv(y) ==> r == if latestVersion == -1 then None else Some(y.table[latestVersion])
    {
      assert Inv(y) ==> ServerOk(y.lo, y.hi, y.table, y.servers[id]);
      if latestVersion !in configs {
        return None;
      }
      return Some(configs[latestVersion]);
    }
  }

  // ---- What a pull takes in ----------------------------------------------------------------

  predicate Decodes(r: Row) {
    r.Row? && r.config.Some?
  }

  /** The i-th row is the last of those that decode. */
  predicate LastAt(rows: seq<Row>, i: nat)
    requires i < |rows|
  {
    Decodes(rows[i]) && forall j :: i < j < |rows| ==> !Decodes(rows[j])
  }

  predicate DecodesAs(r: Row, v: int) {
    Decodes(r) && r.version == v
  }

  /** The i-th row is the last of those that decode and have version `v`. */
  predicate LastOf(rows: seq<Row>, i: nat, v: int)
    requires i < |rows|
  {
    DecodesAs(rows[i], v) && forall j :: i < j < |rows| ==> !DecodesAs(rows[j], v)
  }

  /** The version moves to that of the last row that decodes, or to -1. */
  lemma {:induction false} LastDecodedExactly(rows: seq<Row>)
    ensures (forall i :: 0 <= i < |rows| ==> !Decodes(rows[i])) ==> LastDecoded(rows) == -1
    ensures forall i :: 0 <= i < |rows| && LastAt(rows, i) ==> LastDecoded(rows) == rows[i].version
  {
    if rows != [] {
      var n := |rows| - 1;
      LastDecodedExactly(rows[..n]);
      forall i | 0 <= i < |rows| && LastAt(rows, i)
        ensures LastDecoded(rows) == rows[i].version
      {
        assert i < n ==> LastAt(rows[..n], i);
      }
    }
  }

  lemma {:induction false} MergeTakes(configs: map<int, ServiceConfig>, rows: seq<Row>, i: nat, v: int)
    requires i < |rows| && LastOf(rows, i, v)
    ensures v in Merge(configs, rows) && Merge(configs, rows)[v] == rows[i].config.value
    decreases |rows|
  {
    var n := |rows| - 1;
    if i < n {
      assert !DecodesAs(rows[n], v) && LastOf(rows[..n], i, v);
      MergeTakes(configs, rows[..n], i, v);
    }
  }

  lemma {:induction false} MergeLeaves(configs: map<int, ServiceConfig>, rows: seq<Row>, v: int)
    requires forall i :: 0 <= i < |rows| ==> !DecodesAs(rows[i], v)
    ensures v in Merge(configs, rows) <==> v in configs
    ensures v in configs ==> Merge(configs, rows)[v] == configs[v]
  {
    if rows != [] {
      assert !DecodesAs(rows[|rows| - 1], v);
      MergeLeaves(configs, rows[..|rows| - 1], v);
    }
  }

  /** The cache holds the last decodable row of each version, and otherwise what it held. */
  lemma {:induction false} MergeExactly(configs: map<int, ServiceConfig>, rows: seq<Row>, v: int)
    ensures (forall i :: 0 <= i < |rows| ==> !DecodesAs(rows[i], v)) ==>
      (v in Merge(configs, rows) <==> v in configs) && (v in configs ==> Merge(configs, rows)[v] == configs[v])
    ensures forall i :: 0 <= i < |rows| && LastOf(rows, i, v) ==>
      v in Merge(configs, rows) && Merge(configs, rows)[v] == rows[i].config.value
  {
    if forall i :: 0 <= i < |rows| ==> !DecodesAs(rows[i], v) {
      MergeLeaves(configs, rows, v);
    }
    forall i | 0 <= i < |rows| && LastOf(rows, i, v)
      ensures v in Merge(configs, rows) && Merge(configs, rows)[v] == rows[i].config.value
    {
      MergeTakes(configs, rows, i, v);
    }
  }

  /** What is scanned is everything before the first row that cannot be. */
  lemma {:induction false} ScannedExactly(rows: seq<Row>)
    ensures Scanned(rows) <= rows && forall i :: 0 <= i < |Scanned(rows)| ==> rows[i].Row?
    ensures |Scanned(rows)| < |rows| ==> rows[|Scanned(rows)|].Unscannable?
  {
    if rows != [] && rows[0].Row? {
      ScannedExactly(rows[1..]);
      assert forall i :: 0 < i < |rows| ==> rows[i] == rows[1..][i - 1];
    }
  }

  // ---- The method is the protocol's pull -------------------------------------------------

  function Decodable(rows: seq<ServiceConfig>): seq<Row> {
    seq(|rows|, i requires 0 <= i < |rows| => Row(rows[i].version, Some(rows[i])))
  }

  /** A server after storing the next `n` rows of its query. */
  ghost function StoreRows(s: Server, n: nat): (s': Server)
    requires s.pull.Fetching? && s.pull.next + n <= |s.pull.rows|
    ensures s'.pull == s.pull.(next := s.pull.next + n) && s'.latest == s.latest
  {
    if n == 0 then s else ServerStep(StoreRows(s, n - 1), StoreRow(0))
  }

  lemma {:induction false} StoreRowsMerges(s: Server, rows: seq<ServiceConfig>, n: nat)
    requires s.pull == Fetching(rows, 0) && n <= |rows|
    ensures StoreRows(s, n).configs == Merge(s.configs, Decodable(rows)[..n])
  {
    if n > 0 {
      StoreRowsMerges(s, rows, n - 1);
      var d := Decodable(rows)[..n];
      assert d[..n - 1] == Decodable(rows)[..n - 1];
    } else {
      assert Decodable(rows)[..0] == [];
    }
  }

  /** Pulling rows that decode does what the protocol's query, row and finish steps
      do, one after the other. */
  lemma PullIsTheProtocol(s: Server, rows: seq<ServiceConfig>)
    requires s.pull.Resting? && rows != []
    ensures
      var s' := ServerStep(StoreRows(s.(pull := Fetching(rows, 0)), |rows|), FinishPull(0));
      s'.configs == Merge(s.configs, Decodable(rows)) && s'.latest == LastDecoded(Decodable(rows))
  {
    var s1 := StoreRows(s.(pull := Fetching(rows, 0)), |rows|);
    StoreRowsMerges(s.(pull := Fetching(rows, 0)), rows, |rows|);
    LastOfDecodable(rows);
    FinishTakesLast(s1, rows);
    assert Decodable(rows)[..|rows|] == Decodable(rows);
  }

  lemma LastOfDecodable(rows: seq<ServiceConfig>)
    requires rows != []
    ensures LastDecoded(Decodable(rows)) == rows[|rows| - 1].version
  {
  }

  lemma FinishTakesLast(s: Server, rows: seq<ServiceConfig>)
    requires rows != [] && s.pull == Fetching(rows, |rows|)
    ensures
      var s' := ServerStep(s, FinishPull(0));
      s'.configs == s.configs && s'.latest == rows[|rows| - 1].version
  {
  }

  /** A pull that fails at the n-th row does what storing the rows before it and then
      abandoning the pull does. */
  lemma FailedPullIsTheProtocol(s: Server, rows: seq<ServiceConfig>, n: nat)
    requires s.pull.Resting? && n <= |rows|
    ensures
      var s' := ServerStep(StoreRows(s.(pull := Fetching(rows, 0)), n), AbandonPull(0));
      s'.configs == Merge(s.configs, Scanned(Decodable(rows)[..n] + [Unscannable])) && s'.latest == s.latest &&
        s'.pull == s.pull
  {
    StoreRowsMerges(s.(pull := Fetching(rows, 0)), rows, n);
    ScannedUpTo(Decodable(rows)[..n] + [Unscannable], n);
    assert (Decodable(rows)[..n] + [Unscannable])[..n] == Decodable(rows)[..n];
  }

  // ---- Rows that do not decode ----------------------------------------------------------

  lemma {:induction false} LastDecodedBounds(rows: seq<Row>, latest: int)
    requires forall i :: 0 <= i < |rows| ==> rows[i].Row? && latest < rows[i].version
    ensures
      if exists i :: 0 <= i < |rows| && rows[i].config.Some? then latest < LastDecoded(rows)
      else LastDecoded(rows) == -1
  {
    if rows != [] {
      var n := |rows| - 1;
      LastDecodedBounds(rows[..n], latest);
      if rows[n].config.None? {
        assert (exists i :: 0 <= i < |rows| && rows[i].config.Some?) ==>
          exists i :: 0 <= i < |rows[..n]| && rows[..n][i].config.Some?;
      }
    }
  }

  /** A pull is meant to move forward. It moves the server's version backwards exactly
      when the server had a configuration and none of the new rows decodes; the
      version then is -1 and the configuration can no longer be read. */
  lemma PullRegressesIff(configs: map<int, ServiceConfig>, latest: int, rows: seq<Row>)
    requires -1 <= latest && rows != [] && (forall i :: 0 <= i < |rows| ==> rows[i].Row? && latest < rows[i].version)
    requires -1 !in configs
    ensures LastDecoded(rows) < latest <==> latest > -1 && forall i :: 0 <= i < |rows| ==> rows[i].config.None?
    ensures LastDecoded(rows) < latest ==> LastDecoded(rows) == -1 && -1 !in Merge(configs, rows)
  {
    LastDecodedBounds(rows, latest);
    MergeKeys(configs, rows, -1);
  }

  lemma {:induction false} MergeKeys(configs: map<int, ServiceConfig>, rows: seq<Row>, v: int)
    requires v !in configs && forall i :: 0 <= i < |rows| ==> rows[i].Row? && rows[i].version != v
    ensures v !in Merge(configs, rows)
  {
    if rows != [] {
      MergeKeys(configs, rows[..|rows| - 1], v);
    }
  }

  /** One unreadable row is enough to lose the configuration of a server. */
  lemma UnreadableRowHidesConfig(c: ServiceConfig)
    requires c.version >= 0
    ensures
      var rows := [Row(c.version + 1, None)];
      LastDecoded(rows) == -1 && -1 !in Merge(map[c.version := c], rows)
  {
    var rows := [Row(c.version + 1, None)];
    assert rows[..0] == [];
  }
}
