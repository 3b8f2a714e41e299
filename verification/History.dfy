// The admin console's undo/redo reducer (admin/public/src/reducers/history.jsx) over
// the namespace reducers (admin/public/src/reducers/namespaces.jsx).
//
// The console keeps past and future snapshots around the present one. A change is
// recorded as a type, a rendered key and a value; consecutive updates of the same type
// and key are merged into one entry.
module History {
  import opened Prelude

  // ---- Immutable trees ------------------------------------------------------------------

  datatype Json = Leaf(text: string) | Object(fields: map<string, Json>)

  function Fields(j: Json): map<string, Json> {
    if j.Object? then j.fields else map[]
  }

  /** Sets a value under a path; whatever is missing or not an object on the way
      becomes an object. */
  function SetIn(j: Json, path: seq<string>, v: Json): Json
    decreases |path|
  {
    if path == [] then v
    else
      var k := path[0];
      var child := if k in Fields(j) then Fields(j)[k] else Object(map[]);
      Object(Fields(j)[k := SetIn(child, path[1..], v)])
  }

  function GetIn(j: Json, path: seq<string>): Option<Json>
    decreases |path|
  {
    if path == [] then Some(j)
    else if path[0] in Fields(j) then GetIn(Fields(j)[path[0]], path[1..])
    else None
  }

  function Without(j: Json, k: string): Json
    requires j.Object?
  {
    Object(j.fields - {k})
  }

  /** The later of two settings of the same path wins. */
  lemma {:induction false} SetInTwice(j: Json, path: seq<string>, v: Json, w: Json)
    ensures SetIn(SetIn(j, path, v), path, w) == SetIn(j, path, w)
    decreases |path|
  {
    if path != [] {
      var k := path[0];
      var child := if k in Fields(j) then Fields(j)[k] else Object(map[]);
      SetInTwice(child, path[1..], v, w);
      assert Fields(j)[k := SetIn(child, path[1..], v)][k := SetIn(child, path[1..], w)]
          == Fields(j)[k := SetIn(child, path[1..], w)];
    }
  }

  lemma {:induction false} GetAfterSet(j: Json, path: seq<string>, v: Json)
    ensures GetIn(SetIn(j, path, v), path) == Some(v)
    decreases |path|
  {
    if path != [] {
      var child := if path[0] in Fields(j) then Fields(j)[path[0]] else Object(map[]);
      GetAfterSet(child, path[1..], v);
    }
  }

  /** Setting what is already there changes nothing. */
  lemma {:induction false} SetWhatIsThere(j: Json, path: seq<string>, v: Json)
    requires GetIn(j, path) == Some(v)
    ensures SetIn(j, path, v) == j
    decreases |path|
  {
    if path != [] {
      SetWhatIsThere(Fields(j)[path[0]], path[1..], v);
      assert Fields(j)[path[0] := Fields(j)[path[0]]] == Fields(j);
    }
  }

  /** Neither path runs through the other. */
  ghost predicate Apart(p: seq<string>, q: seq<string>)
    decreases |p|
  {
    p != [] && q != [] && (p[0] != q[0] || Apart(p[1..], q[1..]))
  }

  lemma {:induction false} GetApart(j: Json, p: seq<string>, q: seq<string>, v: Json)
    requires Apart(p, q)
    ensures GetIn(SetIn(j, q, v), p) == GetIn(j, p)
    decreases |p|
  {
    if p[0] == q[0] {
      var k := p[0];
      if k in Fields(j) {
        GetApart(Fields(j)[k], p[1..], q[1..], v);
      } else {
        GetApart(Object(map[]), p[1..], q[1..], v);
        assert GetIn(Object(map[]), p[1..]) == None;
      }
    }
  }

  // ---- Mutations -----------------------------------------------------------------------------

  datatype Mutation =
    | AddNamespace(ns: string)
    | UpdateNamespace(ns: string, key: string, value: Json)
    | RemoveNamespace(ns: string)
    | AddBucket(ns: string, bucket: string)
    | UpdateBucket(ns: string, bucket: string, key: string, value: Json)
    | RemoveBucket(ns: string, bucket: string)

  /** Two bucket names stand for fields of the namespace itself. */
  function SpecialKey(bucket: string): Option<string> {
    if bucket == "___DEFAULT_BUCKET___" then Some("default_bucket")
    else if bucket == "___DYNAMIC_BUCKET_TPL___" then Some("dynamic_bucket_template")
    else None
  }

  function BucketPath(ns: string, bucket: string): seq<string> {
    match SpecialKey(bucket)
    case Some(k) => [ns, k]
    case None => [ns, "buckets", bucket]
  }

  function Shown(bucket: string): string {
    match SpecialKey(bucket)
    case Some(k) => k
    case None => bucket
  }

  datatype Change = Change(kind: string, key: string, value: Option<Json>)

  /** What the console records of a mutation. */
  function Render(m: Mutation): Change {
    match m
    case AddNamespace(ns) => Change("ADD_NAMESPACE", ns, None)
    case UpdateNamespace(ns, key, v) => Change("UPDATE_NAMESPACE", ns + "." + key, Some(v))
    case RemoveNamespace(ns) => Change("REMOVE_NAMESPACE", ns, None)
    case AddBucket(ns, b) => Change("ADD_BUCKET", ns + "." + Shown(b), None)
    case UpdateBucket(ns, b, key, v) => Change("UPDATE_BUCKET", ns + "." + Shown(b) + "." + key, Some(v))
    case RemoveBucket(ns, b) => Change("REMOVE_BUCKET", ns + "." + Shown(b), None)
  }

  /** Everything the console's state holds besides its history. */
  datatype Present = Present(items: Json, version: Option<int>)

  /** The path an update sets. */
  function UpdatePath(m: Mutation): seq<string>
    requires m.UpdateNamespace? || m.UpdateBucket?
  {
    if m.UpdateNamespace? then [m.ns, m.key] else BucketPath(m.ns, m.bucket) + [m.key]
  }

  /** The present after a mutation; none when the reducer fails because there is
      nothing to remove from. */
  function Apply(p: Present, m: Mutation): Option<Present> {
    match m
    case AddNamespace(ns) =>
      Some(p.(items := SetIn(p.items, [ns], Object(map["buckets" := Object(map[]), "name" := Leaf(ns)]))))
    case UpdateNamespace(ns, key, v) => Some(p.(items := SetIn(p.items, UpdatePath(m), v)))
    case RemoveNamespace(ns) => if p.items.Object? then Some(p.(items := Without(p.items, ns))) else None
    case AddBucket(ns, b) =>
      Some(p.(items := SetIn(p.items, BucketPath(ns, b), Object(map["name" := Leaf(b), "namespace" := Leaf(ns)]))))
    case UpdateBucket(ns, b, key, v) => Some(p.(items := SetIn(p.items, UpdatePath(m), v)))
    case RemoveBucket(ns, b) =>
      var holder := if SpecialKey(b).Some? then [ns] else [ns, "buckets"];
      match GetIn(p.items, holder)
      case Some(Object(fields)) => Some(p.(items := SetIn(p.items, holder, Without(Object(fields), Shown(b)))))
      case _ => None
  }

  // ---- What a mutation does, and what it leaves alone --------------------------------------------

  /** The place of a bucket: the default bucket and the dynamic template are fields of
      their namespace, and all others are among its buckets. */
  function PlaceOfBucket(ns: string, bucket: string): seq<string> {
    if bucket == "___DEFAULT_BUCKET___" then [ns, "default_bucket"]
    else if bucket == "___DYNAMIC_BUCKET_TPL___" then [ns, "dynamic_bucket_template"]
    else [ns, "buckets", bucket]
  }

  /** The one place that a mutation is about. */
  function Place(m: Mutation): seq<string> {
    match m
    case AddNamespace(ns) => [ns]
    case UpdateNamespace(ns, key, _) => [ns, key]
    case RemoveNamespace(ns) => [ns]
    case AddBucket(ns, b) => PlaceOfBucket(ns, b)
    case UpdateBucket(ns, b, key, _) => PlaceOfBucket(ns, b) + [key]
    case RemoveBucket(ns, b) => PlaceOfBucket(ns, b)
  }

  /** What stands there afterwards, if anything. */
  function Left(m: Mutation): Option<Json> {
    match m
    case AddNamespace(ns) => Some(Object(map["name" := Leaf(ns), "buckets" := Object(map[])]))
    case UpdateNamespace(_, _, v) => Some(v)
    case RemoveNamespace(_) => None
    case AddBucket(ns, b) => Some(Object(map["namespace" := Leaf(ns), "name" := Leaf(b)]))
    case UpdateBucket(_, _, _, v) => Some(v)
    case RemoveBucket(_, _) => None
  }

  /** From `p` to `q` the place of a mutation is set or cleared, and nothing else changes. */
  ghost predicate Effect(p: Present, m: Mutation, q: Present) {
    && q.version == p.version
    && GetIn(q.items, Place(m)) == Left(m)
    && forall path :: Apart(path, Place(m)) ==> GetIn(q.items, path) == GetIn(p.items, path)
  }

  /** What has to be there to remove from. */
  function Holder(m: Mutation): seq<string>
    requires m.RemoveNamespace? || m.RemoveBucket?
  {
    Place(m)[..|Place(m)| - 1]
  }

  /** Every mutation sets or clears exactly its own place. It fails only when it is to
      remove from something that is not there. */
  lemma ApplyExactly(p: Present, m: Mutation)
    ensures Apply(p, m).None? <==>
      (m.RemoveNamespace? || m.RemoveBucket?) && !(GetIn(p.items, Holder(m)).Some? &&
        GetIn(p.items, Holder(m)).value.Object?)
    ensures Apply(p, m).Some? ==> Effect(p, m, Apply(p, m).value)
  {
    match m
    case AddNamespace(ns) =>
      SetExactly(p.items, [ns], Left(m).value);
      assert map["name" := Leaf(ns), "buckets" := Object(map[])] == map["buckets" := Object(map[]), "name" := Leaf(ns)];
    case UpdateNamespace(_, _, v) => SetExactly(p.items, Place(m), v);
    case AddBucket(ns, b) =>
      SetExactly(p.items, Place(m), Left(m).value);
      assert map["namespace" := Leaf(ns), "name" := Leaf(b)] == map["name" := Leaf(b), "namespace" := Leaf(ns)];
    case UpdateBucket(_, _, _, v) => SetExactly(p.items, Place(m), v);
    case RemoveNamespace(ns) =>
      assert Holder(m) == [] && [] + [ns] == [ns];
      if p.items.Object? {
        ClearExactly(p.items, [], ns, p.items);
      }
    case RemoveBucket(_, _) => RemovalOfBucket(p, m);
  }

  lemma RemovalOfBucket(p: Present, m: Mutation)
    requires m.RemoveBucket?
    ensures Apply(p, m).None? <==> !(GetIn(p.items, Holder(m)).Some? && GetIn(p.items, Holder(m)).value.Object?)
    ensures Apply(p, m).Some? ==> Effect(p, m, Apply(p, m).value)
  {
    var holder := if SpecialKey(m.bucket).Some? then [m.ns] else [m.ns, "buckets"];
    assert Place(m) == holder + [Shown(m.bucket)] && Holder(m) == holder;
    if GetIn(p.items, holder).Some? && GetIn(p.items, holder).value.Object? {
      ClearExactly(p.items, holder, Shown(m.bucket), GetIn(p.items, holder).value);
    }
  }

  lemma SetExactly(j: Json, place: seq<string>, v: Json)
    ensures GetIn(SetIn(j, place, v), place) == Some(v)
    ensures forall path :: Apart(path, place) ==> GetIn(SetIn(j, place, v), path) == GetIn(j, path)
  {
    GetAfterSet(j, place, v);
    forall path | Apart(path, place)
      ensures GetIn(SetIn(j, place, v), path) == GetIn(j, path)
    {
      GetApart(j, path, place, v);
    }
  }

  /** Taking one field out of an object. */
  lemma ClearExactly(j: Json, holder: seq<string>, k: string, o: Json)
    requires GetIn(j, holder) == Some(o) && o.Object?
    ensures GetIn(SetIn(j, holder, Without(o, k)), holder + [k]) == None
    ensures forall path :: Apart(path, holder + [k]) ==> GetIn(SetIn(j, holder, Without(o, k)), path) == GetIn(j, path)
  {
    var j' := SetIn(j, holder, Without(o, k));
    GetAfterSet(j, holder, Without(o, k));
    GetBelow(j', holder, Without(o, k), k);
    forall path | Apart(path, holder + [k])
      ensures GetIn(j', path) == GetIn(j, path)
    {
      ClearLeaves(j, holder, k, o, path);
    }
  }

  lemma {:induction false} ClearLeaves(j: Json, holder: seq<string>, k: string, o: Json, path: seq<string>)
    requires GetIn(j, holder) == Some(o) && o.Object? && Apart(path, holder + [k])
    ensures GetIn(SetIn(j, holder, Without(o, k)), path) == GetIn(j, path)
    decreases |holder|
  {
    if holder == [] {
      assert holder + [k] == [k] && path[0] != k by {
        assert [k][1..] == [];
      }
    } else {
      assert (holder + [k])[1..] == holder[1..] + [k];
      if path[0] == holder[0] {
        ClearLeaves(Fields(j)[holder[0]], holder[1..], k, o, path[1..]);
      }
    }
  }

  lemma {:induction false} GetBelow(j: Json, path: seq<string>, v: Json, k: string)
    requires GetIn(j, path) == Some(v) && k !in Fields(v)
    ensures GetIn(j, path + [k]) == None
    decreases |path|
  {
    if path != [] {
      assert (path + [k])[1..] == path[1..] + [k];
      GetBelow(Fields(j)[path[0]], path[1..], v, k);
    }
  }

  // ---- The history ---------------------------------------------------------------------------

  datatype Entry = Entry(state: Present, change: Change)

  /** The most recent past entry is first, the next future entry last. */
  datatype State = State(present: Present, past: seq<Entry>, future: seq<Entry>)

  const INITIAL: State := State(Present(Object(map[]), None), [], [])

  function Undo(s: State): State {
    if |s.past| < 1 then s
    else
      var e := s.past[0];
      State(e.state, s.past[1..], s.future + [e.(state := s.present)])
  }

  function Redo(s: State): State {
    if |s.future| < 1 then s
    else
      var e := s.future[|s.future| - 1];
      State(e.state, [e.(state := s.present)] + s.past, s.future[..|s.future| - 1])
  }

  predicate ChangesMergeable(previous: Change, current: Change) {
    current.kind in ["UPDATE_NAMESPACE", "UPDATE_BUCKET"] && previous.kind == current.kind &&
      previous.key == current.key
  }

  predicate Merges(s: State, m: Mutation) {
    s.past != [] && ChangesMergeable(s.past[0].change, Render(m))
  }

  function Reduce(s: State, m: Mutation): State {
    match Apply(s.present, m)
    case None => s
    case Some(next) =>
      var past :=
        if Merges(s, m) then [Entry(s.past[0].state, Render(m))] + s.past[1..]
        else [Entry(s.present, Render(m))] + s.past;
      State(next, past, [])
  }

  datatype Action = UndoIt | RedoIt | Mutate(m: Mutation) | Load(items: Json, version: int) | Ignore

  function Step(s: State, a: Action): State {
    match a
    case UndoIt => Undo(s)
    case RedoIt => Redo(s)
    case Mutate(m) => Reduce(s, m)
    case Load(items, version) => State(Present(items, Some(version)), [], [])
    case Ignore => s
  }

  function Run(s: State, acts: seq<Action>): State {
    if acts == [] then s else Step(Run(s, acts[..|acts| - 1]), acts[|acts| - 1])
  }

  // ---- A cursor on a timeline --------------------------------------------------------------------

  function Length(s: State): nat {
    |s.past| + |s.future|
  }

  function StateAt(s: State, i: nat): Present
    requires i <= Length(s)
  {
    if i < |s.past| then s.past[|s.past| - 1 - i].state
    else if i == |s.past| then s.present
    else s.future[|s.future| - (i - |s.past|)].state
  }

  /** The change recorded between the i-th state and the next. */
  function ChangeAt(s: State, i: nat): Change
    requires i < Length(s)
  {
    var e := if i < |s.past| then s.past[|s.past| - 1 - i] else s.future[|s.future| - 1 - (i - |s.past|)];
    e.change
  }

  ghost predicate SameTimeline(s: State, t: State) {
    && Length(s) == Length(t)
    && (forall i :: 0 <= i <= Length(s) ==> StateAt(s, i) == StateAt(t, i))
    && (forall i :: 0 <= i < Length(s) ==> ChangeAt(s, i) == ChangeAt(t, i))
  }

  /** Undo and redo move the cursor by one and leave the timeline as it is. */
  lemma UndoRedoMoveTheCursor(s: State)
    ensures SameTimeline(s, Undo(s)) && |Undo(s).past| == if |s.past| > 0 then |s.past| - 1 else 0
    ensures SameTimeline(s, Redo(s)) && |Redo(s).past| == if |s.future| > 0 then |s.past| + 1 else |s.past|
  {
    if |s.past| > 0 {
      var t := Undo(s);
      forall i | 0 <= i <= Length(s) ensures StateAt(s, i) == StateAt(t, i) {}
      forall i | 0 <= i < Length(s) ensures ChangeAt(s, i) == ChangeAt(t, i) {}
    }
    if |s.future| > 0 {
      var t := Redo(s);
      forall i | 0 <= i <= Length(s) ensures StateAt(s, i) == StateAt(t, i) {}
      forall i | 0 <= i < Length(s) ensures ChangeAt(s, i) == ChangeAt(t, i) {}
    }
  }

  /** Undo and redo are inverse to each other wherever they do anything. */
  lemma UndoRedoInverse(s: State)
    ensures s.past != [] ==> Redo(Undo(s)) == s
    ensures s.future != [] ==> Undo(Redo(s)) == s
  {
    if s.past != [] {
      assert [s.past[0]] + s.past[1..] == s.past;
      assert (s.future + [s.past[0].(state := s.present)])[..|s.future|] == s.future;
    }
    if s.future != [] {
      var n := |s.future| - 1;
      assert s.future[..n] + [s.future[n]] == s.future;
      assert ([s.future[n].(state := s.present)] + s.past)[1..] == s.past;
    }
  }

  /** Loading a configuration shows it with its version, and leaves nothing of what was done
      before to undo or redo; actions of no concern change nothing. */
  lemma LoadStartsAfresh(s: State, items: Json, version: int)
    ensures
      var t := Step(s, Load(items, version));
      && t.present.items == items && t.present.version == Some(version) && Length(t) == 0
      && Undo(t) == t && Redo(t) == t && Step(s, Ignore) == s
  {
  }

  // ---- The recorded changes tell the story ----------------------------------------------------------

  /** Mutation `n` renders as the i-th recorded change and leads from the i-th state to
      the next. */
  ghost predicate LedBy(s: State, i: nat, n: Mutation)
    requires i < Length(s)
  {
    Render(n) == ChangeAt(s, i) && Apply(StateAt(s, i), n) == Some(StateAt(s, i + 1))
  }

  /** The recorded change explains how the next state came about. */
  ghost predicate Linked(s: State, i: nat)
    requires i < Length(s)
  {
    exists n :: LedBy(s, i, n)
  }

  ghost predicate Chain(s: State) {
    forall i :: 0 <= i < Length(s) ==> Linked(s, i)
  }

  lemma SameTimelineSameLink(s: State, t: State, i: nat, n: Mutation)
    requires SameTimeline(s, t) && i < Length(s) && LedBy(s, i, n)
    ensures LedBy(t, i, n)
  {
    assert StateAt(s, i) == StateAt(t, i) && StateAt(s, i + 1) == StateAt(t, i + 1);
  }

  ghost predicate SameKind(m: Mutation, n: Mutation) {
    (m.UpdateNamespace? && n.UpdateNamespace?) || (m.UpdateBucket? && n.UpdateBucket?)
  }

  /** Two updates that render alike but set different places. */
  ghost predicate Clash(m: Mutation, n: Mutation) {
    SameKind(m, n) && Render(m).key == Render(n).key && UpdatePath(m) != UpdatePath(n)
  }

  lemma DifferentPathsAreApart(m: Mutation, n: Mutation)
    requires SameKind(m, n) && UpdatePath(m) != UpdatePath(n)
    ensures Apart(UpdatePath(m), UpdatePath(n))
  {
    var p, q := UpdatePath(m), UpdatePath(n);
    if |p| == |q| {
      SameLengthApart(p, q);
    } else {
      assert p[1] != q[1];
      assert p[0] == q[0] ==> Apart(p[1..], q[1..]);
    }
  }

  lemma {:induction false} SameLengthApart(p: seq<string>, q: seq<string>)
    requires |p| == |q| && p != q
    ensures Apart(p, q)
    decreases |p|
  {
    if p[0] == q[0] {
      assert p == [p[0]] + p[1..] && q == [q[0]] + q[1..];
      SameLengthApart(p[1..], q[1..]);
    }
  }

  /** Merging two updates: dropping the first is sound if both set the same place, and
      otherwise only if the first had changed nothing. */
  lemma MergeSoundIff(p: Present, m: Mutation, n: Mutation)
    requires SameKind(m, n)
    ensures Apply(p, m).Some? && Apply(Apply(p, m).value, n).Some?
    ensures Apply(p, n) == Apply(Apply(p, m).value, n) <==> UpdatePath(m) == UpdatePath(n) || Apply(p, m).value == p
  {
    var j, a, b := p.items, UpdatePath(m), UpdatePath(n);
    var j' := SetIn(j, a, m.value);
    if a == b {
      SetInTwice(j, a, m.value, n.value);
    } else {
      DifferentPathsAreApart(m, n);
      GetApart(j, a, b, n.value);
      GetApart(j', a, b, n.value);
      GetAfterSet(j, a, m.value);
      if SetIn(j', b, n.value) == SetIn(j, b, n.value) {
        SetWhatIsThere(j, a, m.value);
      }
    }
  }

  /** The merged entry still explains the present: the previous update was of this very
      place (or might have been, by its effect), or it had changed nothing, or this one
      repeats its value and changes nothing. */
  predicate MergeHarmless(s: State, m: Mutation)
    requires s.past != [] && (m.UpdateNamespace? || m.UpdateBucket?)
  {
    var e := s.past[0];
    || (e.change.value.Some? && Apply(e.state, m.(value := e.change.value.value)) == Some(s.present))
    || e.state == s.present
    || (e.change.value == Some(m.value) && Apply(s.present, m) == Some(s.present))
  }

  /** If one update led from `p` to `q` and `m` led on to `r`, then some update recorded
      like `m` leads straight from `p` to `r` exactly in those three cases. */
  lemma OneUpdateForTwoOnlyIf(p: Present, n1: Mutation, m: Mutation, n: Mutation)
    requires SameKind(n1, m) && SameKind(n, m) && n.value == m.value
    requires Apply(Apply(p, n1).value, m) == Apply(p, n)
    ensures
      || Apply(p, m.(value := n1.value)) == Apply(p, n1)
      || Apply(p, n1) == Some(p)
      || (n1.value == m.value && Apply(Apply(p, n1).value, m) == Apply(p, n1))
  {
    var p1, p2, pn := UpdatePath(n1), UpdatePath(m), UpdatePath(n);
    assert UpdatePath(m.(value := n1.value)) == p2;
    if p1 != p2 {
      var j := p.items;
      var j1 := SetIn(j, p1, n1.value);
      DifferentPathsAreApart(n1, m);
      GetAfterSet(j, p1, n1.value);
      GetApart(j1, p1, p2, m.value);
      if pn == p1 {
        GetAfterSet(j, p1, n.value);
      } else {
        DifferentPathsAreApart(n1, n);
        GetApart(j, p1, pn, n.value);
        SetWhatIsThere(j, p1, n1.value);
      }
    }
  }

  lemma RenderedUpdate(n: Mutation, m: Mutation)
    requires m.UpdateNamespace? || m.UpdateBucket?
    requires Render(n).kind == Render(m).kind
    ensures SameKind(n, m) && Render(n).value == Some(n.value) && Render(m).value == Some(m.value)
  {
    assert "UPDATE_NAMESPACE"[0] == 'U' && "UPDATE_BUCKET"[0] == 'U' && "UPDATE_NAMESPACE"[7] != "UPDATE_BUCKET"[7];
    assert Render(n).kind[0] == 'U';
  }

  /** Exactly when a mutation keeps the story straight: unless it merges into an entry
      and the merge does harm. */
  lemma ReduceKeepsChainIff(s: State, m: Mutation)
    requires Chain(s) && Apply(s.present, m).Some?
    ensures Merges(s, m) ==> m.UpdateNamespace? || m.UpdateBucket?
    ensures Chain(Reduce(s, m)) <==> !Merges(s, m) || MergeHarmless(s, m)
  {
    var t := Reduce(s, m);
    if Merges(s, m) {
      assert Render(m).kind[0] == 'U';
      var top := |s.past| - 1;
      assert Linked(s, top);
      var n1 :| LedBy(s, top, n1);
      assert StateAt(s, top + 1) == s.present && StateAt(s, top) == s.past[0].state &&
        ChangeAt(s, top) == s.past[0].change;
      assert Length(t) == top + 1 && StateAt(t, top) == s.past[0].state && StateAt(t, top + 1) == t.present;
      RenderedUpdate(n1, m);
      if Linked(t, top) {
        var n :| LedBy(t, top, n);
        RenderedUpdate(n, m);
        OneUpdateForTwoOnlyIf(s.past[0].state, n1, m, n);
        assert MergeHarmless(s, m);
      }
      if MergeHarmless(s, m) {
        MergedEntryLeads(s, m, n1);
      }
      OlderLinksStay(s, t, top);
    } else {
      var top := |s.past|;
      assert Length(t) == top + 1 && StateAt(t, top) == s.present && StateAt(t, top + 1) == t.present;
      assert LedBy(t, top, m);
      OlderLinksStay(s, t, top);
    }
  }

  lemma MergedEntryLeads(s: State, m: Mutation, n1: Mutation)
    requires Merges(s, m) && SameKind(n1, m) && MergeHarmless(s, m) && Apply(s.present, m).Some?
    requires Render(n1) == s.past[0].change && Apply(s.past[0].state, n1) == Some(s.present)
    ensures Linked(Reduce(s, m), |s.past| - 1)
  {
    var t, top := Reduce(s, m), |s.past| - 1;
    assert Length(t) == top + 1 && StateAt(t, top) == s.past[0].state && StateAt(t, top + 1) == t.present;
    var m1 := m.(value := n1.value);
    if Apply(s.past[0].state, m1) == Some(s.present) {
      MergeSoundIff(s.past[0].state, m1, m);
      assert LedBy(t, top, m);
    } else if s.past[0].state == s.present {
      assert LedBy(t, top, m);
    } else {
      assert LedBy(t, top, n1);
    }
  }

  /** Below the newest entry nothing moves. */
  lemma OlderLinkStays(s: State, t: State, top: nat, i: nat, n: Mutation)
    requires i < top <= |s.past| && |t.past| == top + 1 && t.future == [] && LedBy(s, i, n)
    requires t.past[1..] == s.past[|s.past| - top..]
    requires t.past[0].state == (if top == |s.past| then s.present else s.past[|s.past| - 1 - top].state)
    ensures LedBy(t, i, n)
  {
    assert t.past[|t.past| - 1 - i] == t.past[1..][top - 1 - i] == s.past[|s.past| - 1 - i];
    assert StateAt(t, i) == StateAt(s, i);
    if i + 1 < top {
      assert t.past[|t.past| - 1 - (i + 1)] == t.past[1..][top - 1 - (i + 1)];
    }
    assert StateAt(t, i + 1) == StateAt(s, i + 1);
  }

  lemma OlderLinksStay(s: State, t: State, top: nat)
    requires Chain(s) && top <= |s.past| && |t.past| == top + 1 && t.future == []
    requires t.past[1..] == s.past[|s.past| - top..]
    requires t.past[0].state == (if top == |s.past| then s.present else s.past[|s.past| - 1 - top].state)
    ensures forall i :: 0 <= i < top ==> Linked(t, i)
  {
    forall i | 0 <= i < top
      ensures Linked(t, i)
    {
      assert Linked(s, i);
      var n :| LedBy(s, i, n);
      OlderLinkStays(s, t, top, i, n);
    }
  }

  /** The key that an update is recorded under: namespace, bucket as it is stored, and
      field, joined with dots. */
  function KeyOf(m: Mutation): string
    requires m.UpdateNamespace? || m.UpdateBucket?
  {
    if m.UpdateNamespace? then m.ns + "." + m.key
    else
      var place := PlaceOfBucket(m.ns, m.bucket);
      m.ns + "." + place[|place| - 1] + "." + m.key
  }

  /** The last recorded change is an update of the same type and key. */
  predicate Continues(s: State, m: Mutation) {
    && s.past != [] && (m.UpdateNamespace? || m.UpdateBucket?)
    && s.past[0].change.kind == (if m.UpdateNamespace? then "UPDATE_NAMESPACE" else "UPDATE_BUCKET")
    && s.past[0].change.key == KeyOf(m)
  }

  /** What one undo takes back: an update together with the updates of the same type and
      key that it continues, whatever was undone before, and any other mutation alone.
      There is nothing to redo after a mutation, and one that fails leaves everything as
      it was. */
  lemma UndoTakesBack(s: State, m: Mutation)
    ensures Apply(s.present, m).None? ==> Reduce(s, m) == s
    ensures Apply(s.present, m).Some? ==>
      var t := Reduce(s, m);
      && t.present == Apply(s.present, m).value && t.future == []
      && t.past != [] && t.past[0].change == Render(m)
      && Undo(t).present == (if Continues(s, m) then s.past[0].state else s.present)
      && Undo(t).past == (if Continues(s, m) then s.past[1..] else s.past)
  {
    MergesExactly(s, m);
  }

  lemma MergesExactly(s: State, m: Mutation)
    ensures Merges(s, m) <==> Continues(s, m)
  {
    if m.UpdateNamespace? || m.UpdateBucket? {
      assert m.UpdateBucket? ==> Shown(m.bucket) == PlaceOfBucket(m.ns, m.bucket)[|PlaceOfBucket(m.ns, m.bucket)| - 1];
    } else {
      assert Render(m).kind[0] != 'U' && "UPDATE_NAMESPACE"[0] == 'U' && "UPDATE_BUCKET"[0] == 'U';
    }
  }

  /** A burst of updates of one field is undone in one go. */
  lemma BurstIsOneUndo(s: State, m: Mutation, n: Mutation)
    requires SameKind(m, n) && Render(m).key == Render(n).key && !Merges(s, m)
    ensures
      var t := Undo(Reduce(Reduce(s, m), n));
      t.present == s.present && t.past == s.past && |Reduce(Reduce(s, m), n).past| == |s.past| + 1
  {
    var once := Reduce(s, m);
    assert once.past[0] == Entry(s.present, Render(m)) && once.past[1..] == s.past;
    assert Merges(once, n);
    var twice := Reduce(once, n);
    assert twice.past[1..] == s.past;
  }

  // ---- Names that never clash --------------------------------------------------------------------

  /** A name that cannot be confused when names are joined with dots. */
  ghost predicate Plain(name: string) {
    '.' !in name
  }

  ghost predicate PlainBucket(bucket: string) {
    Plain(bucket) && bucket != "default_bucket" && bucket != "dynamic_bucket_template"
  }

  ghost predicate PlainUpdate(m: Mutation) {
    && (m.UpdateNamespace? ==> Plain(m.ns))
    && (m.UpdateBucket? ==> Plain(m.ns) && PlainBucket(m.bucket))
  }

  /** Text before the first dot determines where it is. */
  lemma SplitAtFirstDot(a: string, b: string, c: string, d: string)
    requires Plain(a) && Plain(c) && a + "." + b == c + "." + d
    ensures a == c && b == d
  {
    var s := a + "." + b;
    assert s[|a|] == '.' && s[|c|] == '.';
    assert forall i :: 0 <= i < |a| ==> s[i] == a[i] && a[i] in a;
    assert forall i :: 0 <= i < |c| ==> s[i] == c[i] && c[i] in c;
    assert |a| == |c|;
    assert a == s[..|a|] && c == s[..|c|] && b == s[|a| + 1..] && d == s[|c| + 1..];
  }

  lemma PlainNamespacesNeverClash(m: Mutation, n: Mutation)
    requires m.UpdateNamespace? && n.UpdateNamespace? && Plain(m.ns) && Plain(n.ns)
    ensures !Clash(m, n)
  {
    if Render(m).key == Render(n).key {
      SplitAtFirstDot(m.ns, m.key, n.ns, n.key);
    }
  }

  lemma ShownIsPlain(b: string)
    requires PlainBucket(b)
    ensures Plain(Shown(b))
  {
  }

  lemma ShownIsInjective(b: string, c: string)
    requires PlainBucket(b) && PlainBucket(c) && Shown(b) == Shown(c)
    ensures b == c
  {
    assert "default_bucket"[1] != "dynamic_bucket_template"[1];
  }

  lemma PlainBucketsNeverClash(m: Mutation, n: Mutation)
    requires m.UpdateBucket? && n.UpdateBucket? && PlainUpdate(m) && PlainUpdate(n)
    ensures !Clash(m, n)
  {
    if Render(m).key == Render(n).key {
      var mb, nb := Shown(m.bucket), Shown(n.bucket);
      ShownIsPlain(m.bucket);
      ShownIsPlain(n.bucket);
      assert m.ns + "." + mb + "." + m.key == m.ns + "." + (mb + "." + m.key);
      assert n.ns + "." + nb + "." + n.key == n.ns + "." + (nb + "." + n.key);
      SplitAtFirstDot(m.ns, mb + "." + m.key, n.ns, nb + "." + n.key);
      SplitAtFirstDot(mb, m.key, nb, n.key);
      ShownIsInjective(m.bucket, n.bucket);
    }
  }

  ghost predicate PlainNames(m: Mutation) {
    Plain(m.ns) && (m.AddBucket? || m.UpdateBucket? || m.RemoveBucket? ==> PlainBucket(m.bucket))
  }

  /** Which of the six kinds a record names. */
  lemma KindsAreDistinct(m: Mutation, n: Mutation)
    requires Render(m).kind == Render(n).kind
    ensures (m.AddNamespace? <==> n.AddNamespace?) && (m.UpdateNamespace? <==> n.UpdateNamespace?)
    ensures (m.RemoveNamespace? <==> n.RemoveNamespace?) && (m.AddBucket? <==> n.AddBucket?)
    ensures (m.UpdateBucket? <==> n.UpdateBucket?) && (m.RemoveBucket? <==> n.RemoveBucket?)
  {
    assert |"ADD_NAMESPACE"| == 13 && |"UPDATE_NAMESPACE"| == 16 && |"REMOVE_NAMESPACE"| == 16;
    assert |"ADD_BUCKET"| == 10 && |"UPDATE_BUCKET"| == 13 && |"REMOVE_BUCKET"| == 13;
    assert "ADD_NAMESPACE"[0] == 'A' && "UPDATE_NAMESPACE"[0] == 'U' && "REMOVE_NAMESPACE"[0] == 'R';
    assert "ADD_BUCKET"[0] == 'A' && "UPDATE_BUCKET"[0] == 'U' && "REMOVE_BUCKET"[0] == 'R';
  }

  /** A record loses nothing: for plain names, its type, key and value give the mutation
      back. */
  lemma RecordsAreUnambiguous(m: Mutation, n: Mutation)
    requires PlainNames(m) && PlainNames(n) && Render(m) == Render(n)
    ensures m == n
  {
    KindsAreDistinct(m, n);
    if m.UpdateNamespace? {
      SplitAtFirstDot(m.ns, m.key, n.ns, n.key);
    } else if m.AddBucket? || m.RemoveBucket? {
      SplitAtFirstDot(m.ns, Shown(m.bucket), n.ns, Shown(n.bucket));
      ShownIsInjective(m.bucket, n.bucket);
    } else if m.UpdateBucket? {
      UpdatesAreUnambiguous(m, n);
    }
  }

  lemma UpdatesAreUnambiguous(m: Mutation, n: Mutation)
    requires m.UpdateBucket? && n.UpdateBucket? && PlainNames(m) && PlainNames(n) && Render(m) == Render(n)
    ensures m == n
  {
    var mb, nb := Shown(m.bucket), Shown(n.bucket);
    ShownIsPlain(m.bucket);
    ShownIsPlain(n.bucket);
    assert m.ns + "." + mb + "." + m.key == m.ns + "." + (mb + "." + m.key);
    assert n.ns + "." + nb + "." + n.key == n.ns + "." + (nb + "." + n.key);
    SplitAtFirstDot(m.ns, mb + "." + m.key, n.ns, nb + "." + n.key);
    SplitAtFirstDot(mb, m.key, nb, n.key);
    ShownIsInjective(m.bucket, n.bucket);
  }

  /** Every recorded change comes from a plain mutation. */
  ghost predicate PlainChain(s: State) {
    forall i :: 0 <= i < Length(s) ==> PlainlyLinked(s, i)
  }

  ghost predicate PlainlyLinked(s: State, i: nat)
    requires i < Length(s)
  {
    exists n :: LedBy(s, i, n) && PlainUpdate(n)
  }

  lemma SameTimelinePlainChain(s: State, t: State)
    requires SameTimeline(s, t) && PlainChain(s)
    ensures PlainChain(t)
  {
    forall i | 0 <= i < Length(t)
      ensures PlainlyLinked(t, i)
    {
      assert PlainlyLinked(s, i);
      var n :| LedBy(s, i, n) && PlainUpdate(n);
      SameTimelineSameLink(s, t, i, n);
    }
  }

  /** Merged plain updates are of one place, so the later one leads from the snapshot. */
  lemma PlainMergeIsSound(p: Present, n1: Mutation, m: Mutation)
    requires SameKind(n1, m) && Render(n1).key == Render(m).key && PlainUpdate(n1) && PlainUpdate(m)
    ensures Apply(p, n1).Some? && Apply(p, m) == Apply(Apply(p, n1).value, m)
  {
    if m.UpdateNamespace? { PlainNamespacesNeverClash(n1, m); } else { PlainBucketsNeverClash(n1, m); }
    MergeSoundIff(p, n1, m);
  }

  lemma PlainTopLink(s: State, m: Mutation)
    requires PlainChain(s) && PlainUpdate(m) && Apply(s.present, m).Some?
    ensures LedBy(Reduce(s, m), |Reduce(s, m).past| - 1, m)
  {
    var t := Reduce(s, m);
    var top := |t.past| - 1;
    assert StateAt(t, top) == t.past[0].state && StateAt(t, top + 1) == t.present;
    if Merges(s, m) {
      assert Render(m).kind[0] == 'U';
      assert StateAt(s, top + 1) == s.present && StateAt(s, top) == s.past[0].state &&
        ChangeAt(s, top) == s.past[0].change;
      assert PlainlyLinked(s, top);
      var n1 :| LedBy(s, top, n1) && PlainUpdate(n1);
      RenderedUpdate(n1, m);
      PlainMergeIsSound(s.past[0].state, n1, m);
    }
  }

  lemma ReduceKeepsPlainChain(s: State, m: Mutation)
    requires PlainChain(s) && PlainUpdate(m) && Apply(s.present, m).Some?
    ensures PlainChain(Reduce(s, m))
  {
    var t := Reduce(s, m);
    var top := |t.past| - 1;
    PlainTopLink(s, m);
    OlderPlainLinksStay(s, t, top);
    assert PlainlyLinked(t, top);
  }

  lemma OlderPlainLinksStay(s: State, t: State, top: nat)
    requires PlainChain(s) && top <= |s.past| && |t.past| == top + 1 && t.future == []
    requires t.past[1..] == s.past[|s.past| - top..]
    requires t.past[0].state == (if top == |s.past| then s.present else s.past[|s.past| - 1 - top].state)
    ensures forall i :: 0 <= i < top ==> PlainlyLinked(t, i)
  {
    forall i | 0 <= i < top
      ensures PlainlyLinked(t, i)
    {
      assert PlainlyLinked(s, i);
      var n :| LedBy(s, i, n) && PlainUpdate(n);
      OlderLinkStays(s, t, top, i, n);
    }
  }

  lemma StepKeepsPlainChain(s: State, a: Action)
    requires PlainChain(s) && (a.Mutate? ==> PlainUpdate(a.m))
    ensures PlainChain(Step(s, a))
  {
    match a
    case UndoIt => UndoRedoMoveTheCursor(s); SameTimelinePlainChain(s, Undo(s));
    case RedoIt => UndoRedoMoveTheCursor(s); SameTimelinePlainChain(s, Redo(s));
    case Mutate(m) =>
      if Apply(s.present, m).Some? {
        ReduceKeepsPlainChain(s, m);
      }
    case Load(_, _) =>
    case Ignore =>
  }

  /** A recorded change tells what happened: some mutation of that type, key and value set
      or cleared exactly its own place between the two states. */
  ghost predicate Told(s: State, i: nat)
    requires i < Length(s)
  {
    exists n :: Render(n) == ChangeAt(s, i) && PlainUpdate(n) && Effect(StateAt(s, i), n, StateAt(s, i + 1))
  }

  /** Over every sequence of mutations, undos, redos and loads, including updates that
      merge after an undo, the recorded changes lead from each snapshot to the next,
      provided the namespaces and buckets updated have no dots in their names and no
      bucket is called like one of the two fields. */
  lemma {:induction false} HistoryIsFaithful(acts: seq<Action>)
    requires forall i :: 0 <= i < |acts| && acts[i].Mutate? ==> PlainUpdate(acts[i].m)
    ensures PlainChain(Run(INITIAL, acts)) && Chain(Run(INITIAL, acts))
    ensures forall i :: 0 <= i < Length(Run(INITIAL, acts)) ==> Told(Run(INITIAL, acts), i)
  {
    if acts != [] {
      HistoryIsFaithful(acts[..|acts| - 1]);
      StepKeepsPlainChain(Run(INITIAL, acts[..|acts| - 1]), acts[|acts| - 1]);
    }
    PlainChainTells(Run(INITIAL, acts));
  }

  lemma PlainChainTells(s: State)
    requires PlainChain(s)
    ensures Chain(s) && forall i :: 0 <= i < Length(s) ==> Told(s, i)
  {
    forall i | 0 <= i < Length(s)
      ensures Linked(s, i) && Told(s, i)
    {
      assert PlainlyLinked(s, i);
      var n :| LedBy(s, i, n) && PlainUpdate(n);
      ApplyExactly(StateAt(s, i), n);
      assert Render(n) == ChangeAt(s, i) && Effect(StateAt(s, i), n, StateAt(s, i + 1));
    }
  }

  // ---- Names that do clash ------------------------------------------------------------------------

  /** A dotted namespace, and a bucket called like the field that the default bucket is
      kept in. */
  lemma NamesThatClash(v: Json, w: Json)
    ensures Clash(UpdateBucket("a.b", "c", "size", v), UpdateBucket("a", "b.c", "size", w))
    ensures Clash(UpdateBucket("n", "default_bucket", "size", v), UpdateBucket("n", "___DEFAULT_BUCKET___", "size", w))
  {
    OrdinaryName("c");
    OrdinaryName("b.c");
    OrdinaryName("default_bucket");
    assert "a.b" + "." + "c" + "." + "size" == "a" + "." + "b.c" + "." + "size";
    assert UpdatePath(UpdateBucket("a.b", "c", "size", v))[0] != UpdatePath(UpdateBucket("a", "b.c", "size", w))[0] by {
      assert |"a.b"| != |"a"|;
    }
    assert |UpdatePath(UpdateBucket("n", "default_bucket", "size", v))| == 4;
    assert |UpdatePath(UpdateBucket("n", "___DEFAULT_BUCKET___", "size", w))| == 3;
  }

  lemma OrdinaryName(b: string)
    requires b != "" && b[0] != '_'
    ensures SpecialKey(b) == None && Shown(b) == b
  {
    assert "___DEFAULT_BUCKET___"[0] == '_' && "___DYNAMIC_BUCKET_TPL___"[0] == '_';
  }

  /** Clashing updates of two fields that were not set always break the record, whatever
      the values: no change of the recorded type, key and value leads to the present. */
  lemma ClashBreaksTheRecord(s: State, m: Mutation, n: Mutation)
    requires Chain(s) && Clash(m, n) && !Merges(s, m)
    requires GetIn(s.present.items, UpdatePath(m)) == None && GetIn(s.present.items, UpdatePath(n)) == None
    ensures !Chain(Reduce(Reduce(s, m), n))
  {
    var j, a, b := s.present.items, UpdatePath(m), UpdatePath(n);
    var once := Reduce(s, m);
    var n1 := n.(value := m.value);
    ReduceKeepsChainIff(s, m);
    ReduceKeepsChainIff(once, n);
    assert once.past[0] == Entry(s.present, Render(m)) && Merges(once, n);
    DifferentPathsAreApart(m, n);
    DifferentPathsAreApart(n, m);
    assert UpdatePath(n1) == b && Render(m).value == Some(m.value);
    GetAfterSet(j, a, m.value);
    GetApart(j, a, b, m.value);
    GetApart(j, b, a, m.value);
    GetAfterSet(SetIn(j, a, m.value), b, n.value);
    assert Apply(s.present, n1) != Some(once.present);
    assert !MergeHarmless(once, n);
  }

  /** A session that breaks the record: add a namespace, a bucket called
      `default_bucket` and the default bucket, and set the size of each. */
  lemma SessionThatBreaksTheRecord(v: Json, w: Json)
    ensures !Chain(Run(INITIAL, [
      Mutate(AddNamespace("n")), Mutate(AddBucket("n", "default_bucket")),
        Mutate(AddBucket("n", "___DEFAULT_BUCKET___")),
      Mutate(UpdateBucket("n", "default_bucket", "size", v)),
      Mutate(UpdateBucket("n", "___DEFAULT_BUCKET___", "size", w))]))
  {
    var m, n := UpdateBucket("n", "default_bucket", "size", v), UpdateBucket("n", "___DEFAULT_BUCKET___", "size", w);
    var a1, a2, a3 := AddNamespace("n"), AddBucket("n", "default_bucket"), AddBucket("n", "___DEFAULT_BUCKET___");
    NamesThatClash(v, w);
    SizesAreUnset(INITIAL, m, n);
    ClashAfterAdditions(a1, a2, a3, m, n);
  }

  lemma ClashAfterAdditions(a: Mutation, b: Mutation, c: Mutation, m: Mutation, n: Mutation)
    requires a.AddNamespace? && b.AddBucket? && c.AddBucket? && m.UpdateBucket? && Clash(m, n)
    requires
      var t := Reduce(Reduce(Reduce(INITIAL, a), b), c);
      GetIn(t.present.items, UpdatePath(m)) == None && GetIn(t.present.items, UpdatePath(n)) == None
    ensures !Chain(Run(INITIAL, [Mutate(a), Mutate(b), Mutate(c), Mutate(m), Mutate(n)]))
  {
    AdditionsKeepChain(INITIAL, a, b, c);
    ClashBreaksTheRecord(Reduce(Reduce(Reduce(INITIAL, a), b), c), m, n);
    RunOfFive(INITIAL, Mutate(a), Mutate(b), Mutate(c), Mutate(m), Mutate(n));
  }

  lemma RunOfFive(s: State, a: Action, b: Action, c: Action, d: Action, e: Action)
    ensures Run(s, [a, b, c, d, e]) == Step(Step(Step(Step(Step(s, a), b), c), d), e)
  {
    assert [a, b, c, d, e][..4] == [a, b, c, d] && [a, b, c, d][..3] == [a, b, c] && [a, b, c][..2] == [a, b]
        && [a, b][..1] == [a] && [a][..0] == [];
    assert Run(s, [a]) == Step(s, a);
    assert Run(s, [a, b]) == Step(Step(s, a), b);
    assert Run(s, [a, b, c]) == Step(Step(Step(s, a), b), c);
  }

  lemma AdditionsKeepChain(s: State, a: Mutation, b: Mutation, c: Mutation)
    requires Chain(s) && (a.AddNamespace? || a.AddBucket?) && b.AddBucket? && c.AddBucket?
    ensures
      var t := Reduce(Reduce(Reduce(s, a), b), c);
      Chain(t) && t.past != [] && t.past[0].change == Render(c)
    ensures forall m: Mutation :: m.UpdateBucket? ==> !Merges(Reduce(Reduce(Reduce(s, a), b), c), m)
  {
    ReduceKeepsChainIff(s, a);
    ReduceKeepsChainIff(Reduce(s, a), b);
    ReduceKeepsChainIff(Reduce(Reduce(s, a), b), c);
    assert "ADD_BUCKET"[0] != "UPDATE_BUCKET"[0];
  }

  lemma SizesAreUnset(s: State, m: Mutation, n: Mutation)
    requires m.UpdateBucket? && m.ns == "n" && m.bucket == "default_bucket" && m.key == "size"
    requires n.UpdateBucket? && n.ns == "n" && n.bucket == "___DEFAULT_BUCKET___" && n.key == "size"
    ensures
      var t := Reduce(Reduce(Reduce(s, AddNamespace("n")), AddBucket("n", m.bucket)), AddBucket("n", n.bucket));
      GetIn(t.present.items, UpdatePath(m)) == None && GetIn(t.present.items, UpdatePath(n)) == None
  {
    OrdinaryName("default_bucket");
    var s1 := Reduce(s, AddNamespace("n"));
    var one := Object(map["name" := Leaf(m.bucket), "namespace" := Leaf("n")]);
    var two := Object(map["name" := Leaf(n.bucket), "namespace" := Leaf("n")]);
    var p, q := ["n", "buckets", "default_bucket"], ["n", "default_bucket"];
    var j1 := s1.present.items;
    var j2 := SetIn(j1, p, one);
    var j3 := SetIn(j2, q, two);
    GetAfterSet(j1, p, one);
    GetAfterSet(j2, q, two);
    assert Apart(p, q) by {
      assert "buckets"[0] != "default_bucket"[0];
      assert p[1..] == ["buckets", "default_bucket"] && q[1..] == ["default_bucket"];
    }
    GetApart(j2, p, q, two);
    GetBelow(j3, p, one, "size");
    GetBelow(j3, q, two, "size");
    assert UpdatePath(m) == p + ["size"] && UpdatePath(n) == q + ["size"];
  }
}
