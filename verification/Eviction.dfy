// When may an idle bucket be forgotten (buckets/redis/bucket_factory.go:23-76,
// buckets/memory/bucket.go:34-48)?
//
// A Redis bucket lives in two keys that every grant rewrites with a time to live;
// a reaped memory bucket is recreated on the next lookup. Either way a forgotten
// bucket comes back full. This module proves exactly how long a lifespan must be
// for nobody to be able to tell.
module Eviction {
  import opened Prelude
  import opened TokenBucket
  import opened TokenBucketRuns

  /** What is stored: nothing, or a state and the time at which it was written. */
  datatype Store = Absent | Present(s: State, at: int)

  function Look(l: Limits, k: Store): State {
    if k.Absent? then Fresh(l) else k.s
  }

  /** One request; `drop` says that the stored state was forgotten just before. */
  function Serve(l: Limits, k: Store, q: Request, drop: bool): Store
    requires l.Valid()
  {
    var k' := if drop then Absent else k;
    if Answer(l, Look(l, k'), q).Granted? then Present(Next(l, Look(l, k'), q), q.now) else k'
  }

  function Reply(l: Limits, k: Store, q: Request, drop: bool): Response
    requires l.Valid()
  {
    Answer(l, if drop then Fresh(l) else Look(l, k), q)
  }

  function StoreAfter(l: Limits, qs: seq<Request>, drops: seq<bool>): Store
    requires l.Valid() && |qs| == |drops|
  {
    if qs == [] then Absent else
      var n := |qs| - 1;
      Serve(l, StoreAfter(l, qs[..n], drops[..n]), qs[n], drops[n])
  }

  function ReplyAt(l: Limits, qs: seq<Request>, drops: seq<bool>, i: nat): Response
    requires l.Valid() && i < |qs| == |drops|
  {
    Reply(l, StoreAfter(l, qs[..i], drops[..i]), qs[i], drops[i])
  }

  /** A state may be forgotten only once `lifespan` has passed since it was written. */
  ghost predicate Lawful(l: Limits, lifespan: int, qs: seq<Request>, drops: seq<bool>)
    requires l.Valid() && |qs| == |drops|
  {
    forall i :: 0 <= i < |qs| && drops[i] ==>
      var k := StoreAfter(l, qs[..i], drops[..i]);
      k.Present? ==> k.at + lifespan <= qs[i].now
  }

  // ---- Who asks ---------------------------------------------------------------

  /** Callers may be held to a number of tokens per request, if positive, and to a
      longest wait, if there is one. */
  datatype Callers = Callers(maxTokens: int, maxWait: Option<int>)

  const ANYONE: Callers := Callers(0, None)

  predicate Admits(g: Callers, q: Request) {
    (g.maxTokens > 0 ==> q.tokens <= g.maxTokens) && (g.maxWait.Some? ==> q.maxWait <= g.maxWait.value)
  }

  /** The most that one caller can borrow. */
  function Largest(l: Limits, g: Callers): int
    requires l.Valid()
  {
    if g.maxTokens > 0 then Min(g.maxTokens, l.maxDebt / l.nanos) else l.maxDebt / l.nanos
  }

  /** The wait that a caller asks for at most. */
  function Patience(l: Limits, g: Callers): int {
    if g.maxWait.Some? then g.maxWait.value else l.maxDebt
  }

  /** How far into the future a grant can leave `tna`: no further than the debt limit, nor
      than the longest wait and the largest loan together. A debt limit shorter than one
      token's interval admits no debt at all. */
  function Horizon(l: Limits, g: Callers): int
    requires l.Valid()
  {
    if l.maxDebt < l.nanos then 0
    else Min(l.maxDebt, (if Patience(l, g) < 0 then 0 else Patience(l, g)) + Largest(l, g) * l.nanos)
  }

  function Threshold(l: Limits, g: Callers): int
    requires l.Valid()
  {
    Horizon(l, g) + l.size * l.nanos
  }

  /** Nobody of these callers can tell: every lawful way of forgetting gives the responses
      of a bucket that is never forgotten. */
  ghost predicate Invisible(l: Limits, who: Request -> bool, lifespan: int)
    requires l.Valid()
  {
    forall qs: seq<Request>, drops: seq<bool>, i: nat ::
      i < |qs| == |drops| && Ordered(qs, 0) && Lawful(l, lifespan, qs, drops) && AllOf(who, qs) ==>
        ReplyAt(l, qs, drops, i) == AnswerAt(l, Fresh(l), qs, i)
  }

  ghost predicate AllOf(who: Request -> bool, qs: seq<Request>) {
    forall i :: 0 <= i < |qs| ==> who(qs[i])
  }

  /** These callers are held to `g`, and each of them may ask for as much as that allows
      and wait as long. */
  ghost predicate HeldTo(l: Limits, g: Callers, who: Request -> bool) {
    && (forall q :: who(q) ==> Admits(g, q))
    && (forall q :: Admits(g, q) && q.maxWait == Patience(l, g) ==> who(q))
  }

  // ---- Long enough is enough --------------------------------------------------

  /** Any refill from time `t` on finds the bucket full. */
  ghost predicate FullBy(l: Limits, s: State, t: int)
    requires l.Valid()
  {
    Sound(l, s) && s.tna <= t && l.size <= s.ac + (t - s.tna) / l.nanos
  }

  lemma FullRefill(l: Limits, s: State, t: int, now: int)
    requires l.Valid() && FullBy(l, s, t) && t <= now
    ensures FullBy(l, s, now) && Refill(l, s, now) == State(now, l.size)
  {
    DivMono(t - s.tna, now - s.tna, l.nanos);
  }

  /** What the store holds after any lawful or unlawful history. */
  ghost predicate StoreOk(l: Limits, g: Callers, k: Store, t: int)
    requires l.Valid()
  {
    0 <= t && (k.Present? ==> Sound(l, k.s) && k.at <= t && k.s.tna <= k.at + Horizon(l, g))
  }

  lemma HorizonBounds(l: Limits, g: Callers)
    requires l.Valid() && 0 <= l.maxDebt
    ensures 0 <= Largest(l, g) && Largest(l, g) * l.nanos <= Horizon(l, g) <= l.maxDebt
    ensures l.nanos <= l.maxDebt ==> 1 <= Largest(l, g)
    ensures l.maxDebt < l.nanos ==> Largest(l, g) == 0
  {
    DivBounds(l.maxDebt, l.nanos);
    var most := l.maxDebt / l.nanos;
    if most < 1 {
      assert most == 0;
    } else {
      MulMono(1, most, l.nanos);
    }
    MulMono(Largest(l, g), most, l.nanos);
  }

  /** A loan within the debt limit is no larger than the largest. */
  lemma LoanIsBounded(l: Limits, g: Callers, borrowed: nat)
    requires l.Valid() && borrowed * l.nanos <= l.maxDebt && (g.maxTokens > 0 ==> borrowed <= g.maxTokens)
    ensures borrowed * l.nanos <= Largest(l, g) * l.nanos
  {
    MulMono(0, borrowed, l.nanos);
    DivBounds(l.maxDebt, l.nanos);
    if l.maxDebt / l.nanos < borrowed {
      MulMono(l.maxDebt / l.nanos + 1, borrowed, l.nanos);
    }
    MulMono(borrowed, Largest(l, g), l.nanos);
  }

  /** A grant leaves `tna` within the horizon. */
  lemma GrantWithinHorizon(l: Limits, g: Callers, s: State, q: Request)
    requires l.Valid() && Sound(l, s) && Admits(g, q) && Answer(l, s, q).Granted?
    requires s.tna <= q.now + Horizon(l, g)
    ensures Next(l, s, q).tna <= q.now + Horizon(l, g)
  {
    NextSound(l, s, q);
    RefillSound(l, s, q.now);
    var r := Refill(l, s, q.now);
    var borrowed := q.tokens - Min(r.ac, q.tokens);
    MulMono(0, borrowed, l.nanos);
    if l.maxDebt < l.nanos {
      assert r.tna == q.now;
      if 1 <= borrowed {
        MulMono(1, borrowed, l.nanos);
      }
    } else {
      LoanIsBounded(l, g, borrowed);
    }
  }

  lemma ServeKeepsStoreOk(l: Limits, g: Callers, k: Store, q: Request, drop: bool, t: int)
    requires l.Valid() && StoreOk(l, g, k, t) && t <= q.now && Admits(g, q)
    ensures StoreOk(l, g, Serve(l, k, q, drop), q.now)
  {
    var s := if drop then Fresh(l) else Look(l, k);
    HorizonIsNatural(l, g);
    NextSound(l, s, q);
    if Answer(l, s, q).Granted? {
      GrantWithinHorizon(l, g, s, q);
    }
  }

  lemma HorizonIsNatural(l: Limits, g: Callers)
    requires l.Valid()
    ensures 0 <= Horizon(l, g)
  {
    if l.nanos <= l.maxDebt {
      HorizonBounds(l, g);
      MulMono(0, Largest(l, g), l.nanos);
    }
  }

  lemma LapsedIsFull(l: Limits, g: Callers, k: Store, now: int, lifespan: int)
    requires l.Valid() && Threshold(l, g) <= lifespan && 0 <= now
    requires k.Present? ==> Sound(l, k.s) && k.s.tna <= k.at + Horizon(l, g) && k.at + lifespan <= now
    ensures FullBy(l, Look(l, k), now)
  {
    if k.Present? {
      EarnsTheSize(l, now - k.s.tna);
    } else {
      DivBounds(now, l.nanos);
    }
  }

  lemma EarnsTheSize(l: Limits, d: int)
    requires l.Valid() && l.size * l.nanos <= d
    ensures 0 <= d && l.size <= d / l.nanos
  {
    MulMono(0, l.size, l.nanos);
    DivBounds(d, l.nanos);
    if d / l.nanos < l.size {
      MulMono(d / l.nanos + 1, l.size, l.nanos);
    }
  }

  /** The bucket that was never forgotten and the one that may have been either
      agree, or are both bound to be found full. */
  ghost predicate Indistinguishable(l: Limits, s: State, k: Store, t: int)
    requires l.Valid()
  {
    s == Look(l, k) || (FullBy(l, s, t) && FullBy(l, Look(l, k), t))
  }

  lemma StepIndistinguishable(l: Limits, g: Callers, s: State, k: Store, q: Request, drop: bool, t: int, lifespan: int)
    requires l.Valid() && StoreOk(l, g, k, t) && Indistinguishable(l, s, k, t) && t <= q.now
    requires Threshold(l, g) <= lifespan
    requires drop && k.Present? ==> k.at + lifespan <= q.now
    ensures Reply(l, k, q, drop) == Answer(l, s, q)
    ensures Indistinguishable(l, Next(l, s, q), Serve(l, k, q, drop), q.now)
  {
    var now := q.now;
    if s != Look(l, k) {
      FullRefill(l, s, t, now);
      FullRefill(l, Look(l, k), t, now);
    } else if drop {
      LapsedIsFull(l, g, k, now, lifespan);
      FullRefill(l, s, now, now);
    }
    if drop {
      LapsedIsFull(l, g, Absent, now, lifespan);
      FullRefill(l, Fresh(l), now, now);
    }
  }

  lemma {:induction false} RunIndistinguishable(l: Limits, g: Callers, lifespan: int, qs: seq<Request>,
                                                drops: seq<bool>)
    requires l.Valid() && Threshold(l, g) <= lifespan && |qs| == |drops|
    requires Ordered(qs, 0) && Lawful(l, lifespan, qs, drops) && forall i :: 0 <= i < |qs| ==> Admits(g, qs[i])
    ensures
      var t := if qs == [] then 0 else qs[|qs| - 1].now;
      StoreOk(l, g, StoreAfter(l, qs, drops), t) &&
      Indistinguishable(l, After(l, Fresh(l), qs), StoreAfter(l, qs, drops), t)
  {
    if qs != [] {
      var n := |qs| - 1;
      LawfulPrefix(l, lifespan, qs, drops, n);
      RunIndistinguishable(l, g, lifespan, qs[..n], drops[..n]);
      var t := if n == 0 then 0 else qs[n - 1].now;
      var k := StoreAfter(l, qs[..n], drops[..n]);
      ServeKeepsStoreOk(l, g, k, qs[n], drops[n], t);
      StepIndistinguishable(l, g, After(l, Fresh(l), qs[..n]), k, qs[n], drops[n], t, lifespan);
    }
  }

  lemma LawfulPrefix(l: Limits, lifespan: int, qs: seq<Request>, drops: seq<bool>, n: nat)
    requires l.Valid() && n <= |qs| == |drops| && Lawful(l, lifespan, qs, drops)
    ensures Lawful(l, lifespan, qs[..n], drops[..n])
  {
    forall i | 0 <= i < n && drops[..n][i]
      ensures
        var k := StoreAfter(l, qs[..n][..i], drops[..n][..i]);
        k.Present? ==> k.at + lifespan <= qs[..n][i].now
    {
      assert qs[..n][..i] == qs[..i] && drops[..n][..i] == drops[..i];
    }
  }

  lemma LongEnoughIsInvisible(l: Limits, g: Callers, who: Request -> bool, lifespan: int)
    requires l.Valid() && Threshold(l, g) <= lifespan && forall q :: who(q) ==> Admits(g, q)
    ensures Invisible(l, who, lifespan)
  {
    forall qs: seq<Request>, drops: seq<bool>, i: nat
      | i < |qs| == |drops| && Ordered(qs, 0) && Lawful(l, lifespan, qs, drops) && AllOf(who, qs)
      ensures ReplyAt(l, qs, drops, i) == AnswerAt(l, Fresh(l), qs, i)
    {
      LawfulPrefix(l, lifespan, qs, drops, i);
      RunIndistinguishable(l, g, lifespan, qs[..i], drops[..i]);
      var t := if i == 0 then 0 else qs[i - 1].now;
      StepIndistinguishable(l, g, After(l, Fresh(l), qs[..i]), StoreAfter(l, qs[..i], drops[..i]),
                            qs[i], drops[i], t, lifespan);
    }
  }

  // ---- A bucket that never grants ------------------------------------------------

  lemma NegativeDebtRejects(l: Limits, s: State, q: Request)
    requires l.Valid() && l.maxDebt < 0 && Sound(l, s)
    ensures Answer(l, s, q).Rejected?
  {
    RefillSound(l, s, q.now);
    var r := Refill(l, s, q.now);
    MulMono(0, q.tokens - Min(r.ac, q.tokens), l.nanos);
  }

  lemma {:induction false} NegativeDebtStoresNothing(l: Limits, qs: seq<Request>, drops: seq<bool>)
    requires l.Valid() && l.maxDebt < 0 && |qs| == |drops|
    ensures StoreAfter(l, qs, drops) == Absent && After(l, Fresh(l), qs) == Fresh(l)
  {
    if qs != [] {
      NegativeDebtStoresNothing(l, qs[..|qs| - 1], drops[..|qs| - 1]);
      NegativeDebtRejects(l, Fresh(l), qs[|qs| - 1]);
    }
  }

  // ---- A run that tells ---------------------------------------------------------

  function Repeat(q: Request, n: nat): (qs: seq<Request>)
    ensures |qs| == n && forall i :: 0 <= i < n ==> qs[i] == q
  {
    seq(n, _ => q)
  }

  function Single(l: Limits, g: Callers, now: int): Request {
    Request(now, 1, Patience(l, g))
  }

  /** The wait before the largest loan that ends at the horizon. */
  function Height(l: Limits, g: Callers): int
    requires l.Valid()
  {
    Horizon(l, g) - Largest(l, g) * l.nanos
  }

  /** The single tokens of debt that come to that wait, rounded up. */
  function Climb(l: Limits, g: Callers): int
    requires l.Valid()
  {
    (Height(l, g) + l.nanos - 1) / l.nanos
  }

  /** When exactly that wait is left of them. */
  function Peak(l: Limits, g: Callers): int
    requires l.Valid()
  {
    Climb(l, g) * l.nanos - Height(l, g)
  }

  /** The last moment at which the bucket is not full again. */
  function Brink(l: Limits, g: Callers): int
    requires l.Valid()
  {
    Peak(l, g) + Threshold(l, g) - 1
  }

  lemma ClimbBounds(l: Limits, g: Callers)
    requires l.Valid() && 0 <= l.maxDebt
    ensures 0 <= Height(l, g) && 0 <= Climb(l, g) && 0 <= Peak(l, g) < l.nanos
    ensures Climb(l, g) * l.nanos < Height(l, g) + l.nanos
    ensures Height(l, g) > 0 ==> Height(l, g) <= Patience(l, g) && l.nanos <= Largest(l, g) * l.nanos
    ensures Peak(l, g) <= Brink(l, g)
  {
    HorizonBounds(l, g);
    MulMono(1, l.size, l.nanos);
    MulMono(0, Largest(l, g), l.nanos);
    DivBounds(Height(l, g) + l.nanos - 1, l.nanos);
    if Height(l, g) > 0 {
      assert l.nanos <= l.maxDebt;
      MulMono(1, Largest(l, g), l.nanos);
    }
  }

  /** Single tokens until the bucket is empty and the climb made, and then the largest
      loan at the peak. */
  ghost function Drain(l: Limits, g: Callers): seq<Request>
    requires l.Valid() && 0 <= l.maxDebt
  {
    ClimbBounds(l, g);
    HorizonBounds(l, g);
    Repeat(Single(l, g, 0), l.size + Climb(l, g)) + [Request(Peak(l, g), Largest(l, g), Patience(l, g))]
  }

  /** Single tokens at the brink, until one that only a full bucket grants, or grants
      without a wait. */
  ghost function Probe(l: Limits, g: Callers): seq<Request>
    requires l.Valid()
  {
    Repeat(Single(l, g, Brink(l, g)), if l.maxDebt < l.nanos then l.size else l.size + 1)
  }

  /** Single tokens from a bucket that has enough of them. */
  lemma {:induction false} SinglesAtOnce(l: Limits, g: Callers, s: State, now: int, a: nat, n: nat)
    requires l.Valid() && 0 <= l.maxDebt && Refill(l, s, now) == State(now, a) && n <= a
    ensures Refill(l, After(l, s, Repeat(Single(l, g, now), n)), now) == State(now, a - n)
    ensures n > 0 ==> After(l, s, Repeat(Single(l, g, now), n)) == State(now, a - n)
    ensures n < a ==> Answer(l, After(l, s, Repeat(Single(l, g, now), n)), Single(l, g, now)) == Granted(0)
    decreases n
  {
    var qs := Repeat(Single(l, g, now), n);
    if n > 0 {
      SinglesAtOnce(l, g, s, now, a, n - 1);
      assert qs[..n - 1] == Repeat(Single(l, g, now), n - 1);
    } else {
      assert qs == [];
    }
  }

  /** Single tokens from an empty bucket, each on credit. */
  lemma {:induction false} SinglesOnCredit(l: Limits, g: Callers, n: nat)
    requires l.Valid() && 0 <= l.maxDebt && n <= Climb(l, g)
    ensures After(l, State(0, 0), Repeat(Single(l, g, 0), n)) == State(n * l.nanos, 0)
    decreases n
  {
    var qs := Repeat(Single(l, g, 0), n);
    if n > 0 {
      SinglesOnCredit(l, g, n - 1);
      assert qs[..n - 1] == Repeat(Single(l, g, 0), n - 1);
      ClimbBounds(l, g);
      HorizonBounds(l, g);
      MulMono(0, n - 1, l.nanos);
      MulMono(n, Climb(l, g), l.nanos);
      assert n * l.nanos == (n - 1) * l.nanos + l.nanos;
    } else {
      assert qs == [];
    }
  }

  lemma {:induction false} SinglesClimb(l: Limits, g: Callers)
    requires l.Valid() && 0 <= l.maxDebt && 0 <= Climb(l, g)
    ensures After(l, Fresh(l), Repeat(Single(l, g, 0), l.size + Climb(l, g))) == State(Climb(l, g) * l.nanos, 0)
  {
    var q, c := Single(l, g, 0), Climb(l, g);
    SinglesAtOnce(l, g, Fresh(l), 0, l.size, l.size);
    SinglesOnCredit(l, g, c);
    assert Repeat(q, l.size + c) == Repeat(q, l.size) + Repeat(q, c);
    AfterConcat(l, Fresh(l), Repeat(q, l.size), Repeat(q, c));
  }

  lemma LastLoan(l: Limits, g: Callers, s: State, q: Request)
    requires l.Valid() && 0 <= l.maxDebt && s == State(Climb(l, g) * l.nanos, 0)
    requires q.now == Peak(l, g) && q.tokens == Largest(l, g) && q.maxWait == Patience(l, g)
    ensures Next(l, s, q) == State(Peak(l, g) + Horizon(l, g), 0)
  {
    ClimbBounds(l, g);
    HorizonBounds(l, g);
    assert Charge(l, s, q.tokens).tna == s.tna + Largest(l, g) * l.nanos;
  }

  /** The drain ends at the horizon with nothing left. */
  lemma {:induction false} DrainReachesHorizon(l: Limits, g: Callers)
    requires l.Valid() && 0 <= l.maxDebt
    ensures After(l, Fresh(l), Drain(l, g)) == State(Peak(l, g) + Horizon(l, g), 0)
  {
    ClimbBounds(l, g);
    HorizonBounds(l, g);
    SinglesClimb(l, g);
    var ones, last := Repeat(Single(l, g, 0), l.size + Climb(l, g)), Request(Peak(l, g), Largest(l, g), Patience(l, g));
    LastLoan(l, g, After(l, Fresh(l), ones), last);
    assert Drain(l, g)[..|ones|] == ones && Drain(l, g)[|ones|] == last;
  }

  lemma OneShort(l: Limits)
    requires l.Valid()
    ensures 0 <= l.size * l.nanos - 1 && (l.size * l.nanos - 1) / l.nanos == l.size - 1
  {
    var d := l.size * l.nanos - 1;
    MulMono(1, l.size, l.nanos);
    DivBounds(d, l.nanos);
    Distribute(l.nanos, l.size, -1);
    if d / l.nanos < l.size - 1 {
      MulMono(d / l.nanos + 1, l.size - 1, l.nanos);
    }
    if l.size - 1 < d / l.nanos {
      MulMono(l.size, d / l.nanos, l.nanos);
    }
  }

  lemma AlmostFull(l: Limits, t: int)
    requires l.Valid()
    ensures
      var now := t + l.size * l.nanos - 1;
      Refill(l, State(t, 0), now) == State(now, l.size - 1) &&
        (0 <= now ==> Refill(l, Fresh(l), now) == State(now, l.size))
  {
    OneShort(l);
    var now := t + l.size * l.nanos - 1;
    if now > 0 {
      DivBounds(now, l.nanos);
    }
  }

  /** The last answer of the probe tells a full bucket from a drained one. */
  lemma {:induction false} ProbeTells(l: Limits, g: Callers)
    requires l.Valid() && 0 <= l.maxDebt
    ensures
      var last := |Probe(l, g)| - 1;
      AnswerAt(l, State(Peak(l, g) + Horizon(l, g), 0), Probe(l, g), last) != AnswerAt(l, Fresh(l), Probe(l, g), last)
  {
    var s, now := State(Peak(l, g) + Horizon(l, g), 0), Brink(l, g);
    ClimbBounds(l, g);
    AlmostFull(l, s.tna);
    if l.maxDebt < l.nanos {
      LastTokenTells(l, g, s, now);
    } else {
      WaitTells(l, g, s, now);
    }
  }

  lemma {:induction false} LastTokenTells(l: Limits, g: Callers, s: State, now: int)
    requires l.Valid() && 0 <= l.maxDebt < l.nanos
    requires Refill(l, s, now) == State(now, l.size - 1) && Refill(l, Fresh(l), now) == State(now, l.size)
    ensures
      var qs := Repeat(Single(l, g, now), l.size);
      AnswerAt(l, s, qs, l.size - 1) == Rejected && AnswerAt(l, Fresh(l), qs, l.size - 1) == Granted(0)
  {
    var q := Single(l, g, now);
    SinglesAtOnce(l, g, s, now, l.size - 1, l.size - 1);
    SinglesAtOnce(l, g, Fresh(l), now, l.size, l.size - 1);
    assert Repeat(q, l.size)[..l.size - 1] == Repeat(q, l.size - 1);
  }

  lemma {:induction false} WaitTells(l: Limits, g: Callers, s: State, now: int)
    requires l.Valid() && l.nanos <= l.maxDebt
    requires Refill(l, s, now) == State(now, l.size - 1) && Refill(l, Fresh(l), now) == State(now, l.size)
    ensures
      var qs := Repeat(Single(l, g, now), l.size + 1);
      AnswerAt(l, s, qs, l.size) != Granted(0) && AnswerAt(l, Fresh(l), qs, l.size) == Granted(0)
  {
    var q := Single(l, g, now);
    SinglesAtOnce(l, g, s, now, l.size - 1, l.size - 1);
    SinglesAtOnce(l, g, Fresh(l), now, l.size, l.size);
    assert Repeat(q, l.size)[..l.size - 1] == Repeat(q, l.size - 1);
    assert Repeat(q, l.size + 1)[..l.size] == Repeat(q, l.size);
    assert After(l, s, Repeat(q, l.size)) == State(now + l.nanos, 0);
  }

  lemma DrainAndProbeAreAdmitted(l: Limits, g: Callers)
    requires l.Valid() && 0 <= l.maxDebt
    ensures forall i :: 0 <= i < |Drain(l, g)| ==> Admits(g, Drain(l, g)[i]) && Drain(l, g)[i].maxWait == Patience(l, g)
    ensures forall i :: 0 <= i < |Probe(l, g)| ==> Admits(g, Probe(l, g)[i]) && Probe(l, g)[i].maxWait == Patience(l, g)
    ensures Ordered(Drain(l, g) + Probe(l, g), 0)
    ensures Drain(l, g)[|Drain(l, g)| - 1].now == Peak(l, g)
  {
    ClimbBounds(l, g);
  }

  // ---- Anything shorter shows -------------------------------------------------------

  /** `n` requests without forgetting, and then the first of the rest after forgetting. */
  function DropOnce(n: nat, m: nat): (drops: seq<bool>)
    ensures |drops| == n + m && forall i :: 0 <= i < n + m ==> drops[i] == (i == n)
  {
    seq(n + m, i => i == n)
  }

  lemma {:induction false} StoreBeforeDrop(l: Limits, qs: seq<Request>, drops: seq<bool>)
    requires l.Valid() && |qs| == |drops| && (forall i :: 0 <= i < |qs| ==> !drops[i]) && Ordered(qs, 0)
    ensures Look(l, StoreAfter(l, qs, drops)) == After(l, Fresh(l), qs)
    ensures StoreAfter(l, qs, drops).Present? ==> qs != [] && StoreAfter(l, qs, drops).at <= qs[|qs| - 1].now
  {
    if qs != [] {
      StoreBeforeDrop(l, qs[..|qs| - 1], drops[..|qs| - 1]);
    }
  }

  lemma {:induction false} StoreAfterDrop(l: Limits, qs: seq<Request>, ps: seq<Request>)
    requires l.Valid() && ps != []
    ensures Look(l, StoreAfter(l, qs + ps, DropOnce(|qs|, |ps|))) == After(l, Fresh(l), ps)
    decreases |ps|
  {
    var n := |ps| - 1;
    var all, drops := qs + ps, DropOnce(|qs|, |ps|);
    assert all[..|all| - 1] == qs + ps[..n] && drops[..|all| - 1] == DropOnce(|qs|, n);
    if n > 0 {
      StoreAfterDrop(l, qs, ps[..n]);
    }
  }

  lemma {:induction false} DropsLawfully(l: Limits, lifespan: int, qs: seq<Request>, ps: seq<Request>)
    requires l.Valid() && qs != [] && ps != [] && Ordered(qs, 0) && qs[|qs| - 1].now + lifespan <= ps[0].now
    ensures Lawful(l, lifespan, qs + ps, DropOnce(|qs|, |ps|))
  {
    var all, drops := qs + ps, DropOnce(|qs|, |ps|);
    forall i | 0 <= i < |all| && drops[i]
      ensures var k := StoreAfter(l, all[..i], drops[..i]); k.Present? ==> k.at + lifespan <= all[i].now
    {
      assert all[..i] == qs;
      StoreBeforeDrop(l, qs, drops[..i]);
    }
  }

  /** Forgetting between two runs of requests shows if a full bucket answers the last one
      differently. */
  lemma {:induction false} DropShows(l: Limits, who: Request -> bool, lifespan: int, qs: seq<Request>, ps: seq<Request>)
    requires l.Valid() && qs != [] && ps != [] && AllOf(who, qs + ps) && Ordered(qs + ps, 0)
    requires qs[|qs| - 1].now + lifespan <= ps[0].now
    requires AnswerAt(l, After(l, Fresh(l), qs), ps, |ps| - 1) != AnswerAt(l, Fresh(l), ps, |ps| - 1)
    ensures !Invisible(l, who, lifespan)
  {
    var i := |qs| + |ps| - 1;
    OrderedPrefix(qs, ps);
    DropsLawfully(l, lifespan, qs, ps);
    ReplyAfterDrop(l, qs, ps);
    AnswerWithoutDrop(l, qs, ps);
    assert ReplyAt(l, qs + ps, DropOnce(|qs|, |ps|), i) != AnswerAt(l, Fresh(l), qs + ps, i);
  }

  lemma {:induction false} OrderedPrefix(qs: seq<Request>, ps: seq<Request>)
    requires Ordered(qs + ps, 0)
    ensures Ordered(qs, 0)
  {
    assert forall j :: 0 <= j < |qs| ==> qs[j] == (qs + ps)[j];
  }

  lemma {:induction false} AnswerWithoutDrop(l: Limits, qs: seq<Request>, ps: seq<Request>)
    requires l.Valid() && ps != []
    ensures AnswerAt(l, Fresh(l), qs + ps, |qs| + |ps| - 1) == AnswerAt(l, After(l, Fresh(l), qs), ps, |ps| - 1)
  {
    assert (qs + ps)[..|qs|] == qs && (qs + ps)[|qs|..] == ps;
    AnswerInTail(l, Fresh(l), qs + ps, |qs|, |ps| - 1);
  }

  lemma {:induction false} ReplyAfterDrop(l: Limits, qs: seq<Request>, ps: seq<Request>)
    requires l.Valid() && ps != []
    ensures ReplyAt(l, qs + ps, DropOnce(|qs|, |ps|), |qs| + |ps| - 1) == AnswerAt(l, Fresh(l), ps, |ps| - 1)
  {
    var last := |ps| - 1;
    assert (qs + ps)[..|qs| + last] == qs + ps[..last] && (qs + ps)[|qs| + last] == ps[last];
    assert DropOnce(|qs|, |ps|)[..|qs| + last] == DropOnce(|qs|, last);
    if last > 0 {
      StoreAfterDrop(l, qs, ps[..last]);
    } else {
      assert ps[..last] == [];
    }
  }

  lemma {:induction false} TooShortShows(l: Limits, g: Callers, who: Request -> bool, lifespan: int)
    requires l.Valid() && 0 <= l.maxDebt && 0 <= lifespan < Threshold(l, g) && HeldTo(l, g, who)
    ensures !Invisible(l, who, lifespan)
  {
    DrainAndProbeAreAdmitted(l, g);
    DrainReachesHorizon(l, g);
    ProbeTells(l, g);
    DropShows(l, who, lifespan, Drain(l, g), Probe(l, g));
  }

  /** Exactly how long a forgotten bucket must have been idle: forgetting it is invisible
      to every sequence of requests of these callers under a non-decreasing clock if and
      only if the lifespan covers the horizon and a full refill (or the bucket never
      grants anything). */
  lemma EvictionThreshold(l: Limits, g: Callers, who: Request -> bool, lifespan: int)
    requires l.Valid() && 0 <= lifespan && HeldTo(l, g, who)
    ensures Invisible(l, who, lifespan) <==> l.maxDebt < 0 || Threshold(l, g) <= lifespan
  {
    if l.maxDebt < 0 {
      forall qs: seq<Request>, drops: seq<bool>, i: nat | i < |qs| == |drops|
        ensures ReplyAt(l, qs, drops, i) == AnswerAt(l, Fresh(l), qs, i)
      {
        NegativeDebtStoresNothing(l, qs[..i], drops[..i]);
      }
    } else if Threshold(l, g) <= lifespan {
      LongEnoughIsInvisible(l, g, who, lifespan);
    } else {
      TooShortShows(l, g, who, lifespan);
    }
  }

  /** Callers under no limit at all: the lifespan must cover the debt limit. */
  lemma EvictionThresholdForAnyone(l: Limits, lifespan: int)
    requires l.Valid() && 0 <= lifespan
    ensures Invisible(l, _ => true, lifespan) <==>
      l.maxDebt < 0 || (if l.maxDebt < l.nanos then 0 else l.maxDebt) + l.size * l.nanos <= lifespan
  {
    EvictionThreshold(l, ANYONE, _ => true, lifespan);
    if 0 <= l.maxDebt {
      HorizonBounds(l, ANYONE);
      MulMono(0, Largest(l, ANYONE), l.nanos);
    }
  }
}
