// What a token bucket guarantees over whole runs (buckets/memory/bucket.go).
module TokenBucketRuns {
  import opened Prelude
  import opened TokenBucket

  // ---- States a bucket can be in ------------------------------------------------

  /** Never a negative balance, never more than the size, and `tna` never
      before its initial value. */
  ghost predicate Sound(l: Limits, s: State) {
    0 <= s.ac <= l.size && 0 <= s.tna
  }

  lemma RefillSound(l: Limits, s: State, now: int)
    requires l.Valid() && Sound(l, s)
    ensures Sound(l, Refill(l, s, now))
    ensures s.tna <= Refill(l, s, now).tna && now <= Refill(l, s, now).tna
    ensures s.ac <= Refill(l, s, now).ac
  {
    if now > s.tna {
      DivBounds(now - s.tna, l.nanos);
    }
  }

  lemma NextSound(l: Limits, s: State, q: Request)
    requires l.Valid() && Sound(l, s)
    ensures Sound(l, Next(l, s, q))
    ensures s.tna <= Next(l, s, q).tna
    ensures Answer(l, s, q).Granted? ==>
      Ready(l, s, q) <= Next(l, s, q).tna <= q.now + l.maxDebt && s.tna <= Ready(l, s, q)
  {
    RefillSound(l, s, q.now);
    var r := Refill(l, s, q.now);
    MulMono(0, q.tokens - Min(r.ac, q.tokens), l.nanos);
  }

  /** The whole tokens that `elapsed` nanoseconds earn, at one per `interval`. */
  predicate Earns(interval: int, elapsed: int, earned: int) {
    if elapsed <= 0 then earned == 0 else earned * interval <= elapsed < (earned + 1) * interval
  }

  /** One request, in full. First the whole tokens earned since the last one are added, up
      to the size, and time moves on. The wait is what is left until tokens are next
      available. The request is granted if paying for it, with what has been accumulated
      first and on credit for the rest, stays within the debt limit, and if it need not
      wait or accepts the wait. A rejected request changes nothing. */
  lemma RequestExactly(l: Limits, s: State, q: Request, earned: int)
    requires l.Valid() && Earns(l.nanos, q.now - s.tna, earned)
    ensures
      var ready := if q.now > s.tna then q.now else s.tna;
      var held := if q.now > s.tna then Min(l.size, s.ac + earned) else s.ac;
      var credit := if held < q.tokens then q.tokens - held else 0;
      var wait := ready - q.now;
      if ready + credit * l.nanos - q.now <= l.maxDebt && (wait == 0 || wait <= q.maxWait)
      then Answer(l, s, q) == Granted(wait) && Next(l, s, q) ==
        State(ready + credit * l.nanos, held - (q.tokens - credit))
      else Answer(l, s, q) == Rejected && Next(l, s, q) == s
  {
    if q.now > s.tna {
      EarnedIsQuotient(l.nanos, q.now - s.tna, earned);
    }
  }

  lemma EarnedIsQuotient(interval: int, elapsed: int, earned: int)
    requires 1 <= interval && 0 < elapsed && Earns(interval, elapsed, earned)
    ensures earned == elapsed / interval
  {
    DivBounds(elapsed, interval);
    var e := elapsed / interval;
    Distribute(interval, e, 1);
    Distribute(interval, earned, 1);
    if earned < e {
      MulMono(earned + 1, e, interval);
    } else if e < earned {
      MulMono(e + 1, earned, interval);
    }
  }

  lemma {:induction false} RunSound(l: Limits, s: State, qs: seq<Request>)
    requires l.Valid() && Sound(l, s)
    ensures Sound(l, After(l, s, qs))
    ensures s.tna <= After(l, s, qs).tna
  {
    if qs != [] {
      RunSound(l, s, qs[..|qs| - 1]);
      NextSound(l, After(l, s, qs[..|qs| - 1]), qs[|qs| - 1]);
    }
  }

  /** Serving one sequence of requests and then another is serving both. */
  lemma {:induction false} AfterConcat(l: Limits, s: State, a: seq<Request>, b: seq<Request>)
    requires l.Valid()
    ensures After(l, s, a + b) == After(l, After(l, s, a), b)
  {
    if b == [] {
      assert a + b == a;
    } else {
      var n := |b| - 1;
      AfterConcat(l, s, a, b[..n]);
      assert (a + b)[..|a + b| - 1] == a + b[..n];
    }
  }

  lemma AnswerInTail(l: Limits, s: State, qs: seq<Request>, i: nat, k: nat)
    requires l.Valid() && i <= |qs| && k < |qs| - i
    ensures AnswerAt(l, After(l, s, qs[..i]), qs[i..], k) == AnswerAt(l, s, qs, i + k)
  {
    AfterConcat(l, s, qs[..i], qs[i..][..k]);
    assert qs[..i] + qs[i..][..k] == qs[..i + k];
  }

  // ---- The ledger -----------------------------------------------------------------

  /** The potential that every grant draws down: tokens held, priced in
      nanoseconds, minus the time up to which tokens are already promised. */
  function Potential(l: Limits, s: State): int {
    s.ac * l.nanos - s.tna
  }

  /** Time that a committed refill rounds away. */
  function Dust(l: Limits, s: State, q: Request): int
    requires l.Valid()
  {
    if Answer(l, s, q).Granted? && q.now > s.tna then (q.now - s.tna) % l.nanos else 0
  }

  /** Tokens that a committed refill earned but the cap threw away. */
  function Spilled(l: Limits, s: State, q: Request): int
    requires l.Valid()
  {
    if Answer(l, s, q).Granted? && q.now > s.tna then
      var earned := s.ac + (q.now - s.tna) / l.nanos;
      earned - Min(l.size, earned)
    else 0
  }

  function TotalDust(l: Limits, s: State, qs: seq<Request>): int
    requires l.Valid()
  {
    if qs == [] then 0 else
      TotalDust(l, s, qs[..|qs| - 1]) + Dust(l, After(l, s, qs[..|qs| - 1]), qs[|qs| - 1])
  }

  function TotalSpilled(l: Limits, s: State, qs: seq<Request>): int
    requires l.Valid()
  {
    if qs == [] then 0 else
      TotalSpilled(l, s, qs[..|qs| - 1]) + Spilled(l, After(l, s, qs[..|qs| - 1]), qs[|qs| - 1])
  }

  lemma RefillLedger(l: Limits, s: State, now: int)
    requires l.Valid() && now > s.tna
    ensures
      var earned := s.ac + (now - s.tna) / l.nanos;
      Potential(l, s) - Potential(l, Refill(l, s, now)) ==
        (now - s.tna) % l.nanos + l.nanos * (earned - Min(l.size, earned))
  {
    var minted := (now - s.tna) / l.nanos;
    DivBounds(now - s.tna, l.nanos);
    var earned := s.ac + minted;
    var kept := Min(l.size, earned);
    assert earned * l.nanos == s.ac * l.nanos + minted * l.nanos;
    assert l.nanos * (earned - kept) == earned * l.nanos - kept * l.nanos;
  }

  lemma ChargeLedger(l: Limits, s: State, tokens: nat)
    ensures Potential(l, s) - Potential(l, Charge(l, s, tokens)) == l.nanos * tokens
  {
    var used := Min(s.ac, tokens);
    assert (tokens - used) * l.nanos == tokens * l.nanos - used * l.nanos;
    assert (s.ac - used) * l.nanos == s.ac * l.nanos - used * l.nanos;
  }

  lemma StepLedger(l: Limits, s: State, q: Request)
    requires l.Valid()
    ensures Potential(l, s) - Potential(l, Next(l, s, q)) ==
      l.nanos * (if Answer(l, s, q).Granted? then q.tokens else 0) + Dust(l, s, q) + l.nanos * Spilled(l, s, q)
    ensures 0 <= Dust(l, s, q) < l.nanos && 0 <= Spilled(l, s, q)
  {
    if Answer(l, s, q).Granted? {
      ChargeLedger(l, Refill(l, s, q.now), q.tokens);
      if q.now > s.tna {
        RefillLedger(l, s, q.now);
      }
    }
  }

  /** Exact token ledger: over every run, what the potential lost is accounted
      for to the nanosecond by tokens granted, rounding and the size cap. */
  lemma {:induction false} Ledger(l: Limits, s: State, qs: seq<Request>)
    requires l.Valid()
    ensures Potential(l, s) - Potential(l, After(l, s, qs)) ==
      l.nanos * Spent(l, s, qs) + TotalDust(l, s, qs) + l.nanos * TotalSpilled(l, s, qs)
    ensures 0 <= TotalDust(l, s, qs) <= (l.nanos - 1) * |qs|
    ensures 0 <= TotalSpilled(l, s, qs)
  {
    if qs != [] {
      var n := |qs| - 1;
      var m := After(l, s, qs[..n]);
      Ledger(l, s, qs[..n]);
      StepLedger(l, m, qs[n]);
      var tokens := if Answer(l, m, qs[n]).Granted? then qs[n].tokens else 0;
      Distribute(l.nanos, Spent(l, s, qs[..n]), tokens);
      Distribute(l.nanos, TotalSpilled(l, s, qs[..n]), Spilled(l, m, qs[n]));
      Distribute(l.nanos - 1, n, 1);
    }
  }

  /** Exactly which requests are granted: the wait must be acceptable, and a request for
      more than the tokens held must be covered by the potential plus the debt limit. */
  lemma GrantedIffAffordable(l: Limits, s: State, q: Request)
    requires l.Valid() && Sound(l, s)
    ensures
      var r := Refill(l, s, q.now);
      var wait := r.tna - q.now;
      Answer(l, s, q) == Granted(wait) <==>
        && (wait == 0 || wait <= q.maxWait)
        && (if r.ac <= q.tokens then l.nanos * q.tokens <= Potential(l, r) + q.now + l.maxDebt else wait <= l.maxDebt)
    ensures Answer(l, s, q).Granted? ==> Answer(l, s, q).wait == Refill(l, s, q.now).tna - q.now
  {
    RefillSound(l, s, q.now);
    ChargeLedger(l, Refill(l, s, q.now), q.tokens);
  }

  /** Each request comes at least its own tokens' worth of time after the one before. */
  ghost predicate Steady(l: Limits, qs: seq<Request>, start: int) {
    forall i :: 0 <= i < |qs| ==> SteadyAt(l, qs, start, i)
  }

  ghost predicate SteadyAt(l: Limits, qs: seq<Request>, start: int, i: nat)
    requires i < |qs|
  {
    qs[i].tokens <= l.size && l.nanos * qs[i].tokens <= qs[i].now - (if i == 0 then start else qs[i - 1].now)
  }

  /** The rate is also guaranteed from below: clients that keep to the fill rate are
      always served at once, whatever the rounding of refills loses. */
  lemma {:induction false} SteadyClientsNeverWait(l: Limits, s: State, qs: seq<Request>, start: int)
    requires l.Valid() && 0 <= l.maxDebt && Sound(l, s) && s.tna <= start && Steady(l, qs, start)
    ensures forall i :: 0 <= i < |qs| ==> AnswerAt(l, s, qs, i) == Granted(0)
    ensures After(l, s, qs).tna <= if qs == [] then start else qs[|qs| - 1].now
  {
    if qs != [] {
      var n := |qs| - 1;
      forall i | 0 <= i < n
        ensures SteadyAt(l, qs[..n], start, i)
      {
        assert SteadyAt(l, qs, start, i);
        assert qs[..n][i] == qs[i] && (i > 0 ==> qs[..n][i - 1] == qs[i - 1]);
      }
      SteadyClientsNeverWait(l, s, qs[..n], start);
      RunSound(l, s, qs[..n]);
      assert SteadyAt(l, qs, start, n);
      EarnedInTime(l, After(l, s, qs[..n]), qs[n]);
      forall i | 0 <= i < |qs|
        ensures AnswerAt(l, s, qs, i) == Granted(0)
      {
        if i < n {
          assert qs[..n][..i] == qs[..i];
          assert AnswerAt(l, s, qs[..n], i) == Granted(0);
        }
      }
    }
  }

  lemma EarnedInTime(l: Limits, s: State, q: Request)
    requires l.Valid() && 0 <= l.maxDebt && Sound(l, s) && q.tokens <= l.size && l.nanos * q.tokens <= q.now - s.tna
    ensures Answer(l, s, q) == Granted(0) && Next(l, s, q).tna == q.now
  {
    MulMono(0, q.tokens, l.nanos);
    if q.now > s.tna {
      DivBounds(q.now - s.tna, l.nanos);
      var minted := (q.now - s.tna) / l.nanos;
      if minted < q.tokens {
        MulMono(minted + 1, q.tokens, l.nanos);
      }
    } else if q.tokens > 0 {
      MulMono(1, q.tokens, l.nanos);
    }
  }

  // ---- Debt ---------------------------------------------------------------------

  /** Tokens are never both owed and held. */
  ghost predicate DebtMeansEmpty(s: State, now: int) {
    s.tna > now ==> s.ac == 0
  }

  /** Under a clock that does not run backwards, a bucket in debt holds nothing. */
  lemma {:induction false} DebtorsAreEmpty(l: Limits, s: State, qs: seq<Request>, start: int)
    requires l.Valid() && Sound(l, s) && Ordered(qs, start) && DebtMeansEmpty(s, start)
    ensures DebtMeansEmpty(After(l, s, qs), if qs == [] then start else qs[|qs| - 1].now)
  {
    if qs != [] {
      var n := |qs| - 1;
      DebtorsAreEmpty(l, s, qs[..n], start);
      RunSound(l, s, qs[..n]);
      DebtStep(l, After(l, s, qs[..n]), qs[n], if n == 0 then start else qs[n - 1].now);
    }
  }

  lemma DebtStep(l: Limits, s: State, q: Request, t: int)
    requires l.Valid() && Sound(l, s) && DebtMeansEmpty(s, t) && t <= q.now
    ensures DebtMeansEmpty(Next(l, s, q), q.now)
  {
    var r := Refill(l, s, q.now);
    if q.tokens <= r.ac {
      assert Charge(l, r, q.tokens).tna == r.tna;
    }
  }

  /** The largest clock reading of any grant of a run, or 0 if there was none. */
  function LastReading(l: Limits, s: State, qs: seq<Request>): int
    requires l.Valid()
  {
    if qs == [] then 0
    else
      var n := |qs| - 1;
      var before := LastReading(l, s, qs[..n]);
      if AnswerAt(l, s, qs, n).Granted? && before < qs[n].now then qs[n].now else before
  }

  lemma ReadingStep(l: Limits, s: State, q: Request, reading: int)
    requires l.Valid() && Sound(l, s) && reading <= s.tna && (s.ac > 0 ==> s.tna == reading)
    ensures
      var reading' := if Answer(l, s, q).Granted? && reading < q.now then q.now else reading;
      reading' <= Next(l, s, q).tna && (Next(l, s, q).ac > 0 ==> Next(l, s, q).tna == reading')
  {
    NextSound(l, s, q);
    var r := Refill(l, s, q.now);
    if q.tokens <= r.ac {
      assert Charge(l, r, q.tokens).tna == r.tna;
    }
  }

  lemma {:induction false} TokensDateFromAReading(l: Limits, qs: seq<Request>)
    requires l.Valid()
    ensures
      var s := After(l, Fresh(l), qs);
      LastReading(l, Fresh(l), qs) <= s.tna && (s.ac > 0 ==> s.tna == LastReading(l, Fresh(l), qs))
  {
    if qs != [] {
      var n := |qs| - 1;
      TokensDateFromAReading(l, qs[..n]);
      RunSound(l, Fresh(l), qs[..n]);
      ReadingStep(l, After(l, Fresh(l), qs[..n]), qs[n], LastReading(l, Fresh(l), qs[..n]));
    }
  }

  /** Exactly when tokens are not both owed and held, in every run and under any clock: a
      bucket that still holds tokens is in debt at `t` if and only if some grant was
      made at a later reading than `t`. */
  lemma DebtMeansEmptyIff(l: Limits, qs: seq<Request>, t: int)
    requires l.Valid()
    ensures DebtMeansEmpty(After(l, Fresh(l), qs), t) <==>
      After(l, Fresh(l), qs).ac == 0 || LastReading(l, Fresh(l), qs) <= t
  {
    TokensDateFromAReading(l, qs);
    RunSound(l, Fresh(l), qs);
  }

  /** A clock that runs backwards breaks it: the bucket below is given one token at
      time 10 and asked again at time 5. */
  lemma BackwardsClockLeavesTokensInDebt()
    ensures
      var l := Limits(2, 1, 100);
      var qs := [Request(10, 1, 100), Request(5, 0, 100)];
      !DebtMeansEmpty(After(l, Fresh(l), qs), 5)
  {
    var l := Limits(2, 1, 100);
    var qs := [Request(10, 1, 100), Request(5, 0, 100)];
    assert qs[..1] == [Request(10, 1, 100)];
    assert qs[..1][..0] == [];
    assert After(l, Fresh(l), qs[..1]) == State(10, 1);
  }

  // ---- How much can be taken in a window --------------------------------------------

  ghost predicate StartsAndEndsGranted(l: Limits, s: State, qs: seq<Request>)
    requires l.Valid()
  {
    && qs != []
    && AnswerAt(l, s, qs, 0).Granted?
    && AnswerAt(l, s, qs, |qs| - 1).Granted?
  }

  /** What a run that opens with a grant draws down is bounded by a full bucket at
      the time of that grant. */
  lemma {:induction false} OpeningBound(l: Limits, s: State, qs: seq<Request>)
    requires l.Valid() && Sound(l, s)
    requires qs != [] && AnswerAt(l, s, qs, 0).Granted?
    ensures l.nanos * Spent(l, s, qs) + Potential(l, After(l, s, qs)) <= l.nanos * l.size - qs[0].now
  {
    if |qs| == 1 {
      var r := Refill(l, s, qs[0].now);
      assert qs[..0] == [];
      assert AnswerAt(l, s, qs, 0) == Answer(l, s, qs[0]);
      assert Spent(l, s, qs) == qs[0].tokens;
      assert After(l, s, qs) == Charge(l, r, qs[0].tokens);
      ChargeLedger(l, r, qs[0].tokens);
      RefillSound(l, s, qs[0].now);
      MulMono(r.ac, l.size, l.nanos);
    } else {
      var n := |qs| - 1;
      assert qs[..n][..0] == qs[..0];
      OpeningBound(l, s, qs[..n]);
      var m := After(l, s, qs[..n]);
      StepLedger(l, m, qs[n]);
      MulMono(0, Spilled(l, m, qs[n]), l.nanos);
      var tokens := if Answer(l, m, qs[n]).Granted? then qs[n].tokens else 0;
      Distribute(l.nanos, Spent(l, s, qs[..n]), tokens);
    }
  }

  /** Window rate bound, for the stretch of a run between two grants. No
      assumption is made on the clock. */
  lemma StretchBound(l: Limits, s: State, qs: seq<Request>)
    requires l.Valid() && Sound(l, s) && StartsAndEndsGranted(l, s, qs)
    ensures l.nanos * Spent(l, s, qs) <= l.nanos * l.size + (qs[|qs| - 1].now - qs[0].now) + l.maxDebt
  {
    OpeningBound(l, s, qs);
    var n := |qs| - 1;
    RunSound(l, s, qs[..n]);
    NextSound(l, After(l, s, qs[..n]), qs[n]);
    MulMono(0, After(l, s, qs).ac, l.nanos);
  }

  /** The part of a run between two grants is itself such a stretch. */
  lemma WindowIsStretch(l: Limits, qs: seq<Request>, i: nat, j: nat)
    requires l.Valid() && i <= j < |qs|
    requires AnswerAt(l, Fresh(l), qs, i).Granted? && AnswerAt(l, Fresh(l), qs, j).Granted?
    ensures
      var s := After(l, Fresh(l), qs[..i]);
      var w := qs[i..j + 1];
      && Sound(l, s) && StartsAndEndsGranted(l, s, w)
      && AnswerAt(l, s, w, j - i) == AnswerAt(l, Fresh(l), qs, j)
  {
    var w := qs[i..j + 1];
    RunSound(l, Fresh(l), qs[..i]);
    AnswerInTail(l, Fresh(l), qs, i, 0);
    AnswerInTail(l, Fresh(l), qs, i, j - i);
    assert w[..0] == qs[i..][..0] && w[..j - i] == qs[i..][..j - i];
  }

  /** Window rate bound: between any two granted requests of any run of a bucket
      that started full, the tokens granted are bounded by the size, the elapsed
      time and the debt limit. */
  lemma WindowRateBound(l: Limits, qs: seq<Request>, i: nat, j: nat)
    requires l.Valid() && i <= j < |qs|
    requires AnswerAt(l, Fresh(l), qs, i).Granted? && AnswerAt(l, Fresh(l), qs, j).Granted?
    ensures l.nanos * Spent(l, After(l, Fresh(l), qs[..i]), qs[i..j + 1])
         <= l.nanos * l.size + (qs[j].now - qs[i].now) + l.maxDebt
  {
    WindowIsStretch(l, qs, i, j);
    StretchBound(l, After(l, Fresh(l), qs[..i]), qs[i..j + 1]);
  }

  /** Refilling never raises the potential, so before a refill it is already at
      least minus the ready time. */
  lemma PotentialIsPromised(l: Limits, s: State, now: int)
    requires l.Valid() && Sound(l, s)
    ensures -Refill(l, s, now).tna <= Potential(l, s)
  {
    var r := Refill(l, s, now);
    RefillSound(l, s, now);
    MulMono(0, r.ac, l.nanos);
    if now > s.tna {
      RefillLedger(l, s, now);
      var earned := s.ac + (now - s.tna) / l.nanos;
      MulMono(0, earned - Min(l.size, earned), l.nanos);
    }
  }

  lemma StretchPays(l: Limits, s: State, qs: seq<Request>)
    requires l.Valid() && Sound(l, s) && |qs| >= 2 && StartsAndEndsGranted(l, s, qs)
    ensures
      var n := |qs| - 1;
      l.nanos * Spent(l, s, qs[..n]) <=
        l.nanos * l.size + (qs[n].now + AnswerAt(l, s, qs, n).wait - qs[0].now)
  {
    var n := |qs| - 1;
    var m := After(l, s, qs[..n]);
    assert qs[..n][..0] == qs[..0];
    OpeningBound(l, s, qs[..n]);
    RunSound(l, s, qs[..n]);
    PotentialIsPromised(l, m, qs[n].now);
  }

  /** The next caller pays: in every run of a bucket that started full, everything
      granted from one grant up to a later one fits in a full bucket plus the
      time until that later grant is ready. */
  lemma NextCallerPays(l: Limits, qs: seq<Request>, i: nat, j: nat)
    requires l.Valid() && i < j < |qs|
    requires AnswerAt(l, Fresh(l), qs, i).Granted? && AnswerAt(l, Fresh(l), qs, j).Granted?
    ensures l.nanos * Spent(l, After(l, Fresh(l), qs[..i]), qs[i..j])
         <= l.nanos * l.size + (qs[j].now + AnswerAt(l, Fresh(l), qs, j).wait - qs[i].now)
  {
    WindowIsStretch(l, qs, i, j);
    assert qs[i..j + 1][..j - i] == qs[i..j];
    StretchPays(l, After(l, Fresh(l), qs[..i]), qs[i..j + 1]);
  }

  /** Grants become ready in the order in which they were made. */
  lemma ReadyTimesNeverDecrease(l: Limits, s: State, qs: seq<Request>, i: nat, j: nat)
    requires l.Valid() && Sound(l, s) && i < j < |qs|
    requires AnswerAt(l, s, qs, i).Granted? && AnswerAt(l, s, qs, j).Granted?
    ensures qs[i].now + AnswerAt(l, s, qs, i).wait <= qs[j].now + AnswerAt(l, s, qs, j).wait
  {
    var si := After(l, s, qs[..i]);
    RunSound(l, s, qs[..i]);
    NextSound(l, si, qs[i]);
    assert qs[..i + 1][..i] == qs[..i];
    AfterConcat(l, s, qs[..i + 1], qs[i + 1..j]);
    assert qs[..i + 1] + qs[i + 1..j] == qs[..j];
    RunSound(l, After(l, s, qs[..i + 1]), qs[i + 1..j]);
    RefillSound(l, After(l, s, qs[..j]), qs[j].now);
  }

  // ---- Rejections are free --------------------------------------------------------

  /** The requests of a run that were granted, in order. */
  function GrantedOnly(l: Limits, s: State, qs: seq<Request>): seq<Request>
    requires l.Valid()
  {
    if qs == [] then [] else
      var n := |qs| - 1;
      GrantedOnly(l, s, qs[..n]) + if AnswerAt(l, s, qs, n).Granted? then [qs[n]] else []
  }

  function GrantsIn(rs: seq<Response>): seq<Response> {
    if rs == [] then [] else
      GrantsIn(rs[..|rs| - 1]) + if rs[|rs| - 1].Granted? then [rs[|rs| - 1]] else []
  }

  lemma AnswersSnoc(l: Limits, s: State, qs: seq<Request>)
    requires l.Valid() && qs != []
    ensures Answers(l, s, qs) == Answers(l, s, qs[..|qs| - 1]) + [AnswerAt(l, s, qs, |qs| - 1)]
  {
    var n := |qs| - 1;
    forall i | 0 <= i < n
      ensures AnswerAt(l, s, qs, i) == AnswerAt(l, s, qs[..n], i)
    {
      assert qs[..n][..i] == qs[..i];
    }
  }

  /** Erasing every rejected request from a run changes neither the final state
      nor any other response. */
  lemma {:induction false} RejectionsAreInvisible(l: Limits, s: State, qs: seq<Request>)
    requires l.Valid()
    ensures After(l, s, GrantedOnly(l, s, qs)) == After(l, s, qs)
    ensures Answers(l, s, GrantedOnly(l, s, qs)) == GrantsIn(Answers(l, s, qs))
  {
    if qs != [] {
      var n := |qs| - 1;
      var kept := GrantedOnly(l, s, qs[..n]);
      RejectionsAreInvisible(l, s, qs[..n]);
      AnswersSnoc(l, s, qs);
      var rs := Answers(l, s, qs);
      assert rs[..|rs| - 1] == Answers(l, s, qs[..n]);
      if AnswerAt(l, s, qs, n).Granted? {
        var all := kept + [qs[n]];
        assert all[..|all| - 1] == kept;
        AnswersSnoc(l, s, all);
      } else {
        assert kept + [] == kept;
      }
    }
  }

  // ---- Dominance ------------------------------------------------------------------

  /** `rich` has no fewer tokens and no later next-available time. */
  ghost predicate Dominates(rich: State, poor: State) {
    poor.ac <= rich.ac && rich.tna <= poor.tna
  }

  ghost predicate AllGranted(l: Limits, s: State, qs: seq<Request>)
    requires l.Valid()
  {
    forall i :: 0 <= i < |qs| ==> AnswerAt(l, s, qs, i).Granted?
  }

  lemma RefillDominates(l: Limits, rich: State, poor: State, now: int)
    requires l.Valid() && Sound(l, rich) && Sound(l, poor) && Dominates(rich, poor)
    ensures Dominates(Refill(l, rich, now), Refill(l, poor, now))
  {
    RefillSound(l, rich, now);
    if now > poor.tna {
      DivMono(now - poor.tna, now - rich.tna, l.nanos);
    }
  }

  lemma ChargeDominates(l: Limits, rich: State, poor: State, tokens: nat)
    requires l.Valid() && Dominates(rich, poor)
    ensures Dominates(Charge(l, rich, tokens), Charge(l, poor, tokens))
  {
    MulMono(tokens - Min(rich.ac, tokens), tokens - Min(poor.ac, tokens), l.nanos);
  }

  lemma StepDominates(l: Limits, rich: State, poor: State, q: Request)
    requires l.Valid() && Sound(l, rich) && Sound(l, poor) && Dominates(rich, poor)
    requires Answer(l, poor, q).Granted?
    ensures Answer(l, rich, q).Granted? && Answer(l, rich, q).wait <= Answer(l, poor, q).wait
    ensures Dominates(Next(l, rich, q), Next(l, poor, q))
  {
    RefillDominates(l, rich, poor, q.now);
    ChargeDominates(l, Refill(l, rich, q.now), Refill(l, poor, q.now), q.tokens);
  }

  /** Dominance: whatever run the poorer bucket grants in full, the richer one
      grants in full, with waits no longer at any step. */
  lemma {:induction false} RicherServesSooner(l: Limits, rich: State, poor: State, qs: seq<Request>)
    requires l.Valid() && Sound(l, rich) && Sound(l, poor) && Dominates(rich, poor)
    requires AllGranted(l, poor, qs)
    ensures AllGranted(l, rich, qs)
    ensures forall i :: 0 <= i < |qs| ==> AnswerAt(l, rich, qs, i).wait <= AnswerAt(l, poor, qs, i).wait
    ensures Dominates(After(l, rich, qs), After(l, poor, qs))
  {
    if qs != [] {
      var n := |qs| - 1;
      forall i | 0 <= i < n
        ensures AnswerAt(l, poor, qs[..n], i) == AnswerAt(l, poor, qs, i)
        ensures AnswerAt(l, rich, qs[..n], i) == AnswerAt(l, rich, qs, i)
      {
        assert qs[..n][..i] == qs[..i];
      }
      RicherServesSooner(l, rich, poor, qs[..n]);
      RunSound(l, rich, qs[..n]);
      RunSound(l, poor, qs[..n]);
      assert AnswerAt(l, poor, qs, n).Granted?;
      StepDominates(l, After(l, rich, qs[..n]), After(l, poor, qs[..n]), qs[n]);
      forall i | 0 <= i < |qs|
        ensures AnswerAt(l, rich, qs, i).Granted?
        ensures AnswerAt(l, rich, qs, i).wait <= AnswerAt(l, poor, qs, i).wait
      {
        if i < n {
          assert AnswerAt(l, rich, qs[..n], i).Granted?;
        }
      }
    }
  }

  /** A fresh bucket grants everything that a used one would. */
  lemma FreshServesSoonest(l: Limits, past: seq<Request>, qs: seq<Request>)
    requires l.Valid()
    requires AllGranted(l, After(l, Fresh(l), past), qs)
    ensures AllGranted(l, Fresh(l), qs)
  {
    RunSound(l, Fresh(l), past);
    RicherServesSooner(l, Fresh(l), After(l, Fresh(l), past), qs);
  }

  /** Full granting is needed: a richer bucket may grant a large request that the
      poorer one refuses, and then keep a later caller waiting. */
  lemma RicherMayRefuseLater()
    ensures
      var l := Limits(2, 1, 10);
      && Dominates(State(0, 2), State(0, 0))
      && AnswerAt(l, State(0, 0), [Request(0, 11, 0), Request(0, 1, 0)], 1).Granted?
      && AnswerAt(l, State(0, 2), [Request(0, 11, 0), Request(0, 1, 0)], 1).Rejected?
  {
    var l := Limits(2, 1, 10);
    var qs := [Request(0, 11, 0), Request(0, 1, 0)];
    assert qs[..1] == [qs[0]];
    assert qs[..1][..0] == [];
    assert After(l, State(0, 0), qs[..1]) == State(0, 0);
    assert After(l, State(0, 2), qs[..1]) == State(9, 0);
  }
}
