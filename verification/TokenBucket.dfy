// The token bucket (buckets/memory/bucket.go).
//
// A bucket is a pair (tokens next available, accumulated tokens). Tokens are
// added lazily when a request arrives, up to the bucket's size; a request that
// needs more tokens than there are borrows them from the future, and it is the
// next caller who waits. Clocks are parameters; numbers are mathematical
// integers.
module TokenBucket {
  import opened Prelude
  import opened Config

  // ---- Limits, states and requests ------------------------------------------

  /** What a bucket's configuration fixes: capacity, nanoseconds per token and
      the largest debt in nanoseconds. */
  datatype Limits = Limits(size: int, nanos: int, maxDebt: int) {
    ghost predicate Valid() {
      1 <= size && 1 <= nanos
    }
  }

  datatype State = State(tna: int, ac: int)

  datatype Request = Request(now: int, tokens: nat, maxWait: int)

  datatype Response = Granted(wait: int) | Rejected

  /** Configurations the bucket arithmetic is meant for. */
  ghost predicate Usable(cfg: BucketConfig) {
    1 <= cfg.fillRate <= 1_000_000_000 && 1 <= cfg.size
  }

  function LimitsOf(cfg: BucketConfig): Limits
    requires cfg.fillRate != 0
  {
    Limits(cfg.size, 1_000_000_000 / cfg.fillRate, cfg.maxDebtMillis * 1_000_000)
  }

  /** The integer token interval brackets the configured rate: one token per
      `nanos` is at least the fill rate, and one per `nanos + 1` is below it. */
  lemma IntervalBracketsRate(cfg: BucketConfig)
    requires Usable(cfg)
    ensures LimitsOf(cfg).Valid()
    ensures LimitsOf(cfg).nanos * cfg.fillRate <= 1_000_000_000 < (LimitsOf(cfg).nanos + 1) * cfg.fillRate
  {
    DivBounds(1_000_000_000, cfg.fillRate);
    var n := LimitsOf(cfg).nanos;
    assert (n + 1) * cfg.fillRate == n * cfg.fillRate + cfg.fillRate;
    if n < 1 {
      MulMono(n, 0, cfg.fillRate);
    }
  }

  /** A bucket starts full. */
  function Fresh(l: Limits): State {
    State(0, l.size)
  }

  // ---- One request ------------------------------------------------------------

  /** Lazy refill: tokens earned since `tna`, capped at the size. */
  function Refill(l: Limits, s: State, now: int): State
    requires l.Valid()
  {
    if now > s.tna then State(now, Min(l.size, s.ac + (now - s.tna) / l.nanos)) else s
  }

  /** Spend accumulated tokens first, then push `tna` into the future. */
  function Charge(l: Limits, s: State, tokens: nat): State {
    var used := Min(s.ac, tokens);
    State(s.tna + (tokens - used) * l.nanos, s.ac - used)
  }

  function Ready(l: Limits, s: State, q: Request): int
    requires l.Valid()
  {
    Refill(l, s, q.now).tna
  }

  function Answer(l: Limits, s: State, q: Request): Response
    requires l.Valid()
  {
    var r := Refill(l, s, q.now);
    var wait := r.tna - q.now;
    if Charge(l, r, q.tokens).tna - q.now > l.maxDebt || (wait > 0 && wait > q.maxWait) then Rejected
    else Granted(wait)
  }

  function Next(l: Limits, s: State, q: Request): State
    requires l.Valid()
  {
    if Answer(l, s, q).Granted? then Charge(l, Refill(l, s, q.now), q.tokens) else s
  }

  // ---- Whole runs -------------------------------------------------------------

  /** The state after serving a sequence of requests. */
  function After(l: Limits, s: State, qs: seq<Request>): State
    requires l.Valid()
  {
    if qs == [] then s else Next(l, After(l, s, qs[..|qs| - 1]), qs[|qs| - 1])
  }

  /** The response to the i-th request of a run. */
  function AnswerAt(l: Limits, s: State, qs: seq<Request>, i: nat): Response
    requires l.Valid() && i < |qs|
  {
    Answer(l, After(l, s, qs[..i]), qs[i])
  }

  function Answers(l: Limits, s: State, qs: seq<Request>): (r: seq<Response>)
    requires l.Valid()
    ensures |r| == |qs|
  {
    seq(|qs|, i requires 0 <= i < |qs| => AnswerAt(l, s, qs, i))
  }

  /** Tokens handed out over a run. */
  function Spent(l: Limits, s: State, qs: seq<Request>): nat
    requires l.Valid()
  {
    if qs == [] then 0 else
      var n := |qs| - 1;
      Spent(l, s, qs[..n]) + if AnswerAt(l, s, qs, n).Granted? then qs[n].tokens else 0
  }

  ghost predicate Ordered(qs: seq<Request>, start: int) {
    && (forall i :: 0 <= i < |qs| ==> start <= qs[i].now)
    && (forall i, j :: 0 <= i < j < |qs| ==> qs[i].now <= qs[j].now)
  }

  // ---- The bucket object ------------------------------------------------------

  class Bucket {
    const cfg: BucketConfig
    const nanosBetweenTokens: int
    var tokensNextAvailableNanos: int
    var accumulatedTokens: int

    ghost predicate Valid()
    {
      Usable(cfg) && nanosBetweenTokens == LimitsOf(cfg).nanos
    }

    ghost function View(): State
      reads this
    {
      State(tokensNextAvailableNanos, accumulatedTokens)
    }

    constructor (cfg: BucketConfig)
      requires Usable(cfg)
      ensures Valid() && this.cfg == cfg && View() == Fresh(LimitsOf(cfg))
      ensures tokensNextAvailableNanos == 0 && accumulatedTokens == cfg.size
    {
      this.cfg := cfg;
      nanosBetweenTokens := 1_000_000_000 / cfg.fillRate;
      tokensNextAvailableNanos := 0;
      accumulatedTokens := cfg.size;
    }

    /** Decides one request at time `now`; a negative result is a rejection. */
    method CalcWaitTime(now: int, requested: nat, maxWaitTimeNanos: int) returns (wait: int)
      requires Valid()
      modifies this
      ensures LimitsOf(cfg).Valid()
      ensures View() == Next(LimitsOf(cfg), old(View()), Request(now, requested, maxWaitTimeNanos))
      ensures wait < 0 <==> Answer(LimitsOf(cfg), old(View()), Request(now, requested, maxWaitTimeNanos)).Rejected?
      ensures wait >= 0 ==>
        Answer(LimitsOf(cfg), old(View()), Request(now, requested, maxWaitTimeNanos)) == Granted(wait)
    {
      IntervalBracketsRate(cfg);
      var tna := tokensNextAvailableNanos;
      var ac := accumulatedTokens;
      if now > tna {
        var freshTokens := (now - tna) / nanosBetweenTokens;
        ac := Min(cfg.size, ac + freshTokens);
        tna := now;
      }
      wait := tna - now;
      var accumulatedTokensUsed := Min(ac, requested);
      var tokensToWaitFor := requested - accumulatedTokensUsed;
      var futureWaitNanos := tokensToWaitFor * nanosBetweenTokens;
      tna := tna + futureWaitNanos;
      ac := ac - accumulatedTokensUsed;
      if tna - now > cfg.maxDebtMillis * 1_000_000 || (wait > 0 && wait > maxWaitTimeNanos) {
        wait := -1;
      } else {
        tokensNextAvailableNanos := tna;
        accumulatedTokens := ac;
      }
    }

    /** What a caller sees: a wait and whether the tokens were granted. */
    method Take(now: int, numTokens: nat, maxWaitTimeNanos: int) returns (wait: int, success: bool)
      requires Valid()
      modifies this
      ensures LimitsOf(cfg).Valid()
      ensures View() == Next(LimitsOf(cfg), old(View()), Request(now, numTokens, maxWaitTimeNanos))
      ensures success == Answer(LimitsOf(cfg), old(View()), Request(now, numTokens, maxWaitTimeNanos)).Granted?
      ensures wait == if success then Answer(LimitsOf(cfg), old(View()),
        Request(now, numTokens, maxWaitTimeNanos)).wait else 0
    {
      var nanos := CalcWaitTime(now, numTokens, maxWaitTimeNanos);
      if nanos < 0 {
        return 0, false;
      }
      return nanos, true;
    }
  }
}
