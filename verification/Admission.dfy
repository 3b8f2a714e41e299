// The limits the server puts around a bucket (server.go:106-153).
module Admission {
  import opened Prelude
  import opened Config
  import opened TokenBucket
  import opened TokenBucketRuns
  import opened Eviction

  datatype Outcome = Served(wait: int) | TooManyTokens | TimedOut

  /** What a client asks for, with a wait of its own if it likes. */
  datatype Ask = Ask(tokens: nat, overrideMillis: int, useOverride: bool)

  /** The longest wait a request accepts: the configured timeout, or a lower
      override sent with the request. */
  function MaxWaitNanos(cfg: BucketConfig, a: Ask): int {
    1_000_000 * if a.useOverride && a.overrideMillis < cfg.waitTimeoutMillis then a.overrideMillis
      else cfg.waitTimeoutMillis
  }

  /** The request that reaches the bucket. */
  function RequestOf(cfg: BucketConfig, now: int, a: Ask): Request {
    Request(now, a.tokens, MaxWaitNanos(cfg, a))
  }

  predicate OverLimit(cfg: BucketConfig, a: Ask) {
    cfg.maxTokensPerRequest < a.tokens && cfg.maxTokensPerRequest > 0
  }

  function Decide(cfg: BucketConfig, s: State, now: int, a: Ask): Outcome
    requires Usable(cfg) && LimitsOf(cfg).Valid()
  {
    if OverLimit(cfg, a) then TooManyTokens
    else match Answer(LimitsOf(cfg), s, RequestOf(cfg, now, a))
      case Granted(wait) => Served(wait)
      case Rejected => TimedOut
  }

  /** The bucket's state afterwards. */
  function Settled(cfg: BucketConfig, s: State, now: int, a: Ask): State
    requires Usable(cfg) && LimitsOf(cfg).Valid()
  {
    if OverLimit(cfg, a) then s else Next(LimitsOf(cfg), s, RequestOf(cfg, now, a))
  }

  method Allow(b: Bucket, now: int, a: Ask) returns (outcome: Outcome)
    requires b.Valid()
    modifies b
    ensures LimitsOf(b.cfg).Valid()
    ensures outcome == Decide(b.cfg, old(b.View()), now, a)
    ensures b.View() == Settled(b.cfg, old(b.View()), now, a)
  {
    IntervalBracketsRate(b.cfg);
    if b.cfg.maxTokensPerRequest < a.tokens && b.cfg.maxTokensPerRequest > 0 {
      return TooManyTokens;
    }
    var maxWait := 1_000_000;
    if a.useOverride && a.overrideMillis < b.cfg.waitTimeoutMillis {
      maxWait := maxWait * a.overrideMillis;
    } else {
      maxWait := maxWait * b.cfg.waitTimeoutMillis;
    }
    var wait, success := b.Take(now, a.tokens, maxWait);
    if !success {
      return TimedOut;
    }
    return Served(wait);
  }

  /** What the server decides, in full. A request over the limit per request is refused and
      leaves no trace. Any other is served, after the wait until tokens are next available,
      if and only if paying for it stays within the debt limit and the wait is none, or
      within the timeout and within the client's own limit if it sends one; else it times
      out and leaves no trace. `interval` is the time per token and `earned` the whole
      tokens earned since the last request. */
  lemma DecideExactly(cfg: BucketConfig, s: State, now: int, a: Ask, interval: int, earned: int)
    requires Usable(cfg) && interval * cfg.fillRate <= 1_000_000_000 < (interval + 1) * cfg.fillRate
    requires Earns(interval, now - s.tna, earned)
    ensures LimitsOf(cfg).Valid()
    ensures
      var ready := if now > s.tna then now else s.tna;
      var held := if now > s.tna then Min(cfg.size, s.ac + earned) else s.ac;
      var credit := if held < a.tokens then a.tokens - held else 0;
      var wait := ready - now;
      if 0 < cfg.maxTokensPerRequest < a.tokens then
        Decide(cfg, s, now, a) == TooManyTokens && Settled(cfg, s, now, a) == s
      else if
        && ready + credit * interval - now <= cfg.maxDebtMillis * 1_000_000
        && (wait == 0 || (wait <= cfg.waitTimeoutMillis * 1_000_000 &&
                          (a.useOverride ==> wait <= a.overrideMillis * 1_000_000)))
      then
        && Decide(cfg, s, now, a) == Served(wait)
        && Settled(cfg, s, now, a) == State(ready + credit * interval, held - (a.tokens - credit))
      else
        Decide(cfg, s, now, a) == TimedOut && Settled(cfg, s, now, a) == s
  {
    IntervalBracketsRate(cfg);
    IntervalIsOne(cfg, interval);
    RequestExactly(LimitsOf(cfg), s, RequestOf(cfg, now, a), earned);
  }

  /** There is only one interval for a rate. */
  lemma IntervalIsOne(cfg: BucketConfig, interval: int)
    requires Usable(cfg) && interval * cfg.fillRate <= 1_000_000_000 < (interval + 1) * cfg.fillRate
    ensures interval == LimitsOf(cfg).nanos
  {
    IntervalBracketsRate(cfg);
    var n := LimitsOf(cfg).nanos;
    if interval < n {
      MulMono(interval + 1, n, cfg.fillRate);
    } else if n < interval {
      MulMono(n + 1, interval, cfg.fillRate);
    }
  }

  /** Every wait a client is asked to make is at most the bucket's timeout, at most
      a lower override, at most the debt limit, and for a request of at most the
      per-request limit; and a rejected request leaves no trace. */
  lemma ServedWaitIsBounded(cfg: BucketConfig, past: seq<Request>, now: int, a: Ask)
    requires Usable(cfg)
    ensures LimitsOf(cfg).Valid()
    ensures
      var l := LimitsOf(cfg);
      var s := After(l, Fresh(l), past);
      var outcome := Decide(cfg, s, now, a);
      && (outcome.Served? ==>
            && 0 <= outcome.wait <= cfg.maxDebtMillis * 1_000_000
            && (outcome.wait > 0 ==> outcome.wait <= cfg.waitTimeoutMillis * 1_000_000)
            && (outcome.wait > 0 && a.useOverride ==>
                  outcome.wait <= a.overrideMillis * 1_000_000 || cfg.waitTimeoutMillis <= a.overrideMillis)
            && (cfg.maxTokensPerRequest > 0 ==> a.tokens <= cfg.maxTokensPerRequest))
      && (outcome.TooManyTokens? <==> 0 < cfg.maxTokensPerRequest < a.tokens)
      && (!outcome.Served? ==> Settled(cfg, s, now, a) == s)
  {
    IntervalBracketsRate(cfg);
    var l := LimitsOf(cfg);
    RunSound(l, Fresh(l), past);
    NextSound(l, After(l, Fresh(l), past), RequestOf(cfg, now, a));
  }

  // ---- What gets through ---------------------------------------------------------------

  /** The requests that the server passes on to a bucket. */
  ghost predicate PassedOn(cfg: BucketConfig, q: Request) {
    exists a :: !OverLimit(cfg, a) && RequestOf(cfg, q.now, a) == q
  }

  /** The limits its callers are held to. */
  function CallersOf(cfg: BucketConfig): Callers {
    Callers(cfg.maxTokensPerRequest, Some(cfg.waitTimeoutMillis * 1_000_000))
  }

  /** What gets through is held to these limits, and may go to them. */
  lemma ServerHoldsCallers(cfg: BucketConfig)
    requires Usable(cfg)
    ensures HeldTo(LimitsOf(cfg), CallersOf(cfg), q => PassedOn(cfg, q))
  {
    forall q | Admits(CallersOf(cfg), q) && q.maxWait == Patience(LimitsOf(cfg), CallersOf(cfg))
      ensures PassedOn(cfg, q)
    {
      assert RequestOf(cfg, q.now, Ask(q.tokens, 0, false)) == q;
    }
  }
}
