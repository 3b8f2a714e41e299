// The Redis twin of the token bucket (buckets/redis/bucket_factory.go:23-76,
// buckets/redis/bucket.go:43-77): a script over two keys with a time to live.
// Redis numbers are taken as exact integers and expiry is an explicit step.
module RedisBucket {
  import opened Prelude
  import opened Config
  import opened TokenBucket
  import opened Eviction
  import opened Admission
  import Reconnect

  /** The two keys of one bucket. */
  class Keys {
    var tokensNextAvailable: Option<int>
    var accumulated: Option<int>
    // When the keys were last written and, if they expire, after how many milliseconds.
    var writtenAt: int
    var timeToLive: Option<int>

    /** Absent keys stand for a fresh, full bucket, each on its own. */
    ghost function View(size: int): State
      reads this
    {
      State(if tokensNextAvailable.Some? then tokensNextAvailable.value else 0,
            if accumulated.Some? then accumulated.value else size)
    }

    /** The keys come and go together. */
    ghost predicate Paired()
      reads this
    {
      tokensNextAvailable.Some? == accumulated.Some?
    }

    ghost function Contents(): Store
      requires Paired()
      reads this
    {
      if accumulated.None? then Absent
      else Present(State(tokensNextAvailable.value, accumulated.value), writtenAt)
    }

    constructor ()
      ensures Paired() && Contents() == Absent
    {
      tokensNextAvailable, accumulated, writtenAt, timeToLive := None, None, 0, None;
    }

    /** The script, statement by statement. */
    method RunScript(now: int, nanosBetweenTokens: int, maxTokensToAccumulate: int, requested: nat,
                     maxWaitTime: int, lifespan: int, maxDebtNanos: int)
      returns (waitTime: int)
      requires Limits(maxTokensToAccumulate, nanosBetweenTokens, maxDebtNanos).Valid()
      modifies this
      ensures
        var l := Limits(maxTokensToAccumulate, nanosBetweenTokens, maxDebtNanos);
        var q := Request(now, requested, maxWaitTime);
        var s := old(View(maxTokensToAccumulate));
        && View(maxTokensToAccumulate) == Next(l, s, q)
        && waitTime == (if Answer(l, s, q).Granted? then Answer(l, s, q).wait else -1)
        && (Answer(l, s, q).Rejected? ==> unchanged(this))
        && (Answer(l, s, q).Granted? ==>
              Paired() && Contents() == Present(Next(l, s, q), now) &&
              timeToLive == if lifespan > 0 then Some(lifespan) else None)
    {
      var tna := if tokensNextAvailable.Some? then tokensNextAvailable.value else 0;
      var tokens := if accumulated.Some? then accumulated.value else maxTokensToAccumulate;
      if now > tna {
        var freshTokens := (now - tna) / nanosBetweenTokens;
        tokens := Min(maxTokensToAccumulate, tokens + freshTokens);
        tna := now;
      }
      waitTime := tna - now;
      var used := Min(tokens, requested);
      var tokensToWaitFor := requested - used;
      tna := tna + tokensToWaitFor * nanosBetweenTokens;
      tokens := tokens - used;
      if tna - now > maxDebtNanos || (waitTime > 0 && waitTime > maxWaitTime) {
        waitTime := -1;
      } else {
        tokensNextAvailable, accumulated, writtenAt := Some(tna), Some(tokens), now;
        timeToLive := if lifespan > 0 then Some(lifespan) else None;
      }
    }

    /** Redis drops both keys once their time to live has passed. */
    method Expire(now: int)
      requires timeToLive.Some? && writtenAt + timeToLive.value * 1_000_000 <= now
      modifies this
      ensures Paired() && Contents() == Absent
    {
      tokensNextAvailable, accumulated := None, None;
    }
  }

  /** What becomes of a call to Redis: it is answered, it is not sent, because the client
      is closed or for some other reason, or it is carried out and the answer is lost. */
  datatype Fate = Answered | Unsent(clientClosed: bool) | Unanswered

  /** Taking tokens from a Redis bucket does to the keys what the memory bucket does to
      its fields, and answers the same. A call that goes wrong is an error to the caller,
      whether or not it took the tokens; a closed client is reported to the factory. */
  method Take(keys: Keys, factory: Reconnect.BucketFactory, client: nat, cfg: BucketConfig, keyMaxIdleMillis: int,
              fate: Fate,
              now: int, requested: nat, maxWaitTimeNanos: int, ghost f: Reconnect.Factory)
    returns (wait: int, success: bool, error: bool)
    requires Usable(cfg) && keys.Paired() && factory.Shows(f)
    modifies keys, factory`connectionNeedsResolution
    ensures LimitsOf(cfg).Valid() && keys.Paired()
    ensures
      var l := LimitsOf(cfg);
      var q := Request(now, requested, maxWaitTimeNanos);
      var k := old(keys.Contents());
      && keys.Contents() == (if fate.Unsent? then k else Serve(l, k, q, false))
      && error == !fate.Answered?
      && success == (!error && Answer(l, Look(l, k), q).Granted?)
      && wait == (if success then Answer(l, Look(l, k), q).wait else 0)
    ensures success && cfg.maxIdleMillis > 0 ==> keys.timeToLive == Some(cfg.maxIdleMillis)
    ensures success && cfg.maxIdleMillis <= 0 && keyMaxIdleMillis > 0 ==> keys.timeToLive == Some(keyMaxIdleMillis)
    ensures success && cfg.maxIdleMillis <= 0 && keyMaxIdleMillis <= 0 ==> keys.timeToLive == None
    ensures factory.Shows(if fate == Unsent(true) then Reconnect.HandleFailure(f, client, factory.connectionRetries)
      else f)
  {
    IntervalBracketsRate(cfg);
    var maxIdle := if cfg.maxIdleMillis > 0 then cfg.maxIdleMillis else 0;
    if maxIdle == 0 {
      maxIdle := keyMaxIdleMillis;
    }
    if !fate.Unsent? {
      wait := keys.RunScript(now, 1_000_000_000 / cfg.fillRate, cfg.size, requested,
                             maxWaitTimeNanos, maxIdle, cfg.maxDebtMillis * 1_000_000);
      GrantedWaitIsNatural(LimitsOf(cfg), Look(LimitsOf(cfg), old(keys.Contents())),
        Request(now, requested, maxWaitTimeNanos));
    }
    if !fate.Answered? {
      if fate.Unsent? && fate.clientClosed {
        var _ := factory.HandleConnectionFailure(client, f);
      }
      return 0, false, true;
    }
    if wait < 0 {
      return 0, false, false;
    }
    return wait, true, false;
  }

  lemma GrantedWaitIsNatural(l: Limits, s: State, q: Request)
    requires l.Valid()
    ensures Answer(l, s, q).Granted? ==> 0 <= Answer(l, s, q).wait
  {
  }

  function NoExpiry(n: nat): (drops: seq<bool>)
    ensures |drops| == n && forall i :: 0 <= i < n ==> !drops[i]
  {
    seq(n, _ => false)
  }

  /** The Redis bucket refines the memory bucket: over every run without key
      expiry both give the same responses and hold the same state. */
  lemma {:induction false} RedisRefinesMemory(l: Limits, qs: seq<Request>)
    requires l.Valid()
    ensures Look(l, StoreAfter(l, qs, NoExpiry(|qs|))) == After(l, Fresh(l), qs)
    ensures forall i :: 0 <= i < |qs| ==>
      ReplyAt(l, qs, NoExpiry(|qs|), i) == AnswerAt(l, Fresh(l), qs, i)
  {
    if qs != [] {
      var n := |qs| - 1;
      RedisRefinesMemory(l, qs[..n]);
      var drops := NoExpiry(|qs|);
      assert drops[..n] == NoExpiry(n);
      forall i | 0 <= i < |qs|
        ensures ReplyAt(l, qs, drops, i) == AnswerAt(l, Fresh(l), qs, i)
      {
        if i < n {
          assert qs[..n][..i] == qs[..i] && NoExpiry(n)[..i] == drops[..i];
          assert ReplyAt(l, qs[..n], NoExpiry(n), i) == AnswerAt(l, Fresh(l), qs[..n], i);
        }
      }
    }
  }

  /** With key expiry it still does, as far as the callers of the server can tell, for
      exactly the configurations whose lifespan covers a full refill and the furthest that
      a grant can reach into the future: the debt limit, or if that is less the timeout
      and the largest loan together. */
  lemma ExpiryIsInvisible(cfg: BucketConfig, keyMaxIdleMillis: int, lifespan: int)
    requires Usable(cfg) && 0 < lifespan
    requires cfg.maxIdleMillis > 0 ==> lifespan == cfg.maxIdleMillis
    requires cfg.maxIdleMillis <= 0 ==> lifespan == keyMaxIdleMillis
    ensures LimitsOf(cfg).Valid()
    ensures
      var interval, debt := 1_000_000_000 / cfg.fillRate, cfg.maxDebtMillis * 1_000_000;
      var loan := if cfg.maxTokensPerRequest > 0 then Min(cfg.maxTokensPerRequest, debt / interval)
        else debt / interval;
      var timeout := if cfg.waitTimeoutMillis < 0 then 0 else cfg.waitTimeoutMillis * 1_000_000;
      Invisible(LimitsOf(cfg), q => PassedOn(cfg, q), lifespan * 1_000_000) <==>
        || cfg.maxDebtMillis < 0
        || (if debt < interval then 0 else Min(debt,
          timeout + loan * interval)) + cfg.size * interval <= lifespan * 1_000_000
  {
    IntervalBracketsRate(cfg);
    ServerHoldsCallers(cfg);
    EvictionThreshold(LimitsOf(cfg), CallersOf(cfg), q => PassedOn(cfg, q), lifespan * 1_000_000);
  }
}
