/** The rate limiter as the program has it: one table and two counters updated in place.
    Every method is proved to do to `State()` what the limiter model's function of that name
    does, so the bounds proved about runs of the model hold of the object. */
module RateLimiters {
  import opened OrderedDicts
  import opened RateLimiterModel

  class RateLimiter {
    const config: Config
    var buckets: OrderedDict<Bucket>
    var requestsAllowed: nat
    var requestsBlocked: nat

    ghost predicate Valid()
      reads this
    {
      config.Valid() && buckets.Valid()
    }

    ghost function State(): (s: Limiter)
      requires Valid()
      reads this
      ensures s.Valid()
    {
      Limiter(buckets, requestsAllowed, requestsBlocked)
    }

    constructor (config: Config)
      requires config.Valid()
      ensures Valid() && this.config == config && State() == EmptyLimiter()
    {
      this.config := config;
      buckets, requestsAllowed, requestsBlocked := Empty(), 0, 0;
    }

    /** The key the eviction picks: the first with the smallest refill time. */
    method FindOldest() returns (key: string)
      requires Valid() && |buckets.keys| > 0
      ensures key == RateLimiterModel.OldestKey(buckets)
      ensures forall i :: 0 <= i < IndexOf(buckets.keys, key) ==>
        buckets.keys[i] in buckets.vals && buckets.vals[key].lastRefill < buckets.vals[buckets.keys[i]].lastRefill
    {
      FirstOldest();
      hide RateLimiterModel.OldestOf;
      var keys, best := buckets.keys, 0;
      assert forall x :: x in keys ==> x in buckets.vals;
      for i := 1 to |keys|
        invariant best < i && Leads(buckets.vals, keys, best, i)
      {
        if buckets.vals[keys[i]].lastRefill < buckets.vals[keys[best]].lastRefill {
          best := i;
        }
      }
      LeaderIsOldest(buckets.vals, keys, best);
      key := keys[best];
    }

    lemma FirstOldest()
      requires Valid() && |buckets.keys| > 0
      ensures var key := RateLimiterModel.OldestKey(buckets);
        forall i :: 0 <= i < IndexOf(buckets.keys, key) ==>
          buckets.keys[i] in buckets.vals && buckets.vals[key].lastRefill < buckets.vals[buckets.keys[i]].lastRefill
    {
      var keys := buckets.keys;
      assert forall x :: x in keys ==> x in buckets.vals;
      forall i | 0 <= i < IndexOf(keys, RateLimiterModel.OldestKey(buckets))
        ensures keys[i] in buckets.vals
        ensures buckets.vals[RateLimiterModel.OldestKey(buckets)].lastRefill < buckets.vals[keys[i]].lastRefill
      {
        RateLimiterModel.OldestIsFirst(buckets.vals, keys, i);
        assert keys[i] in keys;
      }
    }

    method EvictOldest()
      requires Valid()
      modifies `buckets
      ensures Valid() && State() == old(State()).(buckets := RateLimiterModel.EvictOldest(old(buckets)))
    {
      if |buckets.keys| == 0 {
        return;
      }
      var key := FindOldest();
      buckets := buckets.Pop(key);
    }

    method Allow(client: string, now: real, cost: real) returns (ok: bool, retryAfter: int)
      requires Valid()
      modifies this
      ensures Valid()
      ensures RateLimiterModel.Allow(config, old(State()), client, now, cost) == Outcome(State(), Verdict(ok, retryAfter))
    {
      hide RateLimiterModel.EvictOldest, Times;
      hide Without, IndexOf, NoDuplicates, OrderedDict.Put, OrderedDict.Pop, OrderedDict.Valid;
      var maxTokens := config.MaxTokens();
      if client !in buckets.vals && |buckets.keys| >= config.maxEntries {
        EvictOldest();
      }
      if client !in buckets.vals {
        buckets := buckets.Put(client, Bucket(maxTokens - cost, now));
        requestsAllowed := requestsAllowed + 1;
        return true, 0;
      }
      var bucket := buckets.vals[client];
      var tokens := Min(maxTokens, bucket.tokens + config.Accrued(now - bucket.lastRefill));
      if tokens >= cost {
        buckets := buckets.Put(client, Bucket(tokens - cost, now));
        requestsAllowed := requestsAllowed + 1;
        return true, 0;
      }
      buckets := buckets.Put(client, Bucket(tokens, now));
      requestsBlocked := requestsBlocked + 1;
      return false, config.RetryAfter();
    }

    method CleanupSweep(now: real)
      requires Valid()
      modifies `buckets
      ensures Valid() && State() == Sweep(config, old(State()), now)
    {
      hide RateLimiterModel.PopAll, Stale;
      var stale := FindStale(now);
      ghost var d := buckets;
      assert stale[0..] == stale;
      for i := 0 to |stale|
        invariant Valid() && PopAll(d, stale) == PopAll(buckets, stale[i..])
      {
        PopFirst(buckets, stale[i..]);
        assert stale[i..][1..] == stale[i + 1..];
        buckets := buckets.Pop(stale[i]);
      }
      PopNone(buckets);
    }

    method FindStale(now: real) returns (stale: seq<string>)
      requires Valid()
      ensures stale == StaleKeys(config, buckets, buckets.keys, now)
    {
      KeysPresent(buckets);
      hide *;
      stale := [];
      var keys := buckets.keys;
      assert keys[0..] == keys;
      for i := 0 to |keys|
        invariant forall k :: k in keys[i..] ==> k in buckets.vals
        invariant StaleKeys(config, buckets, keys, now) == stale + StaleKeys(config, buckets, keys[i..], now)
      {
        StaleStep(config, buckets, keys[i..], now);
        assert keys[i..][1..] == keys[i + 1..] && keys[i..][0] == keys[i];
        if Stale(config, buckets.vals[keys[i]], now) {
          StaleJoins(stale, keys[i], StaleKeys(config, buckets, keys[i + 1..], now));
          stale := stale + [keys[i]];
        }
      }
      StaleNone(config, buckets, now);
      assert stale + [] == stale;
    }
  }

  lemma KeysPresent(d: OrderedDict<Bucket>)
    requires d.Valid()
    ensures forall k :: k in d.keys ==> k in d.vals
  {
  }

  lemma StaleStep(cfg: Config, d: OrderedDict<Bucket>, keys: seq<string>, now: real)
    requires cfg.Valid() && keys != [] && forall k :: k in keys ==> k in d.vals
    ensures keys[0] in d.vals && forall k :: k in keys[1..] ==> k in d.vals
    ensures StaleKeys(cfg, d, keys, now) ==
      if Stale(cfg, d.vals[keys[0]], now) then [keys[0]] + StaleKeys(cfg, d, keys[1..], now)
      else StaleKeys(cfg, d, keys[1..], now)
  {
    assert keys[0] in keys;
  }

  lemma StaleNone(cfg: Config, d: OrderedDict<Bucket>, now: real)
    requires cfg.Valid()
    ensures StaleKeys(cfg, d, [], now) == []
  {
  }

  lemma StaleJoins(a: seq<string>, k: string, b: seq<string>)
    ensures a + ([k] + b) == a + [k] + b
  {
  }

  /** `keys[best]` is the first smallest among the first `n`. */
  ghost predicate Leads(vals: map<string, Bucket>, keys: seq<string>, best: nat, n: nat)
    requires best < n <= |keys| && forall x :: x in keys ==> x in vals
  {
    && (forall j :: 0 <= j < best ==> vals[keys[best]].lastRefill < vals[keys[j]].lastRefill)
    && (forall j :: best <= j < n ==> vals[keys[best]].lastRefill <= vals[keys[j]].lastRefill)
  }

  lemma {:induction false} LeaderIsOldest(vals: map<string, Bucket>, keys: seq<string>, best: nat)
    requires best < |keys| && (forall x :: x in keys ==> x in vals) && Leads(vals, keys, best, |keys|)
    ensures OldestOf(vals, keys) == keys[best]
  {
    if best > 0 {
      assert forall x :: x in keys[1..] ==> x in keys;
      LeaderIsOldest(vals, keys[1..], best - 1);
    } else if |keys| > 1 {
      var k := OldestOf(vals, keys[1..]);
      var j :| 0 <= j < |keys[1..]| && keys[1..][j] == k;
      assert vals[keys[0]].lastRefill <= vals[keys[j + 1]].lastRefill;
    }
  }

  lemma PopFirst(d: OrderedDict<Bucket>, ks: seq<string>)
    requires d.Valid() && ks != []
    ensures PopAll(d, ks) == PopAll(d.Pop(ks[0]), ks[1..])
  {
  }

  lemma PopNone(d: OrderedDict<Bucket>)
    requires d.Valid()
    ensures PopAll(d, []) == d
  {
  }
}
