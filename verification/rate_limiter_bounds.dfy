/** What the token bucket promises: a bound on the admitted cost and an honest Retry-After
    (section 10.2.3 of RFC 9110). */
module RateLimiterBounds {
  import opened RateLimiterModel

  // ---- the rate bound ----

  /** Cost admitted for `client` over a run. */
  function Spent(cfg: Config, s: Limiter, es: seq<Event>, client: string): real
    requires cfg.Valid() && s.Valid()
    decreases |es|
  {
    if es == [] then 0.0
    else
      (if es[0].Call? && es[0].client == client && Admitted(cfg, s, es[0]) then es[0].cost else 0.0)
        + Spent(cfg, Step(cfg, s, es[0]), es[1..], client)
  }

  /** The bucket of `client` is there before every step: one bucket lifetime. */
  predicate Tracked(cfg: Config, s: Limiter, es: seq<Event>, client: string)
    requires cfg.Valid() && s.Valid()
    decreases |es|
  {
    client in s.buckets.vals && (es == [] || Tracked(cfg, Step(cfg, s, es[0]), es[1..], client))
  }

  /** What a bucket is worth, whenever it is looked at. */
  function Potential(cfg: Config, b: Bucket): real
    requires cfg.Valid()
  {
    b.tokens - cfg.Accrued(b.lastRefill)
  }

  lemma AccruedAdds(cfg: Config, a: real, b: real)
    requires cfg.Valid()
    ensures cfg.Accrued(a - b) == cfg.Accrued(a) - cfg.Accrued(b)
  {
  }

  lemma AccruedGrows(cfg: Config, a: real, b: real)
    requires cfg.Valid() && a <= b
    ensures cfg.Accrued(a) <= cfg.Accrued(b)
  {
    assert cfg.Rate() > 0.0;
    assert (b - a) * cfg.Rate() >= 0.0;
  }

  lemma RefillKeepsPotential(cfg: Config, b: Bucket, now: real)
    requires cfg.Valid()
    ensures Refilled(cfg, b, now) - cfg.Accrued(now) <= Potential(cfg, b)
  {
    AccruedAdds(cfg, now, b.lastRefill);
    hide Config.Accrued;
  }

  /** One step of the limiter seen from a client tracked before and after. */
  lemma StepPotential(cfg: Config, s: Limiter, e: Event, client: string)
    requires cfg.Valid() && s.Valid() && client in s.buckets.vals
    requires client in Step(cfg, s, e).buckets.vals
    ensures var spent := if e.Call? && e.client == client && Admitted(cfg, s, e) then e.cost else 0.0;
      Potential(cfg, Step(cfg, s, e).buckets.vals[client]) <= Potential(cfg, s.buckets.vals[client]) - spent
  {
    hide Config.Accrued, Config.MaxTokens;
    if e.Call? && e.client == client {
      RefillKeepsPotential(cfg, s.buckets.vals[client], e.now);
    }
  }

  lemma {:induction false} PotentialPaysForCost(cfg: Config, s: Limiter, es: seq<Event>, client: string)
    requires cfg.Valid() && s.Valid() && Tracked(cfg, s, es, client)
    ensures client in Run(cfg, s, es).buckets.vals
    ensures Potential(cfg, Run(cfg, s, es).buckets.vals[client])
      <= Potential(cfg, s.buckets.vals[client]) - Spent(cfg, s, es, client)
    decreases |es|
  {
    if es != [] {
      StepPotential(cfg, s, es[0], client);
      PotentialPaysForCost(cfg, Step(cfg, s, es[0]), es[1..], client);
    }
  }

  /** An admitted call on an existing bucket leaves no debt. */
  lemma AdmittedLeavesNoDebt(cfg: Config, s: Limiter, client: string, now: real, cost: real)
    requires cfg.Valid() && s.Valid() && client in s.buckets.vals
    requires Allow(cfg, s, client, now, cost).verdict.ok
    ensures var r := Allow(cfg, s, client, now, cost).limiter;
      client in r.buckets.vals && r.buckets.vals[client].tokens >= 0.0 && r.buckets.vals[client].lastRefill == now
  {
  }

  /** Within one bucket lifetime, from any point on, the cost admitted up to and including an
      admitted call at `now` is at most the capacity plus what refilled since, in whatever
      order the clock readings arrive.  `FullAtMost` says the premise on tokens always holds. */
  lemma TokenBucketBound(cfg: Config, s: Limiter, es: seq<Event>, client: string, now: real, cost: real)
    requires cfg.Valid() && s.Valid() && Tracked(cfg, s, es + [Call(client, now, cost)], client)
    requires s.buckets.vals[client].tokens <= cfg.MaxTokens()
    requires Admitted(cfg, Run(cfg, s, es), Call(client, now, cost))
    ensures Spent(cfg, s, es + [Call(client, now, cost)], client)
      <= cfg.MaxTokens() + cfg.Accrued(now - s.buckets.vals[client].lastRefill)
  {
    hide *;
    var last := Call(client, now, cost);
    var all := es + [last];
    RunAppend(cfg, s, es, last);
    TrackedPrefix(cfg, s, es, last, client);
    PotentialPaysForCost(cfg, s, all, client);
    LastAdmitted(cfg, Run(cfg, s, es), client, now, cost);
    BoundFromPotential(cfg, s.buckets.vals[client], Run(cfg, s, all).buckets.vals[client],
                       Spent(cfg, s, all, client), now);
  }

  lemma LastAdmitted(cfg: Config, s: Limiter, client: string, now: real, cost: real)
    requires cfg.Valid() && s.Valid() && client in s.buckets.vals && Admitted(cfg, s, Call(client, now, cost))
    ensures var r := Step(cfg, s, Call(client, now, cost));
      client in r.buckets.vals && r.buckets.vals[client].tokens >= 0.0 && r.buckets.vals[client].lastRefill == now
  {
    AdmittedLeavesNoDebt(cfg, s, client, now, cost);
  }

  lemma BoundFromPotential(cfg: Config, b: Bucket, e: Bucket, spent: real, now: real)
    requires cfg.Valid() && b.tokens <= cfg.MaxTokens() && e.tokens >= 0.0 && e.lastRefill == now
    requires Potential(cfg, e) <= Potential(cfg, b) - spent
    ensures spent <= cfg.MaxTokens() + cfg.Accrued(now - b.lastRefill)
  {
    AccruedAdds(cfg, now, b.lastRefill);
    hide Config.Accrued, Config.MaxTokens;
  }

  lemma {:induction false} RunAppend(cfg: Config, s: Limiter, es: seq<Event>, e: Event)
    requires cfg.Valid() && s.Valid()
    ensures Run(cfg, s, es + [e]) == Step(cfg, Run(cfg, s, es), e)
    decreases |es|
  {
    if es == [] {
      assert es + [e] == [e];
      assert Run(cfg, s, [e]) == Run(cfg, Step(cfg, s, e), []);
    } else {
      assert (es + [e])[1..] == es[1..] + [e];
      RunAppend(cfg, Step(cfg, s, es[0]), es[1..], e);
    }
  }

  lemma {:induction false} TrackedPrefix(cfg: Config, s: Limiter, es: seq<Event>, e: Event, client: string)
    requires cfg.Valid() && s.Valid() && Tracked(cfg, s, es + [e], client)
    ensures client in s.buckets.vals && client in Run(cfg, s, es).buckets.vals
    decreases |es|
  {
    if es != [] {
      assert (es + [e])[1..] == es[1..] + [e];
      TrackedPrefix(cfg, Step(cfg, s, es[0]), es[1..], e, client);
    }
  }

  /** No bucket ever holds more than the capacity, while costs are not negative. */
  ghost predicate FullAtMost(cfg: Config, s: Limiter) {
    forall c :: c in s.buckets.vals ==> s.buckets.vals[c].tokens <= cfg.MaxTokens()
  }

  lemma {:induction false} BucketsNeverOverfill(cfg: Config, s: Limiter, es: seq<Event>)
    requires cfg.Valid() && s.Valid() && FullAtMost(cfg, s)
    requires forall e :: e in es && e.Call? ==> e.cost >= 0.0
    ensures FullAtMost(cfg, Run(cfg, s, es))
    decreases |es|
  {
    if es != [] {
      assert es[0] in es;
      hide Config.Accrued, Config.MaxTokens;
      BucketsNeverOverfill(cfg, Step(cfg, s, es[0]), es[1..]);
    }
  }

  // ---- Retry-After ----

  /** `int(w / r) + 1` windows' worth of requests is more than `w`. */
  lemma WholeSteps(w: int, r: int)
    requires w > 0 && r > 0
    ensures (w / r + 1) * r > w
  {
    assert w == r * (w / r) + w % r;
  }

  lemma DivideOut(p: real, w: real)
    requires w > 0.0 && p > w
    ensures p / w > 1.0
  {
  }

  lemma MoveFactor(r: real, w: real, n: real)
    requires w > 0.0
    ensures n * (r / w) == (n * r) / w
  {
  }

  lemma RatioTimes(r: real, w: real, n: real)
    requires w > 0.0 && n * r > w
    ensures Times(n, r / w) > 1.0
  {
    MoveFactor(r, w, n);
    DivideOut(n * r, w);
  }

  lemma {:induction false} MulCast(n: nat, r: int)
    ensures (n * r) as real == n as real * r as real
  {
    if n > 0 {
      MulCast(n - 1, r);
      assert n * r == (n - 1) * r + r;
      assert n as real * r as real == (n - 1) as real * r as real + r as real;
    }
  }

  lemma RetryRefillsOneToken(cfg: Config)
    requires cfg.Valid()
    ensures cfg.Accrued(cfg.RetryAfter() as real) > 1.0
  {
    var n := cfg.RetryAfter();
    EnoughSteps(cfg.requestsPerWindow, cfg.windowSeconds, n);
    AccruesMoreThanOne(cfg, n as real);
  }

  lemma AccruesMoreThanOne(cfg: Config, n: real)
    requires cfg.Valid() && n * cfg.requestsPerWindow as real > cfg.windowSeconds as real
    ensures cfg.Accrued(n) > 1.0
  {
    RatioTimes(cfg.requestsPerWindow as real, cfg.windowSeconds as real, n);
    hide Times;
  }

  lemma EnoughSteps(r: int, w: int, n: int)
    requires r > 0 && w > 0 && n == w / r + 1
    ensures n as real * r as real > w as real
  {
    WholeSteps(w, r);
    MulCast(n, r);
  }

  /** What a bucket holds at `now`, refilled at `rate` tokens a second up to `capacity`. */
  function LevelAt(b: Bucket, now: real, capacity: real, rate: real): real {
    var refilled := b.tokens + (now - b.lastRefill) * rate;
    if refilled <= capacity then refilled else capacity
  }

  /** A call in tokens and seconds: a client without a bucket is let in and starts with the capacity
      less its cost; one with a bucket is let in exactly when what it has left, refilled at the rate
      of the window up to the capacity, covers the cost.  One counter goes up. */
  lemma CallInNumbers(cfg: Config, s: Limiter, client: string, now: real, cost: real, capacity: real, rate: real)
    requires cfg.Valid() && s.Valid()
    requires capacity == cfg.requestsPerWindow as real * cfg.burst
    requires rate == cfg.requestsPerWindow as real / cfg.windowSeconds as real
    ensures var r, vals := Allow(cfg, s, client, now, cost), s.buckets.vals;
      && client in r.limiter.buckets.vals
      && (client !in vals ==> r.verdict.ok && r.limiter.buckets.vals[client] == Bucket(capacity - cost, now))
      && (client in vals ==>
            var level := LevelAt(vals[client], now, capacity, rate);
            && (r.verdict.ok <==> cost <= level)
            && r.limiter.buckets.vals[client] == Bucket(if r.verdict.ok then level - cost else level, now))
      && r.limiter.allowed == s.allowed + (if r.verdict.ok then 1 else 0)
      && r.limiter.blocked == s.blocked + (if r.verdict.ok then 0 else 1)
  {
    hide *;
    CapacityIs(cfg, capacity);
    RateIs(cfg, rate);
    CallAt(cfg, s, client, now, cost, capacity, rate);
  }

  lemma CallAt(cfg: Config, s: Limiter, client: string, now: real, cost: real, capacity: real, rate: real)
    requires cfg.Valid() && s.Valid() && capacity == cfg.MaxTokens() && rate == cfg.Rate()
    ensures var r, vals := Allow(cfg, s, client, now, cost), s.buckets.vals;
      && client in r.limiter.buckets.vals
      && (client !in vals ==> r.verdict.ok && r.limiter.buckets.vals[client] == Bucket(capacity - cost, now))
      && (client in vals ==>
            var level := LevelAt(vals[client], now, capacity, rate);
            && (r.verdict.ok <==> cost <= level)
            && r.limiter.buckets.vals[client] == Bucket(if r.verdict.ok then level - cost else level, now))
      && r.limiter.allowed == s.allowed + (if r.verdict.ok then 1 else 0)
      && r.limiter.blocked == s.blocked + (if r.verdict.ok then 0 else 1)
  {
    hide *;
    AllowCases(cfg, s, client, now, cost);
    if client in s.buckets.vals {
      RefilledIs(cfg, s.buckets.vals[client], now, capacity, rate);
    }
  }

  lemma RateIs(cfg: Config, rate: real)
    requires cfg.Valid() && rate == cfg.requestsPerWindow as real / cfg.windowSeconds as real
    ensures cfg.Rate() == rate
  {
  }

  lemma CapacityIs(cfg: Config, capacity: real)
    requires capacity == cfg.requestsPerWindow as real * cfg.burst
    ensures cfg.MaxTokens() == capacity
  {
  }

  lemma RefilledIs(cfg: Config, b: Bucket, now: real, capacity: real, rate: real)
    requires cfg.Valid() && cfg.MaxTokens() == capacity && cfg.Rate() == rate
    ensures Refilled(cfg, b, now) == LevelAt(b, now, capacity, rate)
  {
    hide Config.MaxTokens, Config.Rate;
  }

  lemma AllowCases(cfg: Config, s: Limiter, client: string, now: real, cost: real)
    requires cfg.Valid() && s.Valid()
    ensures var r, vals := Allow(cfg, s, client, now, cost), s.buckets.vals;
      var level := if client in vals then Refilled(cfg, vals[client], now) else cfg.MaxTokens();
      && (r.verdict.ok <==> client !in vals || cost <= level)
      && client in r.limiter.buckets.vals
      && r.limiter.buckets.vals[client] == Bucket(if r.verdict.ok then level - cost else level, now)
      && r.limiter.allowed == s.allowed + (if r.verdict.ok then 1 else 0)
      && r.limiter.blocked == s.blocked + (if r.verdict.ok then 0 else 1)
  {
    hide OldestKey, Config.RetryAfter, Config.MaxTokens, Refilled;
  }

  /** A refusal announces the least whole number of seconds in which more than one token accrues. */
  lemma AnnouncedIsLeast(cfg: Config, s: Limiter, client: string, now: real, cost: real, n: nat)
    requires cfg.Valid() && s.Valid()
    ensures var v := Allow(cfg, s, client, now, cost).verdict;
      && (v.ok ==> v.retryAfter == 0)
      && (!v.ok ==>
            && v.retryAfter > 0
            && (v.retryAfter - 1) * cfg.requestsPerWindow <= cfg.windowSeconds < v.retryAfter * cfg.requestsPerWindow
            && (cfg.Accrued(n as real) > 1.0 <==> v.retryAfter <= n))
  {
    var v := Allow(cfg, s, client, now, cost).verdict;
    if !v.ok {
      var r, w := cfg.requestsPerWindow, cfg.windowSeconds;
      assert v.retryAfter == w / r + 1;
      StepsOrder(r, w, n);
      AccruesIff(cfg, n);
    }
    hide Config.Accrued, Config.MaxTokens, Refilled, MakeRoom;
  }

  lemma StepsOrder(r: int, w: int, n: int)
    requires r > 0 && w > 0
    ensures w / r >= 0 && (w / r) * r <= w < (w / r + 1) * r
    ensures n * r > w <==> w / r + 1 <= n
  {
    WholeSteps(w, r);
    StepsBelow(w, r);
    StepsBetween(r, w, w / r, n);
  }

  lemma StepsBelow(w: int, r: int)
    requires w > 0 && r > 0
    ensures w / r >= 0 && (w / r) * r <= w
  {
    assert w == r * (w / r) + w % r;
  }

  lemma StepsBetween(r: int, w: int, d: int, n: int)
    requires r > 0 && d * r <= w < (d + 1) * r
    ensures n * r > w <==> d + 1 <= n
  {
    if d + 1 <= n {
      StepsGrow(r, d + 1, n);
    } else {
      StepsGrow(r, n, d);
    }
  }

  lemma StepsGrow(r: int, m: int, n: int)
    requires r > 0 && m <= n
    ensures m * r <= n * r
  {
  }

  lemma AccruesIff(cfg: Config, n: nat)
    requires cfg.Valid()
    ensures cfg.Accrued(n as real) > 1.0 <==> n * cfg.requestsPerWindow > cfg.windowSeconds
  {
    var r, w := cfg.requestsPerWindow as real, cfg.windowSeconds as real;
    MulCast(n, cfg.requestsPerWindow);
    if n * cfg.requestsPerWindow > cfg.windowSeconds {
      RatioTimes(r, w, n as real);
    } else {
      RatioAtMost(r, w, n as real);
    }
    hide Times;
  }

  lemma RatioAtMost(r: real, w: real, n: real)
    requires w > 0.0 && n * r <= w
    ensures Times(n, r / w) <= 1.0
  {
    MoveFactor(r, w, n);
    DivideAtMost(n * r, w);
  }

  lemma DivideAtMost(p: real, w: real)
    requires w > 0.0 && p <= w
    ensures p / w <= 1.0
  {
  }

  /** The events concern other clients only: their calls, evictions and sweeps. */
  predicate OthersOnly(es: seq<Event>, client: string) {
    forall e :: e in es && e.Call? ==> e.client != client
  }

  /** Other clients' events leave a bucket as it is, or remove it. */
  lemma {:induction false} OthersLeaveBucket(cfg: Config, s: Limiter, es: seq<Event>, client: string)
    requires cfg.Valid() && s.Valid() && OthersOnly(es, client)
    ensures var r := Run(cfg, s, es);
      client in r.buckets.vals ==> client in s.buckets.vals && r.buckets.vals[client] == s.buckets.vals[client]
    decreases |es|
  {
    if es != [] {
      assert es[0] in es;
      OthersLeaveBucket(cfg, Step(cfg, s, es[0]), es[1..], client);
    }
  }

  /** A client refused at `t0` that sends nothing for the announced number of seconds is
      admitted next, whatever other clients, evictions and sweeps do meanwhile. */
  lemma RetryAfterIsHonest(cfg: Config, s: Limiter, client: string, t0: real, es: seq<Event>, t1: real)
    requires cfg.Valid() && s.Valid() && cfg.MaxTokens() >= 1.0
    requires !Admitted(cfg, s, Call(client, t0, 1.0))
    requires client in s.buckets.vals ==> Refilled(cfg, s.buckets.vals[client], t0) >= 0.0
    requires OthersOnly(es, client)
    requires var v := Allow(cfg, s, client, t0, 1.0).verdict; t1 >= t0 + v.retryAfter as real
    ensures Admitted(cfg, Run(cfg, Step(cfg, s, Call(client, t0, 1.0)), es), Call(client, t1, 1.0))
  {
    var refused := Step(cfg, s, Call(client, t0, 1.0));
    var r := Run(cfg, refused, es);
    assert client in r.buckets.vals ==>
      var b := r.buckets.vals[client]; b.tokens >= 0.0 && t1 - b.lastRefill >= cfg.RetryAfter() as real by {
      OthersLeaveBucket(cfg, refused, es, client);
    }
    hide Run, Step;
    AdmittedAfterWait(cfg, r, client, t1);
  }

  lemma AdmittedAfterWait(cfg: Config, s: Limiter, client: string, now: real)
    requires cfg.Valid() && s.Valid() && cfg.MaxTokens() >= 1.0
    requires client in s.buckets.vals ==>
      var b := s.buckets.vals[client]; b.tokens >= 0.0 && now - b.lastRefill >= cfg.RetryAfter() as real
    ensures Admitted(cfg, s, Call(client, now, 1.0))
  {
    if client in s.buckets.vals {
      RefilledAfterWait(cfg, s.buckets.vals[client], now);
    }
  }

  lemma RefilledAfterWait(cfg: Config, b: Bucket, now: real)
    requires cfg.Valid() && cfg.MaxTokens() >= 1.0
    requires b.tokens >= 0.0 && now - b.lastRefill >= cfg.RetryAfter() as real
    ensures Refilled(cfg, b, now) >= 1.0
  {
    RetryRefillsOneToken(cfg);
    AccruedGrows(cfg, cfg.RetryAfter() as real, now - b.lastRefill);
    hide Config.Accrued, Config.MaxTokens, Config.RetryAfter;
  }

  /** Exactly when the announced wait suffices for a refused client whose bucket is still
      there: the capacity holds one token, and the debt is no more than the wait refills. */
  lemma RetryAfterSufficesIff(cfg: Config, s: Limiter, client: string, t0: real)
    requires cfg.Valid() && s.Valid() && client in s.buckets.vals && !Admitted(cfg, s, Call(client, t0, 1.0))
    ensures var wait := cfg.RetryAfter() as real;
      Admitted(cfg, Step(cfg, s, Call(client, t0, 1.0)), Call(client, t0 + wait, 1.0)) <==>
        cfg.MaxTokens() >= 1.0 && Refilled(cfg, s.buckets.vals[client], t0) + cfg.Accrued(wait) >= 1.0
  {
    hide Config.Accrued, Config.MaxTokens, Config.RetryAfter;
    var r := Step(cfg, s, Call(client, t0, 1.0));
    assert r.buckets.vals[client] == Bucket(Refilled(cfg, s.buckets.vals[client], t0), t0);
  }
}
