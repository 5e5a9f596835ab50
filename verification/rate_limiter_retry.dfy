/** Retry-After (section 10.2.3 of RFC 9110) over whole runs from the empty limiter. */
module RateLimiterRetry {
  import opened OrderedDicts
  import opened RateLimiterModel
  import opened RateLimiterBounds

  /** Calls of cost 1 and sweeps, with readings that do not go back. */
  predicate Steady(es: seq<Event>, from: real) {
    es == [] || (from <= es[0].now && (es[0].Call? ==> es[0].cost == 1.0) && Steady(es[1..], es[0].now))
  }

  function LastReading(es: seq<Event>, from: real): real {
    if es == [] then from else LastReading(es[1..], es[0].now)
  }

  ghost predicate NoDebt(s: Limiter, t: real) {
    forall c :: c in s.buckets.vals ==> s.buckets.vals[c].tokens >= 0.0 && s.buckets.vals[c].lastRefill <= t
  }

  /** A refusal that nothing but other clients' events follows is over after the announced wait. */
  predicate Honest(cfg: Config, es: seq<Event>, client: string, t0: real, others: seq<Event>, t1: real)
    requires cfg.Valid()
  {
    var s := Run(cfg, EmptyLimiter(), es);
    var v := Allow(cfg, s, client, t0, 1.0).verdict;
    !v.ok && t0 + v.retryAfter as real <= t1 ==>
      Admitted(cfg, Run(cfg, Step(cfg, s, Call(client, t0, 1.0)), others), Call(client, t1, 1.0))
  }

  /** ... in every run of steady calls. */
  ghost predicate HonestThroughout(cfg: Config)
    requires cfg.Valid()
  {
    forall es, from, client, t0, others, t1 ::
      Steady(es, from) && LastReading(es, from) <= t0 && OthersOnly(others, client) ==>
        Honest(cfg, es, client, t0, others, t1)
  }

  lemma AccruedFromEarlier(cfg: Config, b: Bucket, now: real)
    requires cfg.Valid() && b.tokens >= 0.0 && b.lastRefill <= now && cfg.MaxTokens() >= 0.0
    ensures Refilled(cfg, b, now) >= 0.0
  {
    AccruedGrows(cfg, 0.0, now - b.lastRefill);
    assert cfg.Accrued(0.0) == 0.0;
    hide Config.Accrued, Config.MaxTokens;
  }

  lemma StepHasNoDebt(cfg: Config, s: Limiter, e: Event, t: real)
    requires cfg.Valid() && s.Valid() && cfg.MaxTokens() >= 1.0 && NoDebt(s, t)
    requires t <= e.now && (e.Call? ==> e.cost == 1.0)
    ensures NoDebt(Step(cfg, s, e), e.now)
  {
    if e.Call? && e.client in s.buckets.vals {
      AccruedFromEarlier(cfg, s.buckets.vals[e.client], e.now);
    }
    hide Refilled, Config.MaxTokens, OldestOf, OldestKey, NoDuplicates, Without;
  }

  lemma {:induction false} RunHasNoDebt(cfg: Config, s: Limiter, es: seq<Event>, from: real)
    requires cfg.Valid() && s.Valid() && cfg.MaxTokens() >= 1.0 && NoDebt(s, from) && Steady(es, from)
    ensures NoDebt(Run(cfg, s, es), LastReading(es, from))
    decreases |es|
  {
    if es != [] {
      hide NoDebt, Step, Config.MaxTokens;
      StepHasNoDebt(cfg, s, es[0], from);
      RunHasNoDebt(cfg, Step(cfg, s, es[0]), es[1..], es[0].now);
    }
  }

  lemma HonestWithOneToken(cfg: Config, es: seq<Event>, from: real, client: string, t0: real, others: seq<Event>, t1: real)
    requires cfg.Valid() && cfg.MaxTokens() >= 1.0
    requires Steady(es, from) && LastReading(es, from) <= t0 && OthersOnly(others, client)
    ensures Honest(cfg, es, client, t0, others, t1)
  {
    RunHasNoDebt(cfg, EmptyLimiter(), es, from);
    var s := Run(cfg, EmptyLimiter(), es);
    if client in s.buckets.vals {
      AccruedFromEarlier(cfg, s.buckets.vals[client], t0);
    }
    if Honest(cfg, es, client, t0, others, t1) {
    } else {
      hide Run, Steady, LastReading, Refilled, Config.MaxTokens, Allow;
      RetryAfterIsHonest(cfg, s, client, t0, others, t1);
    }
  }

  /** A capacity below one token refuses every client it knows, at any time. */
  lemma BelowOneTokenNeverAgain(cfg: Config, s: Limiter, client: string, now: real)
    requires cfg.Valid() && s.Valid() && cfg.MaxTokens() < 1.0 && client in s.buckets.vals
    ensures Allow(cfg, s, client, now, 1.0).verdict == Verdict(false, cfg.RetryAfter())
    ensures client in Allow(cfg, s, client, now, 1.0).limiter.buckets.vals
  {
    hide Config.MaxTokens, Config.Accrued, Config.RetryAfter;
  }

  /** So its first call is admitted, and no later one ever is. */
  lemma RetryAfterNeverSuffices(cfg: Config, client: string, t: real, t0: real, t1: real)
    requires cfg.Valid() && cfg.MaxTokens() < 1.0
    ensures var s := Run(cfg, EmptyLimiter(), [Call(client, t, 1.0)]);
      && Admitted(cfg, EmptyLimiter(), Call(client, t, 1.0))
      && Allow(cfg, s, client, t0, 1.0).verdict == Verdict(false, cfg.RetryAfter())
      && !Admitted(cfg, Step(cfg, s, Call(client, t0, 1.0)), Call(client, t1, 1.0))
  {
    var e := Call(client, t, 1.0);
    assert [e][1..] == [];
    var s := Step(cfg, EmptyLimiter(), e);
    assert Run(cfg, EmptyLimiter(), [e]) == Run(cfg, s, []);
    hide Config.MaxTokens, Config.RetryAfter, Refilled;
    assert client in s.buckets.vals;
    BelowOneTokenNeverAgain(cfg, s, client, t0);
    BelowOneTokenNeverAgain(cfg, Step(cfg, s, Call(client, t0, 1.0)), client, t1);
  }

  /** The announced wait suffices in every steady run if and only if the capacity holds a token. */
  lemma RetryAfterHonestIff(cfg: Config)
    requires cfg.Valid()
    ensures HonestThroughout(cfg) <==> cfg.MaxTokens() >= 1.0
  {
    hide Config.MaxTokens, Config.RetryAfter, Honest;
    if cfg.MaxTokens() >= 1.0 {
      forall es, from, client, t0, others, t1
        | Steady(es, from) && LastReading(es, from) <= t0 && OthersOnly(others, client)
        ensures Honest(cfg, es, client, t0, others, t1)
      {
        HonestWithOneToken(cfg, es, from, client, t0, others, t1);
      }
    } else {
      DishonestBelowOneToken(cfg);
    }
  }

  lemma DishonestBelowOneToken(cfg: Config)
    requires cfg.Valid() && cfg.MaxTokens() < 1.0
    ensures !HonestThroughout(cfg)
  {
    var e := Call("client", 0.0, 1.0);
    var es, others: seq<Event>, t1 := [e], [], cfg.RetryAfter() as real;
    RetryAfterNeverSuffices(cfg, "client", 0.0, 0.0, t1);
    assert es[1..] == [];
    assert Steady(es[1..], 0.0) && LastReading(es[1..], 0.0) == 0.0;
    assert Steady(es, 0.0) && LastReading(es, 0.0) == 0.0 && OthersOnly(others, "client");
    NothingRuns(cfg, Step(cfg, Run(cfg, EmptyLimiter(), es), e));
    hide Run, Steady, LastReading, Config.MaxTokens, Config.RetryAfter, Allow, Step;
    assert !Honest(cfg, es, "client", 0.0, others, t1);
  }

  lemma NothingRuns(cfg: Config, s: Limiter)
    requires cfg.Valid() && s.Valid()
    ensures Run(cfg, s, []) == s
  {
  }

  /** A reading that goes far enough back leaves a debt the announced wait does not cover: a call
      at 100, one used late with a reading of 0, one after the wait. */
  lemma LateReadingBreaksRetryAfter(client: string)
    ensures var cfg := Config(1, 1, 1.0, 10);
      var s := Run(cfg, EmptyLimiter(), [Call(client, 100.0, 1.0)]);
      && cfg.MaxTokens() >= 1.0
      && Allow(cfg, s, client, 0.0, 1.0).verdict == Verdict(false, 2)
      && !Admitted(cfg, Step(cfg, s, Call(client, 0.0, 1.0)), Call(client, 2.0, 1.0))
  {
    var cfg := Config(1, 1, 1.0, 10);
    var e := Call(client, 100.0, 1.0);
    assert [e][1..] == [];
    var s := Step(cfg, EmptyLimiter(), e);
    assert Run(cfg, EmptyLimiter(), [e]) == Run(cfg, s, []);
    assert cfg.Rate() == 1.0 && cfg.MaxTokens() == 1.0 && cfg.RetryAfter() == 2;
    assert s.buckets.vals[client] == Bucket(0.0, 100.0);
    assert cfg.Accrued(-100.0) == -100.0 && cfg.Accrued(2.0) == 2.0;
    hide Times, Config.Rate;
    assert Step(cfg, s, Call(client, 0.0, 1.0)).buckets.vals[client] == Bucket(-100.0, 0.0);
  }

  // ---- late readings ----

  predicate UnitCosts(es: seq<Event>) {
    forall e :: e in es && e.Call? ==> e.cost == 1.0
  }

  /** No call's reading is more than `eps` before that of an earlier call. */
  ghost predicate LateAtMost(es: seq<Event>, eps: real) {
    forall i, j :: 0 <= i < j < |es| && es[i].Call? && es[j].Call? ==> es[i].now <= es[j].now + eps
  }

  /** Every refusal is honest over every run whose readings are late by at most `eps`. */
  ghost predicate HonestWhenLate(cfg: Config, eps: real)
    requires cfg.Valid()
  {
    forall es, client, t0, others, t1 ::
      UnitCosts(es) && LateAtMost(es + [Call(client, t0, 1.0)], eps) && OthersOnly(others, client) ==>
        Honest(cfg, es, client, t0, others, t1)
  }

  /** Refilled up to `m`, no bucket would be in debt. */
  ghost predicate Solvent(cfg: Config, s: Limiter, m: real)
    requires cfg.Valid()
  {
    forall c :: c in s.buckets.vals ==> s.buckets.vals[c].tokens + cfg.Accrued(m - s.buckets.vals[c].lastRefill) >= 0.0
  }

  /** What a call of cost 1 leaves in the table. */
  lemma CallTable(cfg: Config, s: Limiter, client: string, now: real)
    requires cfg.Valid() && s.Valid()
    ensures var vals, r := s.buckets.vals, Allow(cfg, s, client, now, 1.0).limiter.buckets.vals;
      var full := if client in vals then Refilled(cfg, vals[client], now) else cfg.MaxTokens();
      var paid := if client !in vals || full >= 1.0 then 1.0 else 0.0;
      && client in r && r[client] == Bucket(full - paid, now)
      && forall c :: c in r && c != client ==> c in vals && r[c] == vals[c]
  {
    hide Config.Accrued, Config.MaxTokens, Refilled, OldestOf, OldestKey, NoDuplicates, Without, Config.RetryAfter;
  }

  lemma PaidSolvent(cfg: Config, b: Bucket, now: real, m: real)
    requires cfg.Valid() && cfg.MaxTokens() >= 1.0 && now <= m
    requires b.tokens + cfg.Accrued(m - b.lastRefill) >= 0.0
    ensures var full := Refilled(cfg, b, now);
      full - (if full >= 1.0 then 1.0 else 0.0) + cfg.Accrued(m - now) >= 0.0
  {
    NoTimeAccruesNothing(cfg);
    AccruedGrows(cfg, 0.0, m - now);
    AccruedAdds(cfg, m - b.lastRefill, m - now);
    assert m - b.lastRefill - (m - now) == now - b.lastRefill;
    hide Config.Accrued, Config.MaxTokens;
  }

  lemma NoTimeAccruesNothing(cfg: Config)
    requires cfg.Valid()
    ensures cfg.Accrued(0.0) == 0.0
  {
  }

  lemma PutSolvent(cfg: Config, s: Limiter, r: Limiter, client: string, m: real)
    requires cfg.Valid() && Solvent(cfg, s, m) && client in r.buckets.vals
    requires forall c :: c in r.buckets.vals && c != client ==>
      c in s.buckets.vals && r.buckets.vals[c] == s.buckets.vals[c]
    requires r.buckets.vals[client].tokens + cfg.Accrued(m - r.buckets.vals[client].lastRefill) >= 0.0
    ensures Solvent(cfg, r, m)
  {
    hide Config.Accrued;
  }

  lemma BucketSolvent(cfg: Config, s: Limiter, client: string, m: real)
    requires cfg.Valid() && Solvent(cfg, s, m) && client in s.buckets.vals
    ensures s.buckets.vals[client].tokens + cfg.Accrued(m - s.buckets.vals[client].lastRefill) >= 0.0
  {
    hide Config.Accrued;
  }

  /** The bucket a call leaves stays solvent: it was, or it is fresh, or it paid. */
  lemma CallSolvent(cfg: Config, s: Limiter, client: string, now: real, m: real)
    requires cfg.Valid() && s.Valid() && cfg.MaxTokens() >= 1.0 && Solvent(cfg, s, m) && now <= m
    ensures Solvent(cfg, Allow(cfg, s, client, now, 1.0).limiter, m)
  {
    hide *;
    CallTable(cfg, s, client, now);
    if client in s.buckets.vals {
      BucketSolvent(cfg, s, client, m);
      PaidSolvent(cfg, s.buckets.vals[client], now, m);
    } else {
      NoTimeAccruesNothing(cfg);
      AccruedGrows(cfg, 0.0, m - now);
    }
    PutSolvent(cfg, s, Allow(cfg, s, client, now, 1.0).limiter, client, m);
  }

  lemma SweepOnlyRemoves(cfg: Config, s: Limiter, now: real)
    requires cfg.Valid() && s.Valid()
    ensures var r := Sweep(cfg, s, now);
      forall c :: c in r.buckets.vals ==> c in s.buckets.vals && r.buckets.vals[c] == s.buckets.vals[c]
  {
    hide StaleKeys, PopAll, NoDuplicates;
  }

  lemma SweepSolvent(cfg: Config, s: Limiter, now: real, m: real)
    requires cfg.Valid() && s.Valid() && Solvent(cfg, s, m)
    ensures Solvent(cfg, Sweep(cfg, s, now), m)
  {
    hide *;
    SweepOnlyRemoves(cfg, s, now);
    FewerSolvent(cfg, s, Sweep(cfg, s, now), m);
  }

  lemma FewerSolvent(cfg: Config, s: Limiter, r: Limiter, m: real)
    requires cfg.Valid() && Solvent(cfg, s, m)
    requires forall c :: c in r.buckets.vals ==> c in s.buckets.vals && r.buckets.vals[c] == s.buckets.vals[c]
    ensures Solvent(cfg, r, m)
  {
    hide Config.Accrued;
  }

  lemma {:induction false} RunSolvent(cfg: Config, s: Limiter, es: seq<Event>, m: real)
    requires cfg.Valid() && s.Valid() && cfg.MaxTokens() >= 1.0 && Solvent(cfg, s, m) && UnitCosts(es)
    requires forall e :: e in es && e.Call? ==> e.now <= m
    ensures Solvent(cfg, Run(cfg, s, es), m)
    decreases |es|
  {
    if es != [] {
      assert es[0] in es && forall e :: e in es[1..] ==> e in es;
      if es[0].Call? {
        CallSolvent(cfg, s, es[0].client, es[0].now, m);
      } else {
        SweepSolvent(cfg, s, es[0].now, m);
      }
      hide Solvent, Allow, Sweep, Config.MaxTokens;
      RunSolvent(cfg, Step(cfg, s, es[0]), es[1..], m);
    }
  }

  lemma EarlierCalls(es: seq<Event>, client: string, t0: real, eps: real)
    requires LateAtMost(es + [Call(client, t0, 1.0)], eps)
    ensures forall e :: e in es && e.Call? ==> e.now <= t0 + eps
  {
    var all := es + [Call(client, t0, 1.0)];
    forall e | e in es && e.Call? ensures e.now <= t0 + eps {
      var i :| 0 <= i < |es| && es[i] == e;
      assert all[i] == e && all[|es|] == Call(client, t0, 1.0);
    }
  }

  /** What is left after the refusal is at least the debt of the lateness. */
  lemma DebtOfLateness(cfg: Config, b: Bucket, t0: real, eps: real)
    requires cfg.Valid() && cfg.MaxTokens() >= 1.0 && eps >= 0.0
    requires b.tokens + cfg.Accrued(t0 + eps - b.lastRefill) >= 0.0
    ensures Refilled(cfg, b, t0) >= -cfg.Accrued(eps)
  {
    AccruedGrows(cfg, 0.0, eps);
    assert cfg.Accrued(0.0) == 0.0;
    AccruedAdds(cfg, t0 + eps - b.lastRefill, eps);
    assert t0 + eps - b.lastRefill - eps == t0 - b.lastRefill;
    hide Config.Accrued, Config.MaxTokens;
  }

  lemma WaitCovers(cfg: Config, b: Bucket, t1: real, eps: real)
    requires cfg.Valid() && cfg.MaxTokens() >= 1.0
    requires b.tokens >= -cfg.Accrued(eps) && b.lastRefill + cfg.RetryAfter() as real <= t1
    requires cfg.Accrued(cfg.RetryAfter() as real - eps) >= 1.0
    ensures Refilled(cfg, b, t1) >= 1.0
  {
    AccruedGrows(cfg, cfg.RetryAfter() as real, t1 - b.lastRefill);
    AccruedAdds(cfg, cfg.RetryAfter() as real, eps);
    hide Config.Accrued, Config.MaxTokens, Config.RetryAfter;
  }

  /** A refused call: the bucket is there, and keeps what it was refilled to. */
  lemma RefusalShape(cfg: Config, s: Limiter, client: string, t0: real)
    requires cfg.Valid() && s.Valid() && !Allow(cfg, s, client, t0, 1.0).verdict.ok
    ensures client in s.buckets.vals && Allow(cfg, s, client, t0, 1.0).verdict.retryAfter == cfg.RetryAfter()
    ensures var r := Step(cfg, s, Call(client, t0, 1.0));
      client in r.buckets.vals && r.buckets.vals[client] == Bucket(Refilled(cfg, s.buckets.vals[client], t0), t0)
  {
    hide Refilled, Config.MaxTokens, Config.RetryAfter;
  }

  lemma AdmittedIff(cfg: Config, s: Limiter, client: string, now: real)
    requires cfg.Valid() && s.Valid()
    ensures Admitted(cfg, s, Call(client, now, 1.0)) <==>
      client !in s.buckets.vals || Refilled(cfg, s.buckets.vals[client], now) >= 1.0
  {
    hide Refilled, Config.MaxTokens, Config.RetryAfter;
  }

  /** A refused client whose bucket is solvent but for the lateness is admitted after the wait. */
  lemma SlackAdmits(cfg: Config, eps: real, s: Limiter, client: string, t0: real, others: seq<Event>, t1: real)
    requires cfg.Valid() && s.Valid() && eps >= 0.0 && cfg.MaxTokens() >= 1.0
    requires cfg.Accrued(cfg.RetryAfter() as real - eps) >= 1.0
    requires !Allow(cfg, s, client, t0, 1.0).verdict.ok && t0 + cfg.RetryAfter() as real <= t1
    requires OthersOnly(others, client)
    requires client in s.buckets.vals ==>
      s.buckets.vals[client].tokens + cfg.Accrued(t0 + eps - s.buckets.vals[client].lastRefill) >= 0.0
    ensures Admitted(cfg, Run(cfg, Step(cfg, s, Call(client, t0, 1.0)), others), Call(client, t1, 1.0))
  {
    hide *;
    RefusalShape(cfg, s, client, t0);
    var refused := Step(cfg, s, Call(client, t0, 1.0));
    var r := Run(cfg, refused, others);
    OthersLeaveBucket(cfg, refused, others, client);
    DebtOfLateness(cfg, s.buckets.vals[client], t0, eps);
    if client in r.buckets.vals {
      WaitCovers(cfg, r.buckets.vals[client], t1, eps);
    }
    AdmittedIff(cfg, r, client, t1);
  }

  lemma HonestWithSlack(cfg: Config, eps: real, es: seq<Event>, client: string, t0: real, others: seq<Event>, t1: real)
    requires cfg.Valid() && eps >= 0.0 && cfg.MaxTokens() >= 1.0
    requires cfg.Accrued(cfg.RetryAfter() as real - eps) >= 1.0
    requires UnitCosts(es) && LateAtMost(es + [Call(client, t0, 1.0)], eps) && OthersOnly(others, client)
    ensures Honest(cfg, es, client, t0, others, t1)
  {
    EarlierCalls(es, client, t0, eps);
    RunSolvent(cfg, EmptyLimiter(), es, t0 + eps);
    var s := Run(cfg, EmptyLimiter(), es);
    hide Run, Step, Allow, Refilled, Admitted, Config.Accrued, Config.MaxTokens, Config.RetryAfter;
    hide UnitCosts, LateAtMost, OthersOnly;
    var v := Allow(cfg, s, client, t0, 1.0).verdict;
    if !v.ok && t0 + v.retryAfter as real <= t1 {
      RefusalShape(cfg, s, client, t0);
      SlackAdmits(cfg, eps, s, client, t0, others, t1);
    }
  }

  // ---- the run that breaks it ----

  /** `n` calls at one time. */
  function Burst(client: string, n: nat): (es: seq<Event>)
    ensures |es| == n && forall i :: 0 <= i < n ==> es[i] == Call(client, 0.0, 1.0)
  {
    seq(n, i => Call(client, 0.0, 1.0))
  }

  lemma BurstStep(cfg: Config, client: string, n: nat)
    requires cfg.Valid() && n >= 1
    ensures Run(cfg, EmptyLimiter(), Burst(client, n)) ==
      Allow(cfg, Run(cfg, EmptyLimiter(), Burst(client, n - 1)), client, 0.0, 1.0).limiter
    ensures Run(cfg, EmptyLimiter(), Burst(client, 0)) == EmptyLimiter()
  {
    var e := Call(client, 0.0, 1.0);
    assert Burst(client, n) == Burst(client, n - 1) + [e] && Burst(client, 0) == [];
    RunAppend(cfg, EmptyLimiter(), Burst(client, n - 1), e);
    NothingRuns(cfg, EmptyLimiter());
    hide Run, Allow, Burst;
  }

  lemma NothingRefilled(cfg: Config, b: Bucket)
    requires cfg.Valid() && b.tokens <= cfg.MaxTokens()
    ensures Refilled(cfg, b, b.lastRefill) == b.tokens
  {
    NoTimeAccruesNothing(cfg);
    assert b.lastRefill - b.lastRefill == 0.0;
    hide Config.Accrued, Config.MaxTokens;
  }

  lemma {:induction false} BurstSpends(cfg: Config, client: string, n: nat)
    requires cfg.Valid() && 1 <= n && n as real <= cfg.MaxTokens()
    ensures var s := Run(cfg, EmptyLimiter(), Burst(client, n));
      client in s.buckets.vals && s.buckets.vals[client] == Bucket(cfg.MaxTokens() - n as real, 0.0)
  {
    assert client !in EmptyLimiter().buckets.vals;
    hide *;
    BurstStep(cfg, client, n);
    var s := Run(cfg, EmptyLimiter(), Burst(client, n - 1));
    CallTable(cfg, s, client, 0.0);
    if n > 1 {
      BurstSpends(cfg, client, n - 1);
      NothingRefilled(cfg, s.buckets.vals[client]);
    }
  }

  /** One call when the bucket has refilled to one token: it is empty then. */
  lemma EmptiedAt(cfg: Config, s: Limiter, client: string, d: real)
    requires cfg.Valid() && s.Valid() && cfg.MaxTokens() >= 1.0 && client in s.buckets.vals
    requires var b := s.buckets.vals[client]; b.tokens + cfg.Accrued(d - b.lastRefill) == 1.0
    ensures var r := Step(cfg, s, Call(client, d, 1.0));
      client in r.buckets.vals && r.buckets.vals[client] == Bucket(0.0, d)
  {
    hide Config.Accrued, Config.MaxTokens;
  }

  lemma TimeFor(cfg: Config, x: real) returns (d: real)
    requires cfg.Valid() && x >= 0.0
    ensures cfg.Accrued(d) == x && d >= 0.0
  {
    assert cfg.Rate() > 0.0;
    d := x / cfg.Rate();
    assert d * cfg.Rate() == x;
  }

  /** Spend the burst, and the next token as soon as it is there: an empty bucket. */
  lemma EmptyBucketRun(cfg: Config, client: string) returns (es: seq<Event>, d: real)
    requires cfg.Valid() && cfg.MaxTokens() >= 1.0
    ensures UnitCosts(es) && LateAtMost(es, 0.0) && d >= 0.0
    ensures forall e :: e in es && e.Call? ==> e.now <= d
    ensures var s := Run(cfg, EmptyLimiter(), es);
      client in s.buckets.vals && s.buckets.vals[client] == Bucket(0.0, d)
  {
    var n: nat := cfg.MaxTokens().Floor;
    BurstSpends(cfg, client, n);
    d := TimeFor(cfg, 1.0 - (cfg.MaxTokens() - n as real));
    var e := Call(client, d, 1.0);
    es := Burst(client, n) + [e];
    RunAppend(cfg, EmptyLimiter(), Burst(client, n), e);
    hide Run, Config.Accrued, Config.MaxTokens, Step, Burst;
    assert d - 0.0 == d;
    EmptiedAt(cfg, Run(cfg, EmptyLimiter(), Burst(client, n)), client, d);
  }

  lemma LateAppend(es: seq<Event>, client: string, d: real, eps: real)
    requires LateAtMost(es, 0.0) && eps >= 0.0 && forall e :: e in es && e.Call? ==> e.now <= d
    ensures LateAtMost(es + [Call(client, d - eps, 1.0)], eps)
  {
    var all := es + [Call(client, d - eps, 1.0)];
    forall i, j | 0 <= i < j < |all| && all[i].Call? && all[j].Call? ensures all[i].now <= all[j].now + eps {
      assert all[i] == es[i] && es[i] in es;
      if j < |es| {
        assert all[j] == es[j];
      }
    }
  }

  /** A call late by `eps` on an empty bucket, and one after the wait: refused both times. */
  lemma LateOnEmpty(cfg: Config, s: Limiter, client: string, d: real, eps: real)
    requires cfg.Valid() && s.Valid() && cfg.MaxTokens() >= 1.0 && eps >= 0.0
    requires client in s.buckets.vals && s.buckets.vals[client] == Bucket(0.0, d)
    requires cfg.Accrued(cfg.RetryAfter() as real - eps) < 1.0
    ensures Allow(cfg, s, client, d - eps, 1.0).verdict == Verdict(false, cfg.RetryAfter())
    ensures !Admitted(cfg, Step(cfg, s, Call(client, d - eps, 1.0)), Call(client, d - eps + cfg.RetryAfter() as real, 1.0))
  {
    var b, t0, wait := s.buckets.vals[client], d - eps, cfg.RetryAfter() as real;
    AccruedGrows(cfg, 0.0, eps);
    assert cfg.Accrued(0.0) == 0.0;
    AccruedAdds(cfg, 0.0, eps);
    AccruedAdds(cfg, wait, eps);
    assert t0 - d == 0.0 - eps && t0 + wait - t0 == wait;
    hide Config.Accrued, Config.MaxTokens, Config.RetryAfter;
    assert Refilled(cfg, b, t0) == -cfg.Accrued(eps);
    AdmittedIff(cfg, s, client, t0);
    RefusalShape(cfg, s, client, t0);
    AdmittedIff(cfg, Step(cfg, s, Call(client, t0, 1.0)), client, t0 + wait);
    VerdictIs(cfg, s, client, t0);
  }

  lemma VerdictIs(cfg: Config, s: Limiter, client: string, t0: real)
    requires cfg.Valid() && s.Valid() && !Admitted(cfg, s, Call(client, t0, 1.0))
    ensures Allow(cfg, s, client, t0, 1.0).verdict == Verdict(false, cfg.RetryAfter())
  {
    hide Refilled, Config.MaxTokens, Config.RetryAfter;
  }

  lemma DishonestWithoutSlack(cfg: Config, eps: real)
    requires cfg.Valid() && eps >= 0.0 && cfg.MaxTokens() >= 1.0
    requires cfg.Accrued(cfg.RetryAfter() as real - eps) < 1.0
    ensures !HonestWhenLate(cfg, eps)
  {
    hide *;
    var client := "client";
    var es, d := EmptyBucketRun(cfg, client);
    LateAppend(es, client, d, eps);
    var t0, others: seq<Event> := d - eps, [];
    var s := Run(cfg, EmptyLimiter(), es);
    LateOnEmpty(cfg, s, client, d, eps);
    NothingRuns(cfg, Step(cfg, s, Call(client, t0, 1.0)));
    Dishonest(cfg, eps, es, client, t0, others, t0 + cfg.RetryAfter() as real);
  }

  lemma Dishonest(cfg: Config, eps: real, es: seq<Event>, client: string, t0: real, others: seq<Event>, t1: real)
    requires cfg.Valid() && UnitCosts(es) && LateAtMost(es + [Call(client, t0, 1.0)], eps) && others == []
    requires var s := Run(cfg, EmptyLimiter(), es);
      && Allow(cfg, s, client, t0, 1.0).verdict == Verdict(false, cfg.RetryAfter())
      && t1 == t0 + cfg.RetryAfter() as real
      && !Admitted(cfg, Run(cfg, Step(cfg, s, Call(client, t0, 1.0)), others), Call(client, t1, 1.0))
    ensures !HonestWhenLate(cfg, eps)
  {
    hide Run, Step, Allow, Admitted, Config.RetryAfter, UnitCosts, LateAtMost;
    assert OthersOnly(others, client);
    assert !Honest(cfg, es, client, t0, others, t1);
  }

  lemma DishonestSmallCapacity(cfg: Config, eps: real)
    requires cfg.Valid() && eps >= 0.0 && cfg.MaxTokens() < 1.0
    ensures !HonestWhenLate(cfg, eps)
  {
    var client := "client";
    var e := Call(client, 0.0, 1.0);
    var es, others: seq<Event>, t1 := [e], [], cfg.RetryAfter() as real;
    RetryAfterNeverSuffices(cfg, client, 0.0, 0.0, t1);
    NothingRuns(cfg, Step(cfg, Run(cfg, EmptyLimiter(), es), e));
    hide Run, Step, Allow, Admitted, Config.RetryAfter, HonestWhenLate, Config.MaxTokens;
    Dishonest(cfg, eps, es, client, 0.0, others, t1);
  }

  /** For every configuration and lateness: the announced wait suffices over every run of calls of
      cost 1 whose readings are late by at most `eps` if and only if the capacity holds a token and
      what refills in the wait, less the lateness, is one. */
  lemma RetryAfterHonestWhenLateIff(cfg: Config, eps: real)
    requires cfg.Valid() && eps >= 0.0
    ensures HonestWhenLate(cfg, eps) <==>
      cfg.MaxTokens() >= 1.0 && cfg.Accrued(cfg.RetryAfter() as real - eps) >= 1.0
  {
    hide Config.MaxTokens, Config.RetryAfter, Config.Accrued, Honest;
    if cfg.MaxTokens() < 1.0 {
      DishonestSmallCapacity(cfg, eps);
    } else if cfg.Accrued(cfg.RetryAfter() as real - eps) < 1.0 {
      DishonestWithoutSlack(cfg, eps);
    } else {
      forall es, client, t0, others, t1
        | UnitCosts(es) && LateAtMost(es + [Call(client, t0, 1.0)], eps) && OthersOnly(others, client)
        ensures Honest(cfg, es, client, t0, others, t1)
      {
        HonestWithSlack(cfg, eps, es, client, t0, others, t1);
      }
    }
  }

  /** In seconds: the lateness may take from the announced wait all but the time of one token. */
  lemma SlackInSeconds(cfg: Config, eps: real)
    requires cfg.Valid()
    ensures cfg.Accrued(cfg.RetryAfter() as real - eps) >= 1.0 <==>
      eps <= cfg.RetryAfter() as real - cfg.windowSeconds as real / cfg.requestsPerWindow as real
  {
    var r, w, x := cfg.requestsPerWindow as real, cfg.windowSeconds as real, cfg.RetryAfter() as real - eps;
    MoveFactor(r, w, x);
    hide Config.RetryAfter;
    Ratio(x, r, w);
  }

  lemma Ratio(x: real, r: real, w: real)
    requires r > 0.0 && w > 0.0
    ensures x * r / w >= 1.0 <==> x >= w / r
  {
    var y := w / r;
    assert y * r == w;
    if x >= y {
      assert (x - y) * r >= 0.0;
      assert x * r >= w;
      assert (x * r) / w >= w / w;
    } else {
      assert (y - x) * r > 0.0;
      assert x * r < w;
      assert (x * r) / w < w / w;
    }
  }
}
