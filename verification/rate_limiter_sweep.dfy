/** The background sweep cannot be observed: while the entry cap is not reached, a run with
    sweeps inserted anywhere gives the same answers as the run without them. */
module RateLimiterSweep {
  import opened OrderedDicts
  import opened RateLimiterModel
  import opened RateLimiterBounds

  /** The events of a run that clients see. */
  function Calls(es: seq<Event>): seq<Event> {
    if es == [] then [] else (if es[0].Call? then [es[0]] else []) + Calls(es[1..])
  }

  /** Readings do not go back, costs fit the capacity, clients are among `clients`. */
  predicate Orderly(cfg: Config, es: seq<Event>, t: real, clients: set<string>)
    requires cfg.Valid()
  {
    es == [] ||
    (es[0].now >= t
     && (es[0].Call? ==> 0.0 <= es[0].cost <= cfg.MaxTokens() && es[0].client in clients)
     && Orderly(cfg, es[1..], es[0].now, clients))
  }

  /** `swept` is `s` without some buckets that are stale at `t`. */
  ghost predicate SweptVersion(cfg: Config, s: Limiter, swept: Limiter, t: real)
    requires cfg.Valid()
  {
    && (forall c :: c in swept.buckets.vals ==> c in s.buckets.vals && swept.buckets.vals[c] == s.buckets.vals[c])
    && (forall c :: c in s.buckets.vals && c !in swept.buckets.vals ==> Stale(cfg, s.buckets.vals[c], t))
    && (forall c :: c in s.buckets.vals ==>
          0.0 <= s.buckets.vals[c].tokens <= cfg.MaxTokens() && s.buckets.vals[c].lastRefill <= t)
    && s.allowed == swept.allowed && s.blocked == swept.blocked
  }

  lemma {:induction false} KeyCount(keys: seq<string>)
    requires NoDuplicates(keys)
    ensures |set k | k in keys| == |keys|
  {
    if keys != [] {
      KeyCount(keys[1..]);
      assert (set k | k in keys) == (set k | k in keys[1..]) + {keys[0]};
    }
  }

  lemma SizeOf(d: OrderedDict<Bucket>)
    requires d.Valid()
    ensures |d.keys| == |d.vals.Keys|
  {
    KeyCount(d.keys);
    assert d.vals.Keys == set k | k in d.keys;
  }

  lemma Smaller(a: set<string>, b: set<string>)
    requires a <= b
    ensures |a| <= |b|
    ensures a != b ==> |a| < |b|
  {
    assert b == a + (b - a);
  }

  /** With fewer clients than entries, nothing is ever evicted for a new one. */
  lemma RoomLeft(cfg: Config, s: Limiter, clients: set<string>, client: string)
    requires s.Valid() && s.buckets.vals.Keys <= clients && client in clients && |clients| <= cfg.maxEntries
    ensures MakeRoom(cfg, s.buckets, client) == s.buckets
  {
    SizeOf(s.buckets);
    Smaller(s.buckets.vals.Keys, clients);
  }

  /** A stale bucket has refilled to the capacity. */
  lemma StaleIsFull(cfg: Config, b: Bucket, t: real, now: real)
    requires cfg.Valid() && Stale(cfg, b, t) && t <= now
    requires b.tokens >= 0.0 && cfg.MaxTokens() >= 0.0
    ensures Refilled(cfg, b, now) == cfg.MaxTokens()
  {
    BurstRefillsAll(cfg);
    AccruedGrows(cfg, cfg.BurstDuration() * 2.0, now - b.lastRefill);
    hide Config.Accrued, Config.MaxTokens, Config.BurstDuration;
  }

  lemma BurstRefillsAll(cfg: Config)
    requires cfg.Valid()
    ensures cfg.Accrued(cfg.BurstDuration() * 2.0) == 2.0 * cfg.MaxTokens()
  {
    Doubles(cfg.MaxTokens(), cfg.Rate());
  }

  lemma Doubles(max: real, rate: real)
    requires rate > 0.0
    ensures Times(max / rate * 2.0, rate) == 2.0 * max
  {
    assert max / rate * rate == max;
  }

  lemma CallKeepsVersion(cfg: Config, s: Limiter, swept: Limiter, t: real, e: Event, clients: set<string>)
    requires cfg.Valid() && s.Valid() && swept.Valid() && SweptVersion(cfg, s, swept, t)
    requires e.Call? && e.now >= t && 0.0 <= e.cost <= cfg.MaxTokens() && e.client in clients
    requires s.buckets.vals.Keys <= clients && |clients| <= cfg.maxEntries
    ensures Allow(cfg, s, e.client, e.now, e.cost).verdict == Allow(cfg, swept, e.client, e.now, e.cost).verdict
    ensures SweptVersion(cfg, Step(cfg, s, e), Step(cfg, swept, e), e.now)
    ensures Step(cfg, s, e).buckets.vals.Keys <= clients
  {
    SweptSubset(cfg, s, swept, t);
    hide *;
    RoomLeft(cfg, s, clients, e.client);
    RoomLeft(cfg, swept, clients, e.client);
    SameRefill(cfg, s, swept, t, e);
    AllowIs(cfg, s, e);
    AllowIs(cfg, swept, e);
    StepIsAllow(cfg, s, e);
    StepIsAllow(cfg, swept, e);
    PutKeepsVersion(cfg, s, swept, Step(cfg, s, e), Step(cfg, swept, e), t, e.now, e.client);
  }

  lemma SweptSubset(cfg: Config, s: Limiter, swept: Limiter, t: real)
    requires cfg.Valid() && SweptVersion(cfg, s, swept, t)
    ensures swept.buckets.vals.Keys <= s.buckets.vals.Keys
    ensures swept.allowed == s.allowed && swept.blocked == s.blocked
  {
  }

  lemma StepIsAllow(cfg: Config, s: Limiter, e: Event)
    requires cfg.Valid() && s.Valid() && e.Call?
    ensures Step(cfg, s, e) == Allow(cfg, s, e.client, e.now, e.cost).limiter
  {
  }

  /** A call finds the same tokens in both tables: a bucket that was swept had refilled. */
  lemma SameRefill(cfg: Config, s: Limiter, swept: Limiter, t: real, e: Event)
    requires cfg.Valid() && SweptVersion(cfg, s, swept, t) && e.Call? && e.now >= t && cfg.MaxTokens() >= 0.0
    ensures var full := cfg.MaxTokens();
      var mine := if e.client in s.buckets.vals then Refilled(cfg, s.buckets.vals[e.client], e.now) else full;
      && 0.0 <= mine <= full
      && mine == if e.client in swept.buckets.vals then Refilled(cfg, swept.buckets.vals[e.client], e.now) else full
  {
    if e.client in s.buckets.vals {
      if e.client !in swept.buckets.vals {
        StaleIsFull(cfg, s.buckets.vals[e.client], t, e.now);
      }
      RefillNotNegative(cfg, s.buckets.vals[e.client], e.now);
    }
    hide Config.MaxTokens, Config.Accrued, Refilled, Config.BurstDuration;
  }

  /** The answer and the bucket of a call when there is room. */
  lemma AllowIs(cfg: Config, s: Limiter, e: Event)
    requires cfg.Valid() && s.Valid() && e.Call? && MakeRoom(cfg, s.buckets, e.client) == s.buckets
    ensures var full := if e.client in s.buckets.vals then Refilled(cfg, s.buckets.vals[e.client], e.now)
                  else cfg.MaxTokens();
      var ok := e.client !in s.buckets.vals || full >= e.cost;
      Allow(cfg, s, e.client, e.now, e.cost) == Outcome(
        Limiter(s.buckets.Put(e.client, Bucket(if ok then full - e.cost else full, e.now)),
                if ok then s.allowed + 1 else s.allowed, if ok then s.blocked else s.blocked + 1),
        Verdict(ok, if ok then 0 else cfg.RetryAfter()))
  {
    hide MakeRoom, Refilled, Config.MaxTokens, Config.RetryAfter, NoDuplicates;
  }

  lemma PutKeepsVersion(cfg: Config, s: Limiter, swept: Limiter, s': Limiter, swept': Limiter, t: real, now: real, c: string)
    requires cfg.Valid() && s.Valid() && swept.Valid() && SweptVersion(cfg, s, swept, t) && t <= now
    requires c in s'.buckets.vals && s'.buckets.vals == s.buckets.vals[c := s'.buckets.vals[c]]
    requires swept'.buckets.vals == swept.buckets.vals[c := s'.buckets.vals[c]]
    requires 0.0 <= s'.buckets.vals[c].tokens <= cfg.MaxTokens() && s'.buckets.vals[c].lastRefill == now
    requires s'.allowed == swept'.allowed && s'.blocked == swept'.blocked
    ensures SweptVersion(cfg, s', swept', now)
  {
  }

  lemma RefillNotNegative(cfg: Config, b: Bucket, now: real)
    requires cfg.Valid() && b.tokens >= 0.0 && b.lastRefill <= now && cfg.MaxTokens() >= 0.0
    ensures 0.0 <= Refilled(cfg, b, now) <= cfg.MaxTokens()
  {
    AccruedGrows(cfg, 0.0, now - b.lastRefill);
    assert cfg.Accrued(0.0) == 0.0;
    hide Config.Accrued, Config.MaxTokens;
  }

  lemma SweepKeepsVersion(cfg: Config, s: Limiter, swept: Limiter, t: real, now: real)
    requires cfg.Valid() && s.Valid() && swept.Valid() && SweptVersion(cfg, s, swept, t) && t <= now
    ensures SweptVersion(cfg, s, Sweep(cfg, swept, now), now)
  {
    hide Config.MaxTokens, Config.BurstDuration;
  }

  lemma {:induction false} SweepsChangeNoAnswer(cfg: Config, s: Limiter, swept: Limiter, es: seq<Event>,
                                                t: real, clients: set<string>)
    requires cfg.Valid() && s.Valid() && swept.Valid() && SweptVersion(cfg, s, swept, t)
    requires Orderly(cfg, es, t, clients)
    requires s.buckets.vals.Keys <= clients && |clients| <= cfg.maxEntries
    ensures Verdicts(cfg, swept, es) == Verdicts(cfg, s, Calls(es))
    decreases |es|
  {
    if es != [] {
      var e := es[0];
      match e
      case Call(client, now, cost) =>
        CallKeepsVersion(cfg, s, swept, t, e, clients);
        assert Calls(es) == [e] + Calls(es[1..]);
        assert Calls(es)[1..] == Calls(es[1..]);
        hide SweptVersion, Step, Allow;
        SweepsChangeNoAnswer(cfg, Step(cfg, s, e), Step(cfg, swept, e), es[1..], now, clients);
      case SweepAt(now) =>
        SweepKeepsVersion(cfg, s, swept, t, now);
        assert Calls(es) == Calls(es[1..]);
        SweepsChangeNoAnswer(cfg, s, Sweep(cfg, swept, now), es[1..], now, clients);
        assert Verdicts(cfg, swept, es) == Verdicts(cfg, Sweep(cfg, swept, now), es[1..]);
    }
  }

  /** From the empty limiter, with a clock that does not go back, costs within the capacity and
      no more clients than entries: inserted sweeps change no answer. */
  lemma SweepIsInvisible(cfg: Config, es: seq<Event>, start: real, clients: set<string>)
    requires cfg.Valid() && Orderly(cfg, es, start, clients) && |clients| <= cfg.maxEntries
    ensures Verdicts(cfg, EmptyLimiter(), es) == Verdicts(cfg, EmptyLimiter(), Calls(es))
  {
    SweepsChangeNoAnswer(cfg, EmptyLimiter(), EmptyLimiter(), es, start, clients);
  }

  /** The sweep in seconds: a client leaves exactly when it has made no call for more than twice the
      burst factor times the window; the other buckets stay as they are. */
  lemma SweepInSeconds(cfg: Config, s: Limiter, now: real, client: string)
    requires cfg.Valid() && s.Valid()
    ensures var r := Sweep(cfg, s, now).buckets.vals;
      && (client in r <==>
            client in s.buckets.vals
            && now - s.buckets.vals[client].lastRefill <= 2.0 * cfg.burst * cfg.windowSeconds as real)
      && (client in r ==> r[client] == s.buckets.vals[client])
  {
    BurstInSeconds(cfg);
    if client in s.buckets.vals {
      StaleIs(cfg, s.buckets.vals[client], now);
    }
    assert client in s.buckets.keys <==> client in s.buckets.vals;
    hide Config.BurstDuration, Stale, PopAll, StaleKeys, NoDuplicates;
  }

  lemma StaleIs(cfg: Config, b: Bucket, now: real)
    requires cfg.Valid()
    ensures Stale(cfg, b, now) <==> now - b.lastRefill > cfg.BurstDuration() * 2.0
  {
    hide Config.BurstDuration;
  }

  lemma BurstInSeconds(cfg: Config)
    requires cfg.Valid()
    ensures cfg.BurstDuration() * 2.0 == 2.0 * cfg.burst * cfg.windowSeconds as real
  {
    QuotientCancels(cfg.requestsPerWindow as real, cfg.windowSeconds as real, cfg.burst);
  }

  lemma QuotientCancels(r: real, w: real, b: real)
    requires r > 0.0 && w > 0.0
    ensures r / w > 0.0 && r * b / (r / w) == b * w
  {
    assert (b * w) * (r / w) == b * (w * (r / w)) && w * (r / w) == r;
  }
}
