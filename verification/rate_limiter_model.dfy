/** The token-bucket limiter as a value, with exact real arithmetic: one atomic step per
    lock-held body of `RateLimiter`.  Clock readings are arguments, so calls may arrive with
    readings out of order, as the code allows. */
module RateLimiterModel {
  import opened OrderedDicts

  /** `requestsPerWindow` and `windowSeconds` are divisors in the program, hence positive. */
  datatype Config = Config(requestsPerWindow: int, windowSeconds: int, burst: real, maxEntries: int) {
    predicate Valid() {
      requestsPerWindow > 0 && windowSeconds > 0
    }

    function MaxTokens(): real {
      requestsPerWindow as real * burst
    }

    function Rate(): real
      requires Valid()
    {
      requestsPerWindow as real / windowSeconds as real
    }

    /** The tokens that accrue in `dt` seconds. */
    function Accrued(dt: real): real
      requires Valid()
    {
      Times(dt, Rate())
    }

    function RetryAfter(): int
      requires Valid()
    {
      windowSeconds / requestsPerWindow + 1
    }

    function BurstDuration(): real
      requires Valid()
    {
      assert Rate() > 0.0;
      requestsPerWindow as real * burst / Rate()
    }
  }

  /** Products go through a function, so that proofs can hide them from the solver. */
  function Times(a: real, b: real): real { a * b }

  datatype Bucket = Bucket(tokens: real, lastRefill: real)

  datatype Limiter = Limiter(buckets: OrderedDict<Bucket>, allowed: nat, blocked: nat) {
    ghost predicate Valid() {
      buckets.Valid()
    }
  }

  datatype Verdict = Verdict(ok: bool, retryAfter: int)

  datatype Outcome = Outcome(limiter: Limiter, verdict: Verdict)

  function EmptyLimiter(): (s: Limiter)
    ensures s.Valid()
  {
    Limiter(Empty(), 0, 0)
  }

  function Min(a: real, b: real): real {
    if a <= b then a else b
  }

  /** The tokens of a bucket after the refill at `now`; a reading before the last one drains. */
  function Refilled(cfg: Config, b: Bucket, now: real): real
    requires cfg.Valid()
  {
    Min(cfg.MaxTokens(), b.tokens + cfg.Accrued(now - b.lastRefill))
  }

  /** The first key, in insertion order, with the smallest refill time. */
  function OldestKey(d: OrderedDict<Bucket>): (k: string)
    requires d.Valid() && |d.keys| > 0
    ensures k in d.vals
    ensures forall x :: x in d.vals ==> d.vals[k].lastRefill <= d.vals[x].lastRefill
  {
    assert forall x :: x in d.keys ==> x in d.vals;
    OldestOf(d.vals, d.keys)
  }

  function OldestOf(vals: map<string, Bucket>, keys: seq<string>): (k: string)
    requires |keys| > 0 && forall x :: x in keys ==> x in vals
    ensures k in keys
    ensures forall x :: x in keys ==> vals[k].lastRefill <= vals[x].lastRefill
  {
    if |keys| == 1 then keys[0]
    else
      assert keys == [keys[0]] + keys[1..];
      var k := OldestOf(vals, keys[1..]);
      if vals[keys[0]].lastRefill <= vals[k].lastRefill then keys[0] else k
  }

  /** Of several keys with the smallest refill time the first in insertion order is the oldest. */
  lemma {:induction false} OldestIsFirst(vals: map<string, Bucket>, keys: seq<string>, i: nat)
    requires |keys| > 0 && forall x :: x in keys ==> x in vals
    requires i < IndexOf(keys, OldestOf(vals, keys))
    ensures i < |keys| && vals[OldestOf(vals, keys)].lastRefill < vals[keys[i]].lastRefill
  {
    if |keys| > 1 {
      assert keys == [keys[0]] + keys[1..];
      var k := OldestOf(vals, keys[1..]);
      if OldestOf(vals, keys) == k && i > 0 {
        OldestIsFirst(vals, keys[1..], i - 1);
      }
    }
  }

  function EvictOldest(d: OrderedDict<Bucket>): (r: OrderedDict<Bucket>)
    requires d.Valid()
    ensures r.Valid()
  {
    if |d.keys| == 0 then d else d.Pop(OldestKey(d))
  }

  /** The table after the entry cap was enforced for `client`. */
  function MakeRoom(cfg: Config, d: OrderedDict<Bucket>, client: string): (r: OrderedDict<Bucket>)
    requires d.Valid()
    ensures r.Valid()
  {
    if client !in d.vals && |d.keys| >= cfg.maxEntries then EvictOldest(d) else d
  }

  function Allow(cfg: Config, s: Limiter, client: string, now: real, cost: real): (r: Outcome)
    requires cfg.Valid() && s.Valid()
    ensures r.limiter.Valid()
  {
    var d := MakeRoom(cfg, s.buckets, client);
    if client !in d.vals then
      Outcome(Limiter(d.Put(client, Bucket(cfg.MaxTokens() - cost, now)), s.allowed + 1, s.blocked), Verdict(true, 0))
    else
      var tokens := Refilled(cfg, d.vals[client], now);
      if tokens >= cost then
        Outcome(Limiter(d.Put(client, Bucket(tokens - cost, now)), s.allowed + 1, s.blocked), Verdict(true, 0))
      else
        Outcome(Limiter(d.Put(client, Bucket(tokens, now)), s.allowed, s.blocked + 1), Verdict(false, cfg.RetryAfter()))
  }

  predicate Stale(cfg: Config, b: Bucket, now: real)
    requires cfg.Valid()
  {
    b.lastRefill < now - cfg.BurstDuration() * 2.0
  }

  /** The keys `_cleanup_sweep` collects, in order. */
  function StaleKeys(cfg: Config, d: OrderedDict<Bucket>, keys: seq<string>, now: real): (ks: seq<string>)
    requires cfg.Valid() && forall k :: k in keys ==> k in d.vals
    ensures forall k :: k in ks <==> k in keys && Stale(cfg, d.vals[k], now)
  {
    if keys == [] then []
    else
      assert keys == [keys[0]] + keys[1..];
      (if Stale(cfg, d.vals[keys[0]], now) then [keys[0]] else []) + StaleKeys(cfg, d, keys[1..], now)
  }

  function PopAll(d: OrderedDict<Bucket>, ks: seq<string>): (r: OrderedDict<Bucket>)
    requires d.Valid()
    ensures r.Valid()
    ensures r.vals == d.vals - (set k | k in ks)
    decreases |ks|
  {
    if ks == [] then d
    else
      assert ks == [ks[0]] + ks[1..];
      PopAll(d.Pop(ks[0]), ks[1..])
  }

  function Sweep(cfg: Config, s: Limiter, now: real): (r: Limiter)
    requires cfg.Valid() && s.Valid()
    ensures r.Valid()
  {
    s.(buckets := PopAll(s.buckets, StaleKeys(cfg, s.buckets, s.buckets.keys, now)))
  }

  // ---- runs ----

  datatype Event = Call(client: string, now: real, cost: real) | SweepAt(now: real)

  function Step(cfg: Config, s: Limiter, e: Event): (r: Limiter)
    requires cfg.Valid() && s.Valid()
    ensures r.Valid()
  {
    match e
    case Call(client, now, cost) => Allow(cfg, s, client, now, cost).limiter
    case SweepAt(now) => Sweep(cfg, s, now)
  }

  function Run(cfg: Config, s: Limiter, es: seq<Event>): (r: Limiter)
    requires cfg.Valid() && s.Valid()
    ensures r.Valid()
    decreases |es|
  {
    if es == [] then s else Run(cfg, Step(cfg, s, es[0]), es[1..])
  }

  /** The answers the calls of a run receive, in order. */
  function Verdicts(cfg: Config, s: Limiter, es: seq<Event>): seq<Verdict>
    requires cfg.Valid() && s.Valid()
    decreases |es|
  {
    if es == [] then []
    else
      (match es[0]
       case Call(client, now, cost) => [Allow(cfg, s, client, now, cost).verdict]
       case SweepAt(_) => []) + Verdicts(cfg, Step(cfg, s, es[0]), es[1..])
  }

  predicate Admitted(cfg: Config, s: Limiter, e: Event)
    requires cfg.Valid() && s.Valid() && e.Call?
  {
    Allow(cfg, s, e.client, e.now, e.cost).verdict.ok
  }
}
