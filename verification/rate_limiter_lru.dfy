/** The entry cap evicts the least recently used client: with a strictly increasing clock the
    tracked clients are exactly the last `maxEntries` distinct ones. */
module RateLimiterLru {
  import opened OrderedDicts
  import opened RateLimiterModel
  import opened RateLimiterSweep

  function Clients(es: seq<Event>): seq<string>
    requires forall e :: e in es ==> e.Call?
  {
    seq(|es|, i requires 0 <= i < |es| => assert es[i] in es; es[i].client)
  }

  function Distinct(hist: seq<string>): set<string> {
    set c | c in hist
  }

  /** `c` is among the last `n` distinct clients: since some call of `c`, that call included,
      at most `n` distinct clients called. */
  ghost predicate AmongLast(hist: seq<string>, n: int, c: string) {
    exists i :: 0 <= i < |hist| && hist[i] == c && |Distinct(hist[i..])| <= n
  }

  // ---- the history as a move-to-front list ----

  /** The distinct clients of a history, the most recent first. */
  function Recents(hist: seq<string>): (r: seq<string>)
    ensures NoDuplicates(r)
    ensures forall c :: c in r <==> c in hist
  {
    if hist == [] then []
    else
      var before := Recents(hist[..|hist| - 1]);
      var c := hist[|hist| - 1];
      FrontedMembers(before, c);
      LastInHistory(hist);
      hide NoDuplicates, Without;
      [c] + Without(before, c)
  }

  lemma LastInHistory(hist: seq<string>)
    requires hist != []
    ensures forall x :: x in hist <==> x == hist[|hist| - 1] || x in hist[..|hist| - 1]
  {
    assert hist == hist[..|hist| - 1] + [hist[|hist| - 1]];
  }

  lemma FrontedMembers(before: seq<string>, c: string)
    requires NoDuplicates(before)
    ensures NoDuplicates([c] + Without(before, c))
    ensures forall x :: x in [c] + Without(before, c) <==> x == c || x in before
    ensures |[c] + Without(before, c)| == if c in before then |before| else |before| + 1
  {
    WithoutMembers(before, c);
    hide Without, IndexOf;
  }

  /** The last call of `c`. */
  function LastUse(hist: seq<string>, c: string): (i: nat)
    requires c in hist
    ensures i < |hist| && hist[i] == c && c !in hist[i + 1..]
  {
    var n := |hist| - 1;
    if hist[n] == c then n
    else
      assert hist == hist[..n] + [hist[n]];
      var i := LastUse(hist[..n], c);
      assert hist[i + 1..] == hist[..n][i + 1..] + [hist[n]];
      i
  }

  /** The distinct clients since the last call of `c`, that call included. */
  ghost function Since(hist: seq<string>, c: string): set<string>
    requires c in hist
  {
    Distinct(hist[LastUse(hist, c)..])
  }

  lemma SinceOther(h: seq<string>, e: string, c: string)
    requires c in h && c != e
    ensures c in h + [e] && Since(h + [e], c) == Since(h, c) + {e}
  {
    var hist := h + [e];
    assert hist[..|hist| - 1] == h;
    var i := LastUse(h, c);
    assert hist[i..] == h[i..] + [e];
  }

  lemma SinceSelf(h: seq<string>, e: string)
    ensures e in h + [e] && Since(h + [e], e) == {e}
  {
    var hist := h + [e];
    assert hist[|h|] == e;
    assert hist[|h|..] == [e];
  }

  /** The first `n` clients of a list, as a set. */
  ghost function Front(r: seq<string>, n: nat): set<string>
    requires n <= |r|
  {
    if n == 0 then {} else Front(r, n - 1) + {r[n - 1]}
  }

  /** `r` is `before` with the client at `p`, or a new client, moved to the front. */
  ghost predicate Moved(before: seq<string>, r: seq<string>, p: nat) {
    && |r| > 0
    && (p < |before| ==> before[p] == r[0])
    && forall k :: 0 < k < |r| ==> Source(p, k) < |before| && r[k] == before[Source(p, k)]
  }

  function Source(p: nat, k: nat): nat
    requires k > 0
  {
    if k <= p then k - 1 else k
  }

  lemma ToFrontMoves(before: seq<string>, e: string)
    requires NoDuplicates(before)
    ensures Moved(before, [e] + Without(before, e), IndexOf(before, e))
  {
    hide NoDuplicates;
    var p, rest := IndexOf(before, e), Without(before, e);
    assert p < |before| ==> rest == before[..p] + before[p + 1..];
    assert p == |before| ==> rest == before;
    hide IndexOf, Without;
    forall k | 0 < k < |[e] + rest|
      ensures Source(p, k) < |before| && ([e] + rest)[k] == before[Source(p, k)]
    {
      assert ([e] + rest)[k] == rest[k - 1];
    }
  }

  lemma RestDiffers(before: seq<string>, e: string, k: nat)
    requires NoDuplicates(before) && 0 < k < |[e] + Without(before, e)|
    ensures ([e] + Without(before, e))[k] != e
  {
    WithoutMembers(before, e);
    assert Without(before, e)[k - 1] in Without(before, e);
  }

  lemma FrontUnfolds(r: seq<string>, n: nat)
    requires n < |r|
    ensures Front(r, n + 1) == Front(r, n) + {r[n]} && Front(r, 0) == {}
  {
  }

  lemma MovedAt(before: seq<string>, r: seq<string>, p: nat, k: nat)
    requires Moved(before, r, p) && 0 < k < |r|
    ensures Source(p, k) == (if k <= p then k - 1 else k)
    ensures Source(p, k) < |before| && r[k] == before[Source(p, k)] && (p < |before| ==> before[p] == r[0])
  {
  }

  lemma {:induction false} FrontMoves(before: seq<string>, r: seq<string>, p: nat, k: nat)
    requires Moved(before, r, p) && 0 < k < |r|
    ensures Source(p, k) < |before| && Front(r, k + 1) == Front(before, Source(p, k) + 1) + {r[0]}
  {
    hide *;
    MovedAt(before, r, p, k);
    var j := Source(p, k);
    FrontUnfolds(r, k);
    FrontUnfolds(before, j);
    if k > 1 {
      MovedAt(before, r, p, k - 1);
      FrontMoves(before, r, p, k - 1);
      FrontUnfolds(before, Source(p, k - 1));
    } else {
      FrontUnfolds(r, 0);
    }
    if j > 0 {
      FrontUnfolds(before, j - 1);
    }
  }

  /** The front of the list, up to a client, is whoever called since that client did. */
  lemma {:induction false} FrontIsSince(hist: seq<string>, k: nat)
    requires k < |Recents(hist)|
    ensures Recents(hist)[k] in hist && Since(hist, Recents(hist)[k]) == Front(Recents(hist), k + 1)
    decreases |hist|
  {
    hide *;
    var r := Recents(hist);
    assert r[k] in r;
    var h, e := hist[..|hist| - 1], hist[|hist| - 1];
    assert hist == h + [e];
    RecentsAppend(h, e);
    var before := Recents(h);
    if k == 0 {
      SinceSelf(h, e);
      FrontOfOne(r);
    } else {
      ToFrontMoves(before, e);
      FrontMoves(before, r, IndexOf(before, e), k);
      var j := Source(IndexOf(before, e), k);
      MovedAt(before, r, IndexOf(before, e), k);
      RestDiffers(before, e, k);
      FrontIsSince(h, j);
      SinceOther(h, e, before[j]);
    }
  }

  lemma RecentsAppend(hist: seq<string>, c: string)
    ensures Recents(hist + [c]) == [c] + Without(Recents(hist), c)
  {
    var h := hist + [c];
    assert h[..|h| - 1] == hist;
  }

  lemma FrontOfOne(r: seq<string>)
    requires |r| > 0
    ensures Front(r, 1) == {r[0]}
  {
  }

  lemma {:induction false} FrontSize(r: seq<string>, n: nat)
    requires NoDuplicates(r) && n <= |r|
    ensures |Front(r, n)| == n
  {
    if n > 0 {
      FrontSize(r, n - 1);
      NotInFront(r, n - 1, n - 1);
    }
  }

  lemma {:induction false} NotInFront(r: seq<string>, n: nat, k: nat)
    requires NoDuplicates(r) && n <= k < |r|
    ensures r[k] !in Front(r, n)
  {
    if n > 0 {
      NotInFront(r, n - 1, k);
    }
  }

  /** The first `n` of the list are the clients among the last `n` distinct ones. */
  lemma FrontIsAmongLast(hist: seq<string>, n: int, k: nat)
    requires k < |Recents(hist)|
    ensures k < n <==> AmongLast(hist, n, Recents(hist)[k])
  {
    var r := Recents(hist);
    FrontIsSince(hist, k);
    FrontSize(r, k + 1);
    LastUseIsBest(hist, n, r[k]);
  }

  lemma LastUseIsBest(hist: seq<string>, n: int, c: string)
    requires c in hist
    ensures AmongLast(hist, n, c) <==> |Since(hist, c)| <= n
  {
    var last := LastUse(hist, c);
    forall j | last < j < |hist| ensures hist[j] != c {
      assert hist[j] == hist[last + 1..][j - last - 1];
    }
    if AmongLast(hist, n, c) {
      var i :| 0 <= i < |hist| && hist[i] == c && |Distinct(hist[i..])| <= n;
      assert hist[i..] == hist[i..last] + hist[last..];
      Smaller(Distinct(hist[last..]), Distinct(hist[i..]));
    }
  }

  // ---- the table follows the list ----

  /** The table holds exactly the clients of `f`, later refills first, none after `t`. */
  ghost predicate Orders(vals: map<string, Bucket>, f: seq<string>, t: real) {
    && (forall k :: 0 <= k < |f| ==> f[k] in vals && vals[f[k]].lastRefill <= t)
    && (forall i, j :: 0 <= i < j < |f| ==> vals[f[j]].lastRefill < vals[f[i]].lastRefill)
    && (forall c :: c in vals ==> c in f)
  }

  lemma OrdersNoDuplicates(vals: map<string, Bucket>, f: seq<string>, t: real)
    requires Orders(vals, f, t)
    ensures NoDuplicates(f)
  {
  }

  lemma OrdersSize(d: OrderedDict<Bucket>, f: seq<string>, t: real)
    requires d.Valid() && Orders(d.vals, f, t)
    ensures |d.keys| == |f|
  {
    OrdersNoDuplicates(d.vals, f, t);
    KeyCount(f);
    SizeOf(d);
    assert d.vals.Keys == set c | c in f;
  }

  lemma EvictOrders(vals: map<string, Bucket>, f: seq<string>, t: real, k: string)
    requires Orders(vals, f, t) && |f| > 0 && k in vals
    requires forall x :: x in vals ==> vals[k].lastRefill <= vals[x].lastRefill
    ensures Orders(vals - {k}, f[..|f| - 1], t)
  {
    var n := |f| - 1;
    OldestIsLast(vals, f, t, k);
    hide Orders;
    assert f == f[..n] + [k] + [];
    assert f[..n] == f[..n] + [];
    DropOrders(vals, f[..n], k, [], t);
  }

  lemma OldestIsLast(vals: map<string, Bucket>, f: seq<string>, t: real, k: string)
    requires Orders(vals, f, t) && |f| > 0 && k in vals
    requires forall x :: x in vals ==> vals[k].lastRefill <= vals[x].lastRefill
    ensures f[|f| - 1] == k
  {
    assert vals[k].lastRefill <= vals[f[|f| - 1]].lastRefill;
  }

  lemma AddOrders(vals: map<string, Bucket>, f: seq<string>, t: real, c: string, b: Bucket)
    requires Orders(vals, f, t) && c !in vals && t < b.lastRefill
    ensures Orders(vals[c := b], [c] + f, b.lastRefill)
  {
  }

  lemma TouchOrders(vals: map<string, Bucket>, f: seq<string>, t: real, c: string, b: Bucket)
    requires Orders(vals, f, t) && c in vals && t < b.lastRefill
    ensures Orders(vals[c := b], [c] + Without(f, c), b.lastRefill)
  {
    OrdersNoDuplicates(vals, f, t);
    WithoutMembers(f, c);
    RemoveOrders(vals, f, t, c);
    AddOrders(vals - {c}, Without(f, c), t, c, b);
    assert (vals - {c})[c := b] == vals[c := b];
  }

  lemma RemoveOrders(vals: map<string, Bucket>, f: seq<string>, t: real, c: string)
    requires Orders(vals, f, t) && c in vals && NoDuplicates(f)
    ensures Orders(vals - {c}, Without(f, c), t)
  {
    var p := IndexOf(f, c);
    assert f == f[..p] + [c] + f[p + 1..];
    DropOrders(vals, f[..p], c, f[p + 1..], t);
  }

  lemma DropOrders(vals: map<string, Bucket>, a: seq<string>, c: string, b: seq<string>, t: real)
    requires Orders(vals, a + [c] + b, t)
    ensures Orders(vals - {c}, a + b, t)
  {
    var f, g := a + [c] + b, a + b;
    assert f[|a|] == c;
    assert forall k :: 0 <= k < |g| ==> g[k] == f[if k < |a| then k else k + 1];
  }

  function Cut(r: seq<string>, n: nat): seq<string> {
    if |r| <= n then r else r[..n]
  }

  /** The front after `c` moved to the head, from the front before. */
  lemma CutMoves(r: seq<string>, n: nat, c: string)
    requires NoDuplicates(r) && n >= 1
    ensures var f := Cut(r, n);
      Cut([c] + Without(r, c), n) ==
        if c in f then [c] + Without(f, c) else if |f| < n then [c] + f else [c] + f[..n - 1]
  {
    WithoutMembers(r, c);
    CutHead(Without(r, c), n, c);
    if |r| > n {
      WithoutPrefix(r, n, c);
    } else if c !in r {
      assert Without(r, c) == r;
    }
    hide Without, IndexOf, NoDuplicates;
  }

  lemma CutHead(x: seq<string>, n: nat, c: string)
    requires n >= 1
    ensures Cut([c] + x, n) == [c] + Cut(x, n - 1)
  {
  }

  lemma WithoutPrefix(r: seq<string>, n: nat, c: string)
    requires NoDuplicates(r) && 1 <= n < |r|
    ensures Cut(Without(r, c), n - 1) == if c in r[..n] then Without(r[..n], c) else r[..n][..n - 1]
  {
    IndexOfPrefix(r, n, c);
    var p := IndexOf(r, c);
    if p < |r| {
      JoinedPrefix(r, p, n);
    }
    hide IndexOf, NoDuplicates;
    if p < n {
      assert r[..n][..p] == r[..p] && r[..n][p + 1..] == r[p + 1..n];
    } else {
      assert r[..n][..n - 1] == r[..n - 1];
    }
  }

  lemma JoinedPrefix(r: seq<string>, p: nat, n: nat)
    requires p < |r| && 1 <= n < |r|
    ensures (r[..p] + r[p + 1..])[..n - 1] == if p < n then r[..p] + r[p + 1..n] else r[..n - 1]
  {
  }

  lemma {:induction false} IndexOfPrefix(r: seq<string>, n: nat, c: string)
    requires n <= |r|
    ensures IndexOf(r[..n], c) == if IndexOf(r, c) < n then IndexOf(r, c) else n
    ensures c in r[..n] <==> IndexOf(r, c) < n
  {
    if n > 0 && r[0] != c {
      IndexOfPrefix(r[1..], n - 1, c);
      assert r[..n][1..] == r[1..][..n - 1];
      assert r[..n] == [r[0]] + r[1..][..n - 1];
    }
  }

  /** Making room drops the last client of a full front, unless `c` is in it. */
  lemma RoomOrders(cfg: Config, d: OrderedDict<Bucket>, f: seq<string>, t: real, c: string)
    requires d.Valid() && Orders(d.vals, f, t) && 1 <= cfg.maxEntries && |f| <= cfg.maxEntries
    ensures var room := MakeRoom(cfg, d, c).vals;
      && (c in room <==> c in f)
      && Orders(room, Kept(f, c, cfg.maxEntries), t)
  {
    KeptIs(f, c, cfg.maxEntries);
    hide *;
    RoomIs(cfg, d, c);
    InTableIff(d.vals, f, t, c);
    OrdersSize(d, f, t);
    if c !in f && |f| == cfg.maxEntries {
      EvictIs(d);
      EvictOrders(d.vals, f, t, OldestKey(d));
    }
  }

  /** A call's entry goes to the head. */
  lemma HeadOrders(vals: map<string, Bucket>, f: seq<string>, t: real, c: string, b: Bucket)
    requires Orders(vals, f, t) && t < b.lastRefill && (c in vals <==> c in f)
    ensures Orders(vals[c := b], [c] + (if c in f then Without(f, c) else f), b.lastRefill)
  {
    if c in f {
      TouchOrders(vals, f, t, c, b);
    } else {
      AddOrders(vals, f, t, c, b);
    }
  }

  lemma CutShort(r: seq<string>, n: nat)
    ensures |Cut(r, n)| <= n
  {
  }

  lemma CallOrders(cfg: Config, s: Limiter, r: seq<string>, t: real, c: string, now: real, cost: real)
    requires cfg.Valid() && cfg.maxEntries >= 1 && s.Valid() && NoDuplicates(r) && t < now
    requires Orders(s.buckets.vals, Cut(r, cfg.maxEntries), t)
    ensures Orders(Allow(cfg, s, c, now, cost).limiter.buckets.vals, Cut([c] + Without(r, c), cfg.maxEntries), now)
  {
    assert s.buckets.Valid();
    hide *;
    var n, f := cfg.maxEntries, Cut(r, cfg.maxEntries);
    CutShort(r, n);
    RoomOrders(cfg, s.buckets, f, t, c);
    var kept := Kept(f, c, n);
    CutKept(r, n, c);
    HeadOrders(MakeRoom(cfg, s.buckets, c).vals, kept, t, c, Recorded(cfg, s, c, now, cost));
    CallTable(cfg, s, c, now, cost);
  }

  lemma KeptIs(f: seq<string>, c: string, n: nat)
    requires n >= 1
    ensures Kept(f, c, n) == if c in f || |f| < n then f else f[..n - 1]
  {
  }

  /** The front that stays when room is made for `c`. */
  ghost function Kept(f: seq<string>, c: string, n: nat): seq<string>
    requires n >= 1
  {
    if c in f || |f| < n then f else f[..n - 1]
  }

  lemma CutKept(r: seq<string>, n: nat, c: string)
    requires NoDuplicates(r) && n >= 1
    ensures var kept := Kept(Cut(r, n), c, n);
      && (c in kept <==> c in Cut(r, n))
      && Cut([c] + Without(r, c), n) == [c] + if c in kept then Without(kept, c) else kept
  {
    CutMoves(r, n, c);
    var f := Cut(r, n);
    hide NoDuplicates, Without, Cut;
    if c !in f && |f| >= n {
      NotInPrefix(f, c, n - 1);
    }
  }

  lemma CallTable(cfg: Config, s: Limiter, c: string, now: real, cost: real)
    requires cfg.Valid() && s.Valid()
    ensures Allow(cfg, s, c, now, cost).limiter.buckets.vals ==
      MakeRoom(cfg, s.buckets, c).vals[c := Recorded(cfg, s, c, now, cost)]
  {
    hide Allow, MakeRoom, Recorded;
  }

  lemma NotInPrefix(f: seq<string>, c: string, n: nat)
    requires c !in f && n <= |f|
    ensures c !in f[..n] && c !in f && f[..|f|] == f
  {
    assert forall x :: x in f[..n] ==> x in f;
  }

  lemma EvictIs(d: OrderedDict<Bucket>)
    requires d.Valid() && |d.keys| > 0
    ensures EvictOldest(d).vals == d.vals - {OldestKey(d)}
  {
  }

  /** The bucket a call leaves behind. */
  ghost function Recorded(cfg: Config, s: Limiter, c: string, now: real, cost: real): (b: Bucket)
    requires cfg.Valid() && s.Valid()
    ensures b.lastRefill == now
    ensures Allow(cfg, s, c, now, cost).limiter.buckets == MakeRoom(cfg, s.buckets, c).Put(c, b)
  {
    var d := MakeRoom(cfg, s.buckets, c);
    if c !in d.vals then Bucket(cfg.MaxTokens() - cost, now)
    else
      var tokens := Refilled(cfg, d.vals[c], now);
      Bucket(if tokens >= cost then tokens - cost else tokens, now)
  }

  lemma InTableIff(vals: map<string, Bucket>, f: seq<string>, t: real, c: string)
    requires Orders(vals, f, t)
    ensures c in vals <==> c in f
  {
  }

  lemma RoomIs(cfg: Config, d: OrderedDict<Bucket>, c: string)
    requires d.Valid()
    ensures MakeRoom(cfg, d, c) == if c !in d.vals && |d.keys| >= cfg.maxEntries then EvictOldest(d) else d
  {
  }

  // ---- whole runs ----

  /** Calls only, each at a later clock reading than the one before. */
  predicate Ticking(es: seq<Event>, t: real) {
    es == [] || (es[0].Call? && t < es[0].now && Ticking(es[1..], es[0].now))
  }

  lemma {:induction false} TickingCalls(es: seq<Event>, t: real)
    requires Ticking(es, t)
    ensures forall e :: e in es ==> e.Call?
  {
    if es != [] {
      TickingCalls(es[1..], es[0].now);
      assert es == [es[0]] + es[1..];
    }
  }

  /** The reading of the last event, `t` when there is none. */
  function LastTime(es: seq<Event>, t: real): real {
    if es == [] then t else es[|es| - 1].now
  }

  lemma RunUnfolds(cfg: Config, s: Limiter, es: seq<Event>, t: real)
    requires cfg.Valid() && s.Valid() && es != [] && Ticking(es, t)
    ensures es[0].Call? && t < es[0].now && Ticking(es[1..], es[0].now)
    ensures Run(cfg, s, es) == Run(cfg, Allow(cfg, s, es[0].client, es[0].now, es[0].cost).limiter, es[1..])
    ensures LastTime(es, t) == LastTime(es[1..], es[0].now)
  {
    hide Allow, Sweep, Config.Valid, Limiter.Valid;
  }

  lemma ClientsUnfold(es: seq<Event>)
    requires es != [] && forall e :: e in es ==> e.Call?
    ensures forall e :: e in es[1..] ==> e.Call?
    ensures es[0].Call? && Clients(es) == [es[0].client] + Clients(es[1..])
  {
    assert es == [es[0]] + es[1..];
  }

  lemma NothingFollows(cfg: Config, s: Limiter, t: real)
    requires cfg.Valid() && s.Valid()
    ensures Run(cfg, s, []) == s && Clients([]) == [] && LastTime([], t) == t
  {
  }

  lemma {:induction false} TableFollowsHistory(cfg: Config, s: Limiter, hist: seq<string>, es: seq<Event>, t: real)
    requires cfg.Valid() && cfg.maxEntries >= 1 && s.Valid() && Ticking(es, t)
    requires Orders(s.buckets.vals, Cut(Recents(hist), cfg.maxEntries), t)
    requires forall e :: e in es ==> e.Call?
    ensures Orders(Run(cfg, s, es).buckets.vals, Cut(Recents(hist + Clients(es)), cfg.maxEntries), LastTime(es, t))
    decreases |es|
  {
    hide *;
    if es == [] {
      NothingFollows(cfg, s, t);
      assert hist + [] == hist;
    } else {
      var e := es[0];
      RunUnfolds(cfg, s, es, t);
      ClientsUnfold(es);
      CallOrders(cfg, s, Recents(hist), t, e.client, e.now, e.cost);
      RecentsAppend(hist, e.client);
      var h := hist + [e.client];
      TableFollowsHistory(cfg, Allow(cfg, s, e.client, e.now, e.cost).limiter, h, es[1..], e.now);
      assert h + Clients(es[1..]) == hist + ([e.client] + Clients(es[1..]));
    }
  }

  /** With strictly increasing clock readings and no sweep, the tracked clients are exactly the
      last `maxEntries` distinct clients that called, refused calls included; so the table never
      exceeds its cap. */
  lemma TrackedAreLastDistinct(cfg: Config, es: seq<Event>, start: real, c: string)
    requires cfg.Valid() && cfg.maxEntries >= 1 && Ticking(es, start) && forall e :: e in es ==> e.Call?
    ensures var r := Run(cfg, EmptyLimiter(), es);
      && (c in r.buckets.vals <==> AmongLast(Clients(es), cfg.maxEntries, c))
      && |r.buckets.keys| <= cfg.maxEntries
  {
    assert Recents([]) == [];
    TableFollowsHistory(cfg, EmptyLimiter(), [], es, start);
    hide *;
    assert [] + Clients(es) == Clients(es);
    OrdersMeansAmongLast(Run(cfg, EmptyLimiter(), es).buckets, Clients(es), cfg.maxEntries, LastTime(es, start), c);
  }

  lemma OrdersMeansAmongLast(d: OrderedDict<Bucket>, hist: seq<string>, n: nat, t: real, c: string)
    requires d.Valid() && Orders(d.vals, Cut(Recents(hist), n), t)
    ensures c in d.vals <==> AmongLast(hist, n, c)
    ensures |d.keys| <= n
  {
    hide *;
    var r, f := Recents(hist), Cut(Recents(hist), n);
    OrdersSize(d, f, t);
    CutShort(r, n);
    InTableIff(d.vals, f, t, c);
    if c in r {
      var k :| 0 <= k < |r| && r[k] == c;
      FrontIsAmongLast(hist, n, k);
      InCutIff(r, n, k);
    } else {
      NotInCut(r, n, c);
      NeverCalled(hist, n, c);
    }
  }

  lemma InCutIff(r: seq<string>, n: nat, k: nat)
    requires NoDuplicates(r) && k < |r|
    ensures r[k] in Cut(r, n) <==> k < n
  {
    if k < n {
      assert Cut(r, n)[k] == r[k];
    }
  }

  lemma NotInCut(r: seq<string>, n: nat, c: string)
    requires c !in r
    ensures c !in Cut(r, n)
  {
    if |r| > n {
      NotInPrefix(r, c, n);
    }
  }

  lemma NeverCalled(hist: seq<string>, n: int, c: string)
    requires c !in hist
    ensures !AmongLast(hist, n, c)
  {
  }
}
