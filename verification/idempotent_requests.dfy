/** Requests that carry an idempotency key, from the check of the store to the entry the
    finished request leaves in it.  An empty key is no key. */
module IdempotentRequests {
  import opened OrderedDicts
  import opened IdempotencyModel
  import Q = QueueModel

  /** `checked` and `looked` are the clock readings of `check_conflict` and `get`. */
  datatype Request = Request(id: string, key: string, payload: string, checked: real, looked: real, created: real)

  datatype Reply = KeyConflict | Replay(result: string) | IdInUse | Busy | Started

  datatype Outcome = Outcome(reply: Reply, store: Store, queue: Q.Locked)

  /** `_prepare_and_enqueue`. */
  function Prepare(hash: string -> string, limits: Q.Limits, s: Store, q: Q.Queue, r: Request): (o: Outcome)
    requires q.Valid()
    ensures o.queue.q.Valid()
  {
    var same := Q.Locked(q, []);
    if r.key != "" && Conflict(hash, s, r.key, r.payload, r.checked).0 then
      Outcome(KeyConflict, Pruned(s, r.key, r.checked), same)
    else
      var s1 := if r.key != "" then Pruned(s, r.key, r.checked) else s;
      var found := if r.key != "" then Found(s1, r.key, r.looked) else None;
      var s2 := if r.key != "" then Pruned(s1, r.key, r.looked) else s;
      if found.Some? then Outcome(Replay(found.value.1), s2, same)
      else if Q.Find(q, r.id).Some? then Outcome(IdInUse, s2, same)
      else if !Q.Accepts(q, r.id, limits) then Outcome(Busy, s2, same)
      else Outcome(Started, s2, Q.Enqueue(q, r.id, r.created, limits))
  }

  /** What a started request that got its response leaves in the store. */
  function Finish(hash: string -> string, ttl: real, s: Store, r: Request, result: string, now: real): Store {
    if r.key != "" then Recorded(hash, ttl, s, r.key, r.id, r.payload, result, now) else s
  }

  /** A request reaches the queue exactly when its key, if it has one, names no live entry that
      it conflicts with when checked or that answers it when looked up, its id is new, and the
      queue has room.  Otherwise the queue is left alone. */
  lemma StartsIff(hash: string -> string, limits: Q.Limits, s: Store, q: Q.Queue, r: Request)
    requires q.Valid() && r.checked <= r.looked
    ensures var o := Prepare(hash, limits, s, q, r);
      && (o.reply == Started <==>
            && (r.key == "" || r.key !in s || s[r.key].expires < r.checked
                || (s[r.key].expires < r.looked && s[r.key].hash == hash(r.payload)))
            && r.id !in q.pending.vals && r.id !in q.completed.vals && |q.pending.keys| < limits.maxPending)
      && (o.reply != Started ==> o.queue == Q.Locked(q, []))
  {
    hide Q.Enqueue;
  }

  // ---- one request at a time ----

  /** Something that happens to the store between requests of interest: the cleanup, or a whole
      request, on whatever queue it meets; `result` is None when it timed out. */
  datatype Event =
    | Cleanup(now: real)
    | Serve(request: Request, queue: Q.Queue, result: Option<string>, done: real)

  ghost predicate WellTimed(e: Event, from: real, to: real) {
    match e
    case Cleanup(now) => from <= now <= to
    case Serve(r, q, _, done) => q.Valid() && from <= r.checked <= r.looked <= done <= to
  }

  function After(hash: string -> string, limits: Q.Limits, ttl: real, s: Store, e: Event): Store
    requires e.Serve? ==> e.queue.Valid()
  {
    match e
    case Cleanup(now) => Evicted(s, now)
    case Serve(r, q, result, done) =>
      var o := Prepare(hash, limits, s, q, r);
      if o.reply == Started && result.Some? then Finish(hash, ttl, o.store, r, result.value, done) else o.store
  }

  function Ends(e: Event): real {
    if e.Cleanup? then e.now else e.done
  }

  ghost predicate Sequential(es: seq<Event>, from: real, to: real) {
    es == [] || (WellTimed(es[0], from, to) && Sequential(es[1..], Ends(es[0]), to))
  }

  ghost function AfterAll(hash: string -> string, limits: Q.Limits, ttl: real, s: Store, es: seq<Event>,
                          from: real, to: real): Store
    requires Sequential(es, from, to)
    decreases |es|
  {
    if es == [] then s
    else AfterAll(hash, limits, ttl, After(hash, limits, ttl, s, es[0]), es[1..], Ends(es[0]), to)
  }

  ghost function LastEnd(es: seq<Event>, from: real): real {
    if es == [] then from else Ends(es[|es| - 1])
  }

  lemma AnsweredByEntry(hash: string -> string, limits: Q.Limits, s: Store, q: Q.Queue, r: Request)
    requires q.Valid() && r.key != "" && r.key in s && r.checked <= r.looked <= s[r.key].expires
    ensures Prepare(hash, limits, s, q, r) ==
      Outcome(if hash(r.payload) == s[r.key].hash then Replay(s[r.key].result) else KeyConflict, s, Q.Locked(q, []))
  {
    hide Q.Enqueue, Q.Accepts;
  }

  lemma OtherKeysKept(hash: string -> string, limits: Q.Limits, s: Store, q: Q.Queue, r: Request, key: string)
    requires q.Valid() && r.key != key && key in s
    ensures var t := Prepare(hash, limits, s, q, r).store; key in t && t[key] == s[key]
  {
    hide Q.Enqueue, Q.Accepts, Q.Find, Conflict, Found, LiveEntry, Q.Queue.Valid;
  }

  lemma EntryStays(hash: string -> string, limits: Q.Limits, ttl: real, s: Store, e: Event, key: string,
                   from: real, to: real)
    requires key != "" && key in s && WellTimed(e, from, to) && to <= s[key].expires
    ensures var t := After(hash, limits, ttl, s, e); key in t && t[key] == s[key]
  {
    hide Prepare;
    if e.Serve? {
      if e.request.key == key {
        AnsweredByEntry(hash, limits, s, e.queue, e.request);
      } else {
        OtherKeysKept(hash, limits, s, e.queue, e.request, key);
      }
    }
  }

  lemma {:induction false} EntryOutlivesRun(hash: string -> string, limits: Q.Limits, ttl: real, s: Store, es: seq<Event>,
                                            key: string, from: real, to: real)
    requires key != "" && key in s && Sequential(es, from, to) && to <= s[key].expires
    ensures var t := AfterAll(hash, limits, ttl, s, es, from, to); key in t && t[key] == s[key]
    decreases |es|
  {
    if es != [] {
      hide After, WellTimed;
      EntryStays(hash, limits, ttl, s, es[0], key, from, to);
      EntryOutlivesRun(hash, limits, ttl, After(hash, limits, ttl, s, es[0]), es[1..], key, Ends(es[0]), to);
    }
  }

  /** Once a keyed request finished at `t`, and whatever whole requests and cleanups follow, any
      request with its key until `t + ttl` is answered from the store: the stored result for an
      equal payload hash, a conflict otherwise, with store and queue unchanged. */
  lemma ReplaysUntilExpiry(hash: string -> string, limits: Q.Limits, ttl: real, s: Store, first: Request,
                           result: string, t: real, es: seq<Event>, q: Q.Queue, r: Request)
    requires first.key != "" && r.key == first.key && q.Valid()
    requires Sequential(es, t, t + ttl) && LastEnd(es, t) <= r.checked <= r.looked <= t + ttl
    ensures var s1 := Finish(hash, ttl, s, first, result, t);
      var s2 := AfterAll(hash, limits, ttl, s1, es, t, t + ttl);
      Prepare(hash, limits, s2, q, r) ==
        Outcome(if hash(r.payload) == hash(first.payload) then Replay(result) else KeyConflict, s2, Q.Locked(q, []))
  {
    hide Prepare, AfterAll, Sequential;
    var s1 := Finish(hash, ttl, s, first, result, t);
    EntryOutlivesRun(hash, limits, ttl, s1, es, first.key, t, t + ttl);
    AnsweredByEntry(hash, limits, AfterAll(hash, limits, ttl, s1, es, t, t + ttl), q, r);
  }

  /** The store protects only finished requests: of two requests with one free key that both
      arrive before either finished, both are enqueued. */
  lemma OverlappingRequestsBothStart(hash: string -> string, limits: Q.Limits, s: Store, q: Q.Queue,
                                     r1: Request, r2: Request)
    requires q.Valid() && r1.key == r2.key && r1.key !in s && r1.id != r2.id
    requires Q.Find(q, r1.id) == Q.Find(q, r2.id) == None
    requires |q.pending.keys| + 1 < limits.maxPending <= limits.cacheMax
    ensures var o1 := Prepare(hash, limits, s, q, r1);
      o1.reply == Started && Prepare(hash, limits, o1.store, o1.queue.q, r2).reply == Started
  {
    StartsWithRoom(q, r1, limits);
  }

  lemma StartsWithRoom(q: Q.Queue, r: Request, limits: Q.Limits)
    requires q.Valid() && Q.Accepts(q, r.id, limits) && |q.pending.keys| < limits.cacheMax
    ensures var p := Q.Enqueue(q, r.id, r.created, limits).q;
      && |p.pending.keys| == |q.pending.keys| + 1 && p.pending.vals.Keys == q.pending.vals.Keys + {r.id}
      && p.completed == q.completed
  {
  }
}
