/** Keyed requests against the whole history.  A request locks the store once to check for a
    conflict and once to look its key up, and the queue once to find its id and once to enqueue;
    anything may happen in between.  What it is answered is told from the finished requests. */
module IdempotencyHistory {
  import opened OrderedDicts
  import opened IdempotencyModel
  import opened IdempotentRequests

  /** A locked step on the store: the two of a request with a key, the entry a finished request
      leaves, and the cleanup.  Any number of requests may be under way. */
  datatype Event =
    | Checks(request: Request)
    | Looks(request: Request)
    | Finishes(request: Request, result: string, done: real)
    | Cleans(at: real)

  function Time(e: Event): real {
    match e
    case Checks(r) => r.checked
    case Looks(r) => r.looked
    case Finishes(_, _, done) => done
    case Cleans(at) => at
  }

  /** The clock does not go back. */
  predicate Ordered(es: seq<Event>) {
    forall i, j :: 0 <= i <= j < |es| ==> Time(es[i]) <= Time(es[j])
  }

  function After(hash: string -> string, ttl: real, s: Store, e: Event): Store {
    match e
    case Checks(r) => if r.key != "" then Pruned(s, r.key, r.checked) else s
    case Looks(r) => if r.key != "" then Pruned(s, r.key, r.looked) else s
    case Finishes(r, result, done) => Finish(hash, ttl, s, r, result, done)
    case Cleans(at) => Evicted(s, at)
  }

  function StoreAfter(hash: string -> string, ttl: real, es: seq<Event>): Store {
    if es == [] then map[] else After(hash, ttl, StoreAfter(hash, ttl, es[..|es| - 1]), es[|es| - 1])
  }

  // ---- a request, step by step ----

  /** What a request learns from its check and from its look. */
  predicate Refused(hash: string -> string, s: Store, r: Request) {
    r.key != "" && Conflict(hash, s, r.key, r.payload, r.checked).0
  }

  function Cached(s: Store, r: Request): Option<(string, string)> {
    if r.key != "" then Found(s, r.key, r.looked) else None
  }

  /** The reply, from the store at the check and at the look, and the queue when the id is looked
      for and when the task is enqueued. */
  function ReplyOf(hash: string -> string, limits: Q.Limits, atCheck: Store, atLook: Store,
                   atFind: Q.Queue, atEnqueue: Q.Queue, r: Request): Reply
  {
    if Refused(hash, atCheck, r) then KeyConflict
    else if Cached(atLook, r).Some? then Replay(Cached(atLook, r).value.1)
    else if Q.Find(atFind, r.id).Some? then IdInUse
    else if !Q.Accepts(atEnqueue, r.id, limits) then Busy
    else Started
  }

  /** Taken without interruption, the steps are the whole call. */
  lemma StepsAreTheCall(hash: string -> string, limits: Q.Limits, ttl: real, s: Store, q: Q.Queue, r: Request)
    requires q.Valid()
    ensures var s1 := After(hash, ttl, s, Checks(r));
      var o := Prepare(hash, limits, s, q, r);
      && o.reply == ReplyOf(hash, limits, s, s1, q, q, r)
      && o.store == (if o.reply == KeyConflict then s1 else After(hash, ttl, s1, Looks(r)))
  {
    hide Q.Enqueue;
  }

  // ---- the store and the history ----

  /** The last request of `key` to finish, as an entry. */
  function LastFinished(hash: string -> string, ttl: real, es: seq<Event>, key: string): Option<Entry> {
    if es == [] then None
    else
      var e := es[|es| - 1];
      if e.Finishes? && e.request.key == key then
        Some(Entry(e.request.id, hash(e.request.payload), e.result, e.done + ttl))
      else LastFinished(hash, ttl, es[..|es| - 1], key)
  }

  function Unexpired(e: Option<Entry>, now: real): Option<Entry> {
    if e.Some? && now <= e.value.expires then e else None
  }

  lemma UnexpiredLater(s: Store, key: string, e: Option<Entry>, now: real, later: real)
    requires LiveEntry(s, key, now) == Unexpired(e, now) && now <= later
    ensures LiveEntry(s, key, later) == Unexpired(e, later)
  {
  }

  lemma EventKeepsLive(hash: string -> string, ttl: real, s: Store, e: Event, key: string)
    requires !(e.Finishes? && e.request.key == key)
    ensures LiveEntry(After(hash, ttl, s, e), key, Time(e)) == LiveEntry(s, key, Time(e))
  {
  }

  /** The store holds, for every key, the last finished request that has not expired. */
  lemma {:induction false} StoreIsHistory(hash: string -> string, ttl: real, es: seq<Event>, key: string, now: real)
    requires Ordered(es) && key != "" && (es != [] ==> Time(es[|es| - 1]) <= now)
    ensures LiveEntry(StoreAfter(hash, ttl, es), key, now) == Unexpired(LastFinished(hash, ttl, es, key), now)
    decreases |es|
  {
    if es != [] {
      var before, e := es[..|es| - 1], es[|es| - 1];
      var s := StoreAfter(hash, ttl, before);
      if !(e.Finishes? && e.request.key == key) {
        assert before != [] ==> before[|before| - 1] == es[|es| - 2];
        StoreIsHistory(hash, ttl, before, key, Time(e));
        EventKeepsLive(hash, ttl, s, e, key);
        hide After, LiveEntry, Unexpired;
        UnexpiredLater(After(hash, ttl, s, e), key, LastFinished(hash, ttl, before, key), Time(e), now);
      }
    }
  }

  lemma {:induction false} LastOfBoth(hash: string -> string, ttl: real, a: seq<Event>, b: seq<Event>, key: string)
    ensures LastFinished(hash, ttl, a + b, key) ==
      if LastFinished(hash, ttl, b, key).Some? then LastFinished(hash, ttl, b, key) else LastFinished(hash, ttl, a, key)
  {
    if b == [] {
      assert a + b == a;
    } else {
      var n := |b| - 1;
      assert (a + b)[..|a + b| - 1] == a + b[..n] && (a + b)[|a + b| - 1] == b[n];
      LastOfBoth(hash, ttl, a, b[..n], key);
    }
  }

  // ---- how a request is answered ----

  /** What happened up to a request's look: `before` up to its check, `between` since. */
  function UpToLook(before: seq<Event>, r: Request, between: seq<Event>): seq<Event> {
    before + [Checks(r)] + between
  }

  lemma OrderedParts(before: seq<Event>, r: Request, between: seq<Event>)
    requires Ordered(UpToLook(before, r, between) + [Looks(r)])
    ensures Ordered(before) && (before != [] ==> Time(before[|before| - 1]) <= r.checked)
    ensures var es := UpToLook(before, r, between);
      Ordered(es) && es != [] && Time(es[|es| - 1]) <= r.looked && r.checked <= r.looked
  {
    var es := UpToLook(before, r, between);
    var all := es + [Looks(r)];
    assert forall i :: 0 <= i < |es| ==> all[i] == es[i];
    assert forall i :: 0 <= i < |before| ==> all[i] == before[i];
    assert all[|before|] == Checks(r) && all[|es|] == Looks(r);
  }

  /** After any interleaving of the steps of requests, results and cleanups, a keyed request is
      answered by finished requests of its key alone, whatever else is under way.  It conflicts
      exactly when the last one finished before its check is unexpired at the check with another
      hash; otherwise the last one finished before its look answers it if unexpired at the look,
      whatever its hash; otherwise it starts if its id is new when looked for and there is room
      when it is enqueued. */
  lemma AnsweredByHistory(hash: string -> string, limits: Q.Limits, ttl: real, before: seq<Event>, r: Request,
                          between: seq<Event>, atFind: Q.Queue, atEnqueue: Q.Queue)
    requires Ordered(UpToLook(before, r, between) + [Looks(r)]) && r.key != ""
    ensures var es := UpToLook(before, r, between);
      var reply := ReplyOf(hash, limits, StoreAfter(hash, ttl, before), StoreAfter(hash, ttl, es), atFind, atEnqueue, r);
      var checked, looked := LastFinished(hash, ttl, before, r.key), LastFinished(hash, ttl, es, r.key);
      var refused := checked.Some? && r.checked <= checked.value.expires && hash(r.payload) != checked.value.hash;
      var replayed := !refused && looked.Some? && r.looked <= looked.value.expires;
      var known := r.id in atFind.pending.vals || r.id in atFind.completed.vals;
      && (reply == KeyConflict <==> refused)
      && (reply.Replay? <==> replayed)
      && (replayed ==> reply == Replay(looked.value.result))
      && (reply == IdInUse <==> !refused && !replayed && known)
      && (reply == Started <==>
            && !refused && !replayed && !known
            && r.id !in atEnqueue.pending.vals && |atEnqueue.pending.keys| < limits.maxPending)
  {
    OrderedParts(before, r, between);
    hide Ordered, LastFinished, StoreAfter;
    StoreIsHistory(hash, ttl, before, r.key, r.checked);
    StoreIsHistory(hash, ttl, UpToLook(before, r, between), r.key, r.looked);
  }

  /** A request is answered with the result of another payload if and only if it found no conflict,
      a request of its key finished between its check and its look, and the last of those is
      unexpired at the look with another hash. */
  lemma OtherPayloadReplayedIff(hash: string -> string, limits: Q.Limits, ttl: real, before: seq<Event>, r: Request,
                                between: seq<Event>, atFind: Q.Queue, atEnqueue: Q.Queue)
    requires Ordered(UpToLook(before, r, between) + [Looks(r)]) && r.key != ""
    ensures var es := UpToLook(before, r, between);
      var reply := ReplyOf(hash, limits, StoreAfter(hash, ttl, before), StoreAfter(hash, ttl, es), atFind, atEnqueue, r);
      var checked, looked := LastFinished(hash, ttl, before, r.key), LastFinished(hash, ttl, es, r.key);
      var since := LastFinished(hash, ttl, between, r.key);
      var refused := checked.Some? && r.checked <= checked.value.expires && hash(r.payload) != checked.value.hash;
      && (reply.Replay? ==> looked.Some? && reply == Replay(looked.value.result))
      && (reply.Replay? && looked.value.hash != hash(r.payload) <==>
            !refused && since.Some? && r.looked <= since.value.expires && since.value.hash != hash(r.payload))
  {
    OrderedParts(before, r, between);
    AnsweredByHistory(hash, limits, ttl, before, r, between, atFind, atEnqueue);
    LastOfBoth(hash, ttl, before + [Checks(r)], between, r.key);
    LastOfBoth(hash, ttl, before, [Checks(r)], r.key);
    assert LastFinished(hash, ttl, [Checks(r)], r.key) == None;
    hide Ordered, LastFinished, StoreAfter, ReplyOf;
  }

  /** Such a run: while one request is under way another with its key and another payload passes
      the check; the first finishes; the second is answered with the first one's result. */
  lemma OtherPayloadReplayed(hash: string -> string, limits: Q.Limits, ttl: real, first: Request, second: Request,
                             result: string, done: real, q: Q.Queue)
    requires first.key == second.key != "" && hash(first.payload) != hash(second.payload) && ttl >= 0.0
    requires first.checked <= first.looked <= second.checked <= done <= second.looked <= done + ttl
    ensures var before, between := [Checks(first), Looks(first)], [Finishes(first, result, done)];
      && Ordered(UpToLook(before, second, between) + [Looks(second)])
      && ReplyOf(hash, limits, StoreAfter(hash, ttl, before),
                 StoreAfter(hash, ttl, UpToLook(before, second, between)), q, q, second) == Replay(result)
  {
    var before, between := [Checks(first), Looks(first)], [Finishes(first, result, done)];
    AnsweredByHistory(hash, limits, ttl, before, second, between, q, q);
    assert before[..1] == [Checks(first)] && before[..1][..0] == [];
    assert LastFinished(hash, ttl, before[..1], second.key) == None;
    assert LastFinished(hash, ttl, before, second.key) == None;
    LastOfBoth(hash, ttl, before + [Checks(second)], between, second.key);
    assert between[..0] == [];
    assert LastFinished(hash, ttl, between, second.key)
        == Some(Entry(first.id, hash(first.payload), result, done + ttl));
    hide LastFinished, StoreAfter, ReplyOf, Ordered;
  }
}
