/** The idempotency store, as a value and as an object.  The payload hash is an arbitrary
    function: nothing here needs it to be injective. */
module IdempotencyModel {
  import opened OrderedDicts

  datatype Entry = Entry(task: string, hash: string, result: string, expires: real)

  type Store = map<string, Entry>

  /** The entry of `key`, unless it has expired by `now`. */
  function LiveEntry(s: Store, key: string, now: real): Option<Entry> {
    if key in s && now <= s[key].expires then Some(s[key]) else None
  }

  /** Looking a key up deletes its entry when that has expired. */
  function Pruned(s: Store, key: string, now: real): Store {
    if key in s && now > s[key].expires then s - {key} else s
  }

  /** What `get` returns. */
  function Found(s: Store, key: string, now: real): Option<(string, string)> {
    match LiveEntry(s, key, now)
    case None => None
    case Some(e) => Some((e.task, e.result))
  }

  /** What `check_conflict` returns. */
  function Conflict(hash: string -> string, s: Store, key: string, payload: string, now: real): (bool, Option<string>) {
    match LiveEntry(s, key, now)
    case None => (false, None)
    case Some(e) => (hash(payload) != e.hash, Some(e.task))
  }

  function Recorded(hash: string -> string, ttl: real, s: Store, key: string, task: string, payload: string,
                    result: string, now: real): Store
  {
    s[key := Entry(task, hash(payload), result, now + ttl)]
  }

  function Evicted(s: Store, now: real): Store {
    map k | k in s && now <= s[k].expires :: s[k]
  }

  // ---- the object ----

  class IdempotencyStore {
    const ttl: real
    const hash: string -> string
    var store: Store

    constructor (ttl: real, hash: string -> string)
      ensures this.ttl == ttl && this.hash == hash && store == map[]
    {
      this.ttl, this.hash, store := ttl, hash, map[];
    }

    method Get(key: string, now: real) returns (found: Option<(string, string)>)
      modifies `store
      ensures found == Found(old(store), key, now) && store == Pruned(old(store), key, now)
      ensures found.Some? <==> key in old(store) && now <= old(store)[key].expires
      ensures found.Some? ==> found.value == (old(store)[key].task, old(store)[key].result) && store == old(store)
      ensures found == None ==> store == old(store) - {key}
    {
      if key !in store {
        return None;
      }
      var e := store[key];
      if now > e.expires {
        store := store - {key};
        return None;
      }
      return Some((e.task, e.result));
    }

    method CheckConflict(key: string, payload: string, now: real) returns (conflict: bool, task: Option<string>)
      modifies `store
      ensures (conflict, task) == Conflict(hash, old(store), key, payload, now) && store == Pruned(old(store), key, now)
      ensures conflict <==>
        key in old(store) && now <= old(store)[key].expires && hash(payload) != old(store)[key].hash
      ensures task == if key in old(store) && now <= old(store)[key].expires then Some(old(store)[key].task) else None
    {
      if key !in store {
        return false, None;
      }
      var e := store[key];
      if now > e.expires {
        store := store - {key};
        return false, None;
      }
      if hash(payload) != e.hash {
        return true, Some(e.task);
      }
      return false, Some(e.task);
    }

    method Set(key: string, task: string, payload: string, result: string, now: real)
      modifies `store
      ensures store == Recorded(hash, ttl, old(store), key, task, payload, result, now)
    {
      store := store[key := Entry(task, hash(payload), result, now + ttl)];
    }

    method EvictExpired(now: real) returns (count: nat)
      modifies `store
      ensures store == Evicted(old(store), now) && count == |old(store)| - |store|
      ensures forall k :: k in store <==> k in old(store) && now <= old(store)[k].expires
      ensures forall k :: k in store ==> store[k] == old(store)[k]
    {
      var expired := set k | k in store && now > store[k].expires;
      ghost var all := expired;
      count := 0;
      while expired != {}
        invariant expired <= all
        invariant Keeps(old(store), store, all - expired)
        invariant count + |store| == |old(store)|
        decreases |expired|
      {
        var k :| k in expired;
        RemovalShrinks(store, k);
        store := store - {k};
        expired := expired - {k};
        count := count + 1;
      }
      assert all - expired == all;
      KeepsTheRest(old(store), store, all, now);
    }
  }

  lemma KeepsTheRest(s: Store, t: Store, gone: set<string>, now: real)
    requires gone == (set k | k in s && now > s[k].expires) && Keeps(s, t, gone)
    ensures t == Evicted(s, now)
  {
    forall k ensures (k in t <==> k in Evicted(s, now)) && (k in t ==> t[k] == Evicted(s, now)[k]) {
      assert k in gone <==> k in s && now > s[k].expires;
    }
  }

  /** `t` is `s` without the keys in `gone`. */
  ghost predicate Keeps(s: Store, t: Store, gone: set<string>) {
    forall k :: if k in gone then k in s && k !in t else (k in t <==> k in s) && (k in s ==> t[k] == s[k])
  }

  lemma RemovalShrinks(s: Store, k: string)
    requires k in s
    ensures |s - {k}| == |s| - 1
  {
    assert (s - {k}).Keys == s.Keys - {k};
    assert |s - {k}| == |(s - {k}).Keys| && |s| == |s.Keys|;
  }

  // ---- runs of the store ----

  datatype Op =
    | Get(key: string, now: real)
    | Check(key: string, payload: string, now: real)
    | Set(key: string, task: string, payload: string, result: string, now: real)
    | Evict(now: real)

  datatype Answer = GetAnswer(found: Option<(string, string)>) | CheckAnswer(conflict: bool, task: Option<string>)

  function Step(hash: string -> string, ttl: real, s: Store, op: Op): Store {
    match op
    case Get(key, now) => Pruned(s, key, now)
    case Check(key, _, now) => Pruned(s, key, now)
    case Set(key, task, payload, result, now) => Recorded(hash, ttl, s, key, task, payload, result, now)
    case Evict(now) => Evicted(s, now)
  }

  function AnswerTo(hash: string -> string, s: Store, op: Op): seq<Answer> {
    match op
    case Get(key, now) => [GetAnswer(Found(s, key, now))]
    case Check(key, payload, now) =>
      var c := Conflict(hash, s, key, payload, now);
      [CheckAnswer(c.0, c.1)]
    case _ => []
  }

  function Answers(hash: string -> string, ttl: real, s: Store, ops: seq<Op>): seq<Answer>
    decreases |ops|
  {
    if ops == [] then [] else AnswerTo(hash, s, ops[0]) + Answers(hash, ttl, Step(hash, ttl, s, ops[0]), ops[1..])
  }

  predicate Ordered(ops: seq<Op>, from: real) {
    ops == [] || (from <= ops[0].now && Ordered(ops[1..], ops[0].now))
  }

  function WithoutEvictions(ops: seq<Op>): seq<Op> {
    if ops == [] then []
    else (if ops[0].Evict? then [] else [ops[0]]) + WithoutEvictions(ops[1..])
  }

  /** From `now` on nobody can tell the two stores apart. */
  ghost predicate SameLive(s: Store, t: Store, now: real) {
    forall k :: LiveEntry(s, k, now) == LiveEntry(t, k, now)
  }

  /** What is live after an operation. */
  lemma LiveAfter(hash: string -> string, ttl: real, s: Store, op: Op, k: string)
    ensures LiveEntry(Step(hash, ttl, s, op), k, op.now) ==
      if op.Set? && op.key == k then
        if op.now <= op.now + ttl then Some(Entry(op.task, hash(op.payload), op.result, op.now + ttl)) else None
      else LiveEntry(s, k, op.now)
  {
  }

  lemma LiveLater(s: Store, t: Store, k: string, now: real, later: real)
    requires LiveEntry(s, k, now) == LiveEntry(t, k, now) && now <= later
    ensures LiveEntry(s, k, later) == LiveEntry(t, k, later)
  {
  }

  lemma StepKeepsLive(hash: string -> string, ttl: real, s: Store, t: Store, now: real, op: Op)
    requires SameLive(s, t, now) && now <= op.now
    ensures AnswerTo(hash, s, op) == AnswerTo(hash, t, op)
    ensures SameLive(Step(hash, ttl, s, op), if op.Evict? then t else Step(hash, ttl, t, op), op.now)
  {
    hide Step, LiveEntry;
    forall k ensures LiveEntry(s, k, op.now) == LiveEntry(t, k, op.now) {
      LiveLater(s, t, k, now, op.now);
    }
    forall k ensures LiveEntry(Step(hash, ttl, s, op), k, op.now)
      == LiveEntry(if op.Evict? then t else Step(hash, ttl, t, op), k, op.now)
    {
      LiveAfter(hash, ttl, s, op, k);
      LiveAfter(hash, ttl, t, op, k);
    }
  }

  lemma {:induction false} LiveIsEnough(hash: string -> string, ttl: real, s: Store, t: Store, ops: seq<Op>, now: real)
    requires SameLive(s, t, now) && Ordered(ops, now)
    ensures Answers(hash, ttl, s, ops) == Answers(hash, ttl, t, WithoutEvictions(ops))
    decreases |ops|
  {
    if ops != [] {
      var op := ops[0];
      StepKeepsLive(hash, ttl, s, t, now, op);
      LiveIsEnough(hash, ttl, Step(hash, ttl, s, op), if op.Evict? then t else Step(hash, ttl, t, op), ops[1..], op.now);
      var rest := WithoutEvictions(ops[1..]);
      assert ([op] + rest)[1..] == rest;
      hide AnswerTo, Step, SameLive;
      if op.Evict? {
        EvictAnswersNothing(hash, s, op);
        assert [] + rest == rest && WithoutEvictions(ops) == rest;
      } else {
        assert WithoutEvictions(ops) == [op] + rest;
      }
    }
  }

  lemma EvictAnswersNothing(hash: string -> string, s: Store, op: Op)
    requires op.Evict?
    ensures AnswerTo(hash, s, op) == []
  {
  }

  /** With a nondecreasing clock, `evict_expired` anywhere in a run changes no answer. */
  lemma EvictionIsInvisible(hash: string -> string, ttl: real, s: Store, ops: seq<Op>, start: real)
    requires Ordered(ops, start)
    ensures Answers(hash, ttl, s, ops) == Answers(hash, ttl, s, WithoutEvictions(ops))
  {
    LiveIsEnough(hash, ttl, s, s, ops, start);
  }
}
