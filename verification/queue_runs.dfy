/** What every lock-held operation of the queue keeps, and safety over whole runs of them. */
module QueueRuns {
  import opened OrderedDicts
  import opened QueueModel

  datatype Op =
    | OpEnqueue(id: string, created: real)
    | OpTransition(id: string, to: TaskState)
    | OpMark(id: string)
    | OpComplete(id: string, response: string)
    | OpCancel(id: string)
    | OpRequeue(hs: seq<nat>)

  /** A caller can only requeue task objects it was given, so an unknown handle does nothing. */
  function Apply(q: Queue, op: Op, limits: Limits): (r: Locked)
    requires q.Valid()
    ensures r.q.Valid()
  {
    match op
    case OpEnqueue(id, created) => Enqueue(q, id, created, limits)
    case OpTransition(id, to) => Locked(Transition(q, id, to), [])
    case OpMark(id) => Locked(MarkProcessing(q, id), [])
    case OpComplete(id, response) => Complete(q, id, response, limits)
    case OpCancel(id) => Cancel(q, id)
    case OpRequeue(hs) => Locked(if Known(q, hs) then Requeue(q, hs) else q, [])
  }

  function Step(q: Queue, op: Op, limits: Limits): (r: Queue)
    requires q.Valid()
    ensures r.Valid()
  {
    var l := Apply(q, op, limits);
    Publish(l.q, l.events)
  }

  function Run(q: Queue, ops: seq<Op>, limits: Limits): (r: Queue)
    requires q.Valid()
    ensures r.Valid()
    decreases |ops|
  {
    if ops == [] then q else Run(Step(q, ops[0], limits), ops[1..], limits)
  }

  // ---- what eviction does ----

  /** The tasks themselves keep identity, age and delivery flags; only evicted ones gain a response. */
  ghost predicate OnlyAnswers(before: seq<Task>, after: seq<Task>, answered: seq<nat>) {
    && |before| == |after|
    && (forall h :: 0 <= h < |before| && h !in answered ==> after[h] == before[h])
    && (forall h :: 0 <= h < |before| && h in answered ==>
          after[h] == before[h].(response := after[h].response) && after[h].response.Some?)
  }

  /** Everything but the task objects, the pending tasks and the cached minimum is untouched. */
  ghost predicate SameRest(q: Queue, r: Queue) {
    && r.completed == q.completed && r.processing == q.processing && r.states == q.states
    && r.enqueueCount == q.enqueueCount && r.completeCount == q.completeCount
    && r.cancelCount == q.cancelCount
  }

  ghost predicate Shrinks(before: OrderedDict<nat>, after: OrderedDict<nat>) {
    forall id :: id in after.vals ==> id in before.vals && after.vals[id] == before.vals[id]
  }

  /** An evicted task was pending and idle, is pending no more and has its answer. */
  ghost predicate Dropped(q: Queue, r: Queue, h: nat) {
    && h < |q.tasks| == |r.tasks|
    && q.Stored(h)
    && q.tasks[h].id !in q.processing
    && q.tasks[h].id !in r.pending.vals
    && r.tasks[h].response == Some(OVERFLOW)
  }

  /** `r` is `q` after some idle tasks, `events`, were dropped. */
  ghost predicate Evicted(q: Queue, r: Queue, events: seq<nat>) {
    && SameRest(q, r)
    && OnlyAnswers(q.tasks, r.tasks, events)
    && Shrinks(q.pending, r.pending)
    && |r.pending.keys| + |events| == |q.pending.keys|
    && (forall h :: h in events ==> Dropped(q, r, h))
    && (forall id :: id in q.pending.vals && id !in r.pending.vals ==> q.pending.vals[id] in events)
  }

  lemma DropIdleEffect(q: Queue, i: nat)
    requires q.Valid() && i < |q.pending.keys| && q.pending.keys[i] !in q.processing
    ensures Evicted(q, DropIdle(q, i), [q.pending.vals[q.pending.keys[i]]])
  {
    assert q.pending.keys[i] in q.pending.keys;
  }

  lemma EvictedTwice(q: Queue, m: Queue, r: Queue, h: nat, rest: seq<nat>)
    requires q.Valid() && Evicted(q, m, [h]) && Evicted(m, r, rest)
    ensures Evicted(q, r, [h] + rest)
  {
    var events := [h] + rest;
    assert forall g :: g in events <==> g == h || g in rest;
    assert Dropped(q, m, h);
    forall g | g in events ensures Dropped(q, r, g) {
      if g in rest {
        assert Dropped(m, r, g);
      }
    }
  }

  lemma {:induction false} EvictEffect(q: Queue, cap: nat)
    requires q.Valid()
    ensures Evicted(q, Evict(q, cap).q, Evict(q, cap).events)
    decreases |q.pending.keys|
  {
    var i := FirstIdle(q.pending.keys, q.processing);
    if |q.pending.keys| > cap && i < |q.pending.keys| {
      DropIdleEffect(q, i);
      var d := DropIdle(q, i);
      EvictEffect(d, cap);
      EvictedTwice(q, d, Evict(d, cap).q, q.pending.vals[q.pending.keys[i]], Evict(d, cap).events);
    }
  }

  /** The eviction loop drops exactly the longest-queued idle tasks, as many as it takes to
      get down to the cap and no more; it stops early only when every task is being processed. */
  lemma EvictDropsOldestIdle(q: Queue, cap: nat)
    requires q.Valid()
    ensures Evict(q, cap).events == FirstFew(Drain(q, {}), |q.pending.keys| - cap)
  {
    EvictDropsFirst(q, cap, Drain(q, {}));
  }

  lemma {:induction false} EvictDropsFirst(q: Queue, cap: nat, idle: seq<nat>)
    requires q.Valid() && idle == Drain(q, {})
    ensures Evict(q, cap).events == FirstFew(idle, |q.pending.keys| - cap)
    decreases |q.pending.keys|
  {
    hide *;
    var i := FirstIdle(q.pending.keys, q.processing);
    EvictUnfolds(q, cap);
    DrainFirst(q);
    if |q.pending.keys| > cap && i < |q.pending.keys| {
      var d := DropIdle(q, i);
      EvictDropsFirst(d, cap, idle[1..]);
      FirstFewCons(idle[0], idle[1..], |d.pending.keys| - cap);
    } else {
      FirstFewNone(idle, |q.pending.keys| - cap);
    }
  }

  lemma EvictUnfolds(q: Queue, cap: nat)
    requires q.Valid()
    ensures var i := FirstIdle(q.pending.keys, q.processing);
      Evict(q, cap) ==
        if |q.pending.keys| <= cap || i == |q.pending.keys| then Locked(q, [])
        else
          var rest := Evict(DropIdle(q, i), cap);
          Locked(rest.q, [q.pending.vals[q.pending.keys[i]]] + rest.events)
  {
  }

  /** The first `n` elements, all of them when there are fewer, none when `n` is negative. */
  function FirstFew(hs: seq<nat>, n: int): seq<nat> {
    hs[..if n <= 0 then 0 else if n < |hs| then n else |hs|]
  }

  lemma FirstFewCons(h: nat, hs: seq<nat>, n: int)
    requires n >= 0
    ensures FirstFew([h] + hs, n + 1) == [h] + FirstFew(hs, n)
  {
  }

  lemma FirstFewNone(hs: seq<nat>, n: int)
    requires n <= 0 || hs == []
    ensures FirstFew(hs, n) == []
  {
  }

  /** The first drained task is the first idle one, and the rest is what remains without it. */
  lemma DrainFirst(q: Queue)
    requires q.Valid()
    ensures var keys := q.pending.keys; var i := FirstIdle(keys, q.processing);
      Drain(q, {}) ==
        if i < |keys| then [q.pending.vals[keys[i]]] + Drain(DropIdle(q, i), {}) else []
  {
    var keys := q.pending.keys;
    var i := FirstIdle(keys, q.processing);
    assert {} + q.processing == q.processing;
    if i == |keys| {
      IdleNone(keys, q.processing);
    } else {
      var d := DropIdle(q, i);
      assert d.processing == q.processing && d.pending == q.pending.Pop(keys[i]);
      IdleFirst(keys, q.processing);
      HandlesCons(q.pending, keys[i], Idle(Without(keys, keys[i]), q.processing));
    }
  }

  lemma HandlesCons(d: OrderedDict<nat>, k: string, ks: seq<string>)
    requires d.Valid() && k in d.vals
    requires forall x :: x in ks ==> x in d.vals && x != k
    ensures Handles(d, [k] + ks) == [d.vals[k]] + Handles(d.Pop(k), ks)
  {
  }

  lemma {:induction false} IdleFirst(keys: seq<string>, skip: set<string>)
    requires NoDuplicates(keys) && FirstIdle(keys, skip) < |keys|
    ensures var k := keys[FirstIdle(keys, skip)];
      Idle(keys, skip) == [k] + Idle(Without(keys, k), skip) && k !in Idle(Without(keys, k), skip)
  {
    var k := keys[FirstIdle(keys, skip)];
    WithoutMembers(keys, k);
    if keys[0] in skip {
      IdleFirst(keys[1..], skip);
      WithoutCons(keys, k);
      assert ([keys[0]] + Without(keys[1..], k))[1..] == Without(keys[1..], k);
    } else {
      assert Without(keys, k) == keys[1..];
    }
  }

  lemma WithoutCons(keys: seq<string>, k: string)
    requires |keys| > 0 && keys[0] != k
    ensures Without(keys, k) == [keys[0]] + Without(keys[1..], k)
  {
    var i, rest := IndexOf(keys, k), keys[1..];
    assert i == 1 + IndexOf(rest, k);
    hide IndexOf;
    if i < |keys| {
      assert keys[..i] == [keys[0]] + rest[..i - 1] && keys[i + 1..] == rest[i..];
    }
  }

  lemma {:induction false} IdleNone(keys: seq<string>, skip: set<string>)
    requires forall k :: k in keys ==> k in skip
    ensures Idle(keys, skip) == []
  {
    if keys != [] {
      IdleNone(keys[1..], skip);
    }
  }

  // ---- what requeue does ----

  /** `hs[i]` is put back: its id is free, and no earlier element of `hs` took it. */
  predicate PutBack(q: Queue, hs: seq<nat>, i: nat)
    requires Known(q, hs) && i < |hs|
  {
    && Requeued(q, hs[i])
    && forall j :: 0 <= j < i ==> q.tasks[hs[j]].id != q.tasks[hs[i]].id
  }

  lemma {:induction false} RequeueEffect(q: Queue, hs: seq<nat>)
    requires q.Valid() && Known(q, hs)
    ensures var r := Requeue(q, hs);
      && r == q.(pending := r.pending, enqueueCount := r.enqueueCount)
      && r.enqueueCount - q.enqueueCount == |r.pending.keys| - |q.pending.keys|
      && Shrinks(r.pending, q.pending)
      && (forall i :: 0 <= i < |hs| && PutBack(q, hs, i) ==>
            q.tasks[hs[i]].id in r.pending.vals && r.pending.vals[q.tasks[hs[i]].id] == hs[i])
      && (forall id :: id in r.pending.vals && id !in q.pending.vals ==>
            exists i :: 0 <= i < |hs| && PutBack(q, hs, i) && r.pending.vals[id] == hs[i])
    decreases |hs|
  {
    if hs != [] {
      var h, tail := hs[0], hs[1..];
      var q' := Restore(q, h);
      var r := Requeue(q, hs);
      assert r == Requeue(q', tail);
      RequeueEffect(q', tail);
      hide Requeue, IsOldest;
      forall i | 0 <= i < |hs| && PutBack(q, hs, i)
        ensures q.tasks[hs[i]].id in r.pending.vals && r.pending.vals[q.tasks[hs[i]].id] == hs[i]
      {
        if i > 0 {
          PutBackTail(q, q', hs, i);
        }
      }
      forall id | id in r.pending.vals && id !in q.pending.vals
        ensures exists i :: 0 <= i < |hs| && PutBack(q, hs, i) && r.pending.vals[id] == hs[i]
      {
        if id in q'.pending.vals {
          assert PutBack(q, hs, 0);
        } else {
          var i :| 0 <= i < |tail| && PutBack(q', tail, i) && r.pending.vals[id] == tail[i];
          PutBackTail(q, q', hs, i + 1);
          assert PutBack(q, hs, i + 1);
        }
      }
    }
  }

  /** What the tail puts back after its head was treated. */
  lemma PutBackTail(q: Queue, q': Queue, hs: seq<nat>, i: nat)
    requires q.Valid() && Known(q, hs) && 0 < i < |hs|
    requires q' == Restore(q, hs[0])
    ensures PutBack(q, hs, i) <==> PutBack(q', hs[1..], i - 1)
  {
    var tail := hs[1..];
    assert forall j :: 0 <= j < |tail| ==> tail[j] == hs[j + 1];
    if PutBack(q, hs, i) {
      assert q.tasks[hs[0]].id != q.tasks[hs[i]].id;
    }
    if PutBack(q', tail, i - 1) {
      forall j | 0 <= j < i ensures q.tasks[hs[j]].id != q.tasks[hs[i]].id {
        if j > 0 {
          assert q'.tasks[tail[j - 1]].id != q'.tasks[tail[i - 1]].id;
        }
      }
    }
  }

  /** Requeue of tasks that are all still pending or being processed changes nothing. */
  lemma {:induction false} RequeueOfPendingIsNoOp(q: Queue, hs: seq<nat>)
    requires q.Valid() && Known(q, hs)
    requires forall i :: 0 <= i < |hs| ==> !Requeued(q, hs[i])
    ensures Requeue(q, hs) == q
    decreases |hs|
  {
    if hs != [] {
      RequeueOfPendingIsNoOp(q, hs[1..]);
    }
  }

  // ---- conservation ----

  ghost predicate Conserved(q: Queue) {
    && q.enqueueCount - q.completeCount - q.cancelCount == |q.pending.keys|
    && q.processing <= q.pending.vals.Keys
    && q.completed.vals.Keys <= q.states.Keys
  }

  lemma FinishConserves(q: Queue, op: Op, limits: Limits)
    requires q.Valid() && Conserved(q) && (op.OpComplete? || op.OpCancel?)
    ensures Conserved(Step(q, op, limits))
  {
    hide OrderedDict.Put, OrderedDict.Pop, NoDuplicates, OldestAfter;
  }

  lemma ArriveConserves(q: Queue, id: string, created: real, limits: Limits)
    requires q.Valid() && Conserved(q)
    ensures Conserved(Step(q, OpEnqueue(id, created), limits))
  {
    if Accepts(q, id, limits) {
      var e := Evict(Insert(q, id, created), limits.cacheMax);
      EvictEffect(Insert(q, id, created), limits.cacheMax);
      EvictedConserves(q, id, created, e.q, e.events);
      hide *;
      StepEnqueues(q, id, created, limits);
    }
  }

  lemma StepEnqueues(q: Queue, id: string, created: real, limits: Limits)
    requires q.Valid() && Accepts(q, id, limits)
    ensures id !in q.pending.vals
    ensures var e := Evict(Insert(q, id, created), limits.cacheMax);
      Step(q, OpEnqueue(id, created), limits).(tasks := []) ==
        e.q.(enqueueCount := q.enqueueCount + 1 - |e.events|, tasks := [])
  {
  }

  lemma EvictedConserves(q: Queue, id: string, created: real, r: Queue, events: seq<nat>)
    requires q.Valid() && Conserved(q) && id !in q.pending.vals
    requires Evicted(Insert(q, id, created), r, events)
    ensures Conserved(r.(enqueueCount := q.enqueueCount + 1 - |events|))
  {
    hide OnlyAnswers, OldestWith, NoDuplicates;
  }

  lemma RequeueConserves(q: Queue, hs: seq<nat>, limits: Limits)
    requires q.Valid() && Conserved(q)
    ensures Conserved(Step(q, OpRequeue(hs), limits))
  {
    if Known(q, hs) {
      RequeueEffect(q, hs);
    }
    hide Requeue;
  }

  lemma StepConserves(q: Queue, op: Op, limits: Limits)
    requires q.Valid() && Conserved(q)
    ensures Conserved(Step(q, op, limits))
  {
    hide Enqueue, Requeue, Complete, Cancel;
    match op
    case OpEnqueue(id, created) => ArriveConserves(q, id, created, limits);
    case OpRequeue(hs) => RequeueConserves(q, hs, limits);
    case OpComplete(_, _) => FinishConserves(q, op, limits);
    case OpCancel(_) => FinishConserves(q, op, limits);
    case _ =>
  }

  /** Over every run, any requeue included, the three counters account for the pending tasks
      exactly, so the clamp in `pending_count` never acts. */
  lemma {:induction false} QueueConservation(q: Queue, ops: seq<Op>, limits: Limits)
    requires q.Valid() && Conserved(q)
    ensures var r := Run(q, ops, limits); Conserved(r) && PendingCount(r) == |r.pending.keys|
    decreases |ops|
  {
    if ops != [] {
      StepConserves(q, ops[0], limits);
      QueueConservation(Step(q, ops[0], limits), ops[1..], limits);
    }
  }

  // ---- the cached minimum ----

  ghost predicate OldestExact(q: Queue)
    requires q.Valid()
  {
    IsOldest(q.tasks, q.pending, q.oldest)
  }

  lemma RemovalKeepsOldest(q: Queue, id: string)
    requires q.Valid() && OldestExact(q) && id in q.pending.vals
    ensures var p := q.pending.Pop(id);
      IsOldest(q.tasks, p, OldestAfter(q.tasks, p, q.oldest, q.tasks[q.pending.vals[id]].created))
  {
    assert id in q.pending.keys;
    var p := q.pending.Pop(id);
    var c := q.tasks[q.pending.vals[id]].created;
    if q.oldest != Some(c) {
      var k :| k in q.pending.vals && q.tasks[q.pending.vals[k]].created == q.oldest.value;
      assert k in p.vals;
      assert k in p.keys;
    }
  }

  lemma {:induction false} EvictKeepsOldest(q: Queue, cap: nat)
    requires q.Valid() && OldestExact(q)
    ensures OldestExact(Evict(q, cap).q)
    decreases |q.pending.keys|
  {
    var i := FirstIdle(q.pending.keys, q.processing);
    if |q.pending.keys| > cap && i < |q.pending.keys| {
      assert q.pending.keys[i] in q.pending.keys;
      RemovalKeepsOldest(q, q.pending.keys[i]);
      SameAgesSameOldest(q, DropIdle(q, i));
      EvictKeepsOldest(DropIdle(q, i), cap);
    }
  }

  /** The cached minimum depends on the creation times only. */
  lemma SameAgesSameOldest(q: Queue, r: Queue)
    requires q.Valid() && r.Valid()
    requires SameAges(q.tasks, r.tasks)
    requires IsOldest(q.tasks, r.pending, r.oldest)
    ensures OldestExact(r)
  {
    if r.oldest.Some? {
      var id :| id in r.pending.vals && q.tasks[r.pending.vals[id]].created == r.oldest.value;
      assert r.tasks[r.pending.vals[id]].created == r.oldest.value;
    }
  }

  lemma InsertKeepsOldest(q: Queue, id: string, created: real)
    requires q.Valid() && OldestExact(q) && id !in q.pending.vals
    ensures OldestExact(Insert(q, id, created))
  {
    var r := Insert(q, id, created);
    assert r.tasks[r.pending.vals[id]].created == created;
    if q.oldest.Some? {
      var k :| k in q.pending.vals && q.tasks[q.pending.vals[k]].created == q.oldest.value;
      assert r.tasks[r.pending.vals[k]].created == q.oldest.value;
    }
  }

  /** Requeue keeps the cached minimum exact if and only if no task it puts back is older
      than the cached minimum (and there is one). */
  lemma RequeueKeepsOldestIff(q: Queue, hs: seq<nat>)
    requires q.Valid() && Known(q, hs) && OldestExact(q)
    ensures OldestExact(Requeue(q, hs)) <==>
      forall i :: 0 <= i < |hs| && PutBack(q, hs, i) ==>
        q.oldest.Some? && q.oldest.value <= q.tasks[hs[i]].created
  {
    RequeueEffect(q, hs);
    var r := Requeue(q, hs);
    if q.oldest.Some? {
      var k :| k in q.pending.vals && q.tasks[q.pending.vals[k]].created == q.oldest.value;
      assert k in r.pending.vals && r.tasks[r.pending.vals[k]].created == r.oldest.value;
    }
    assert forall id :: id in r.pending.vals <==> id in r.pending.keys;
  }

  /** The requeues of this operation put nothing back. */
  predicate Tame(q: Queue, op: Op) {
    op.OpRequeue? && Known(q, op.hs) ==> forall i :: 0 <= i < |op.hs| ==> !Requeued(q, op.hs[i])
  }

  lemma EnqueueKeepsOldest(q: Queue, id: string, created: real, limits: Limits)
    requires q.Valid() && OldestExact(q)
    ensures OldestExact(Enqueue(q, id, created, limits).q)
  {
    if Accepts(q, id, limits) {
      InsertKeepsOldest(q, id, created);
      EvictKeepsOldest(Insert(q, id, created), limits.cacheMax);
    }
  }

  lemma FinishKeepsOldest(q: Queue, id: string, response: string, limits: Limits)
    requires q.Valid() && OldestExact(q)
    ensures OldestExact(Complete(q, id, response, limits).q)
    ensures OldestExact(Cancel(q, id).q)
  {
    if id in q.pending.vals {
      RemovalKeepsOldest(q, id);
      SameAgesSameOldest(q, Complete(q, id, response, limits).q);
      SameAgesSameOldest(q, Cancel(q, id).q);
    }
  }

  lemma ApplyKeepsOldest(q: Queue, op: Op, limits: Limits)
    requires q.Valid() && OldestExact(q) && Tame(q, op)
    ensures OldestExact(Apply(q, op, limits).q)
  {
    match op
    case OpEnqueue(id, created) => EnqueueKeepsOldest(q, id, created, limits);
    case OpComplete(id, response) => FinishKeepsOldest(q, id, response, limits);
    case OpCancel(id) => FinishKeepsOldest(q, id, "", limits);
    case OpRequeue(hs) => if Known(q, hs) { RequeueOfPendingIsNoOp(q, hs); }
    case OpTransition(id, to) => assert Transition(q, id, to).pending == q.pending;
    case OpMark(id) => assert MarkProcessing(q, id).pending == q.pending;
  }

  lemma StepKeepsOldest(q: Queue, op: Op, limits: Limits)
    requires q.Valid() && OldestExact(q) && Tame(q, op)
    ensures OldestExact(Step(q, op, limits))
  {
    ApplyKeepsOldest(q, op, limits);
    var l := Apply(q, op, limits);
    SameAgesSameOldest(l.q, Publish(l.q, l.events));
  }

  predicate TameRun(q: Queue, ops: seq<Op>, limits: Limits)
    requires q.Valid()
    decreases |ops|
  {
    ops == [] || (Tame(q, ops[0]) && TameRun(Step(q, ops[0], limits), ops[1..], limits))
  }

  /** While requeue only receives tasks still in the queue, the cached value is the minimum
      creation time over the pending tasks after every operation, eviction included. */
  lemma {:induction false} CachedMinimumIsExact(q: Queue, ops: seq<Op>, limits: Limits)
    requires q.Valid() && OldestExact(q) && TameRun(q, ops, limits)
    ensures OldestExact(Run(q, ops, limits))
    decreases |ops|
  {
    if ops != [] {
      StepKeepsOldest(q, ops[0], limits);
      CachedMinimumIsExact(Step(q, ops[0], limits), ops[1..], limits);
    }
  }

  // ---- the task state machine ----

  /** Pending ids are submitted or working, completed ones completed or canceled, never both. */
  ghost predicate Lifecycle(q: Queue) {
    && (forall id :: id in q.pending.vals ==> id in q.states && q.states[id] in {Submitted, Working})
    && (forall id :: id in q.completed.vals ==>
          id !in q.pending.vals && id in q.states && q.states[id] in {Completed, Canceled})
  }

  /** An empty queue, where every run starts, meets all three. */
  lemma EmptyQueueStarts()
    ensures Conserved(EmptyQueue()) && OldestExact(EmptyQueue()) && Lifecycle(EmptyQueue())
  {
  }

  /** The edges of the state machine, one by one. */
  lemma EdgesAre(from: TaskState, to: TaskState)
    ensures to in Transitions(from) <==> (from, to) in {
      (Submitted, Working), (Submitted, Completed), (Submitted, Failed), (Submitted, Canceled),
      (Working, Completed), (Working, Failed), (Working, Canceled),
      (AuthRequired, Authenticated), (AuthRequired, Rejected), (Authenticated, Working), (Authenticated, Failed)}
  {
  }

  /** The operations the server and the hooks make: an id is only admitted when
      `find_task_by_id` finds nothing, the only explicit transition is to working, and requeue
      only receives tasks still in the queue. */
  predicate Guarded(q: Queue, op: Op) {
    && (op.OpEnqueue? ==> Find(q, op.id) == None)
    && (op.OpTransition? ==> op.to == Working)
    && Tame(q, op)
  }

  predicate GuardedRun(q: Queue, ops: seq<Op>, limits: Limits)
    requires q.Valid()
    decreases |ops|
  {
    ops == [] || (Guarded(q, ops[0]) && GuardedRun(Step(q, ops[0], limits), ops[1..], limits))
  }

  /** `op` admits a new task under `id`: the one write of a state that is not a transition. */
  predicate Admits(q: Queue, op: Op, id: string, limits: Limits) {
    op.OpEnqueue? && op.id == id && Accepts(q, id, limits)
  }

  /** The only state a step may write: an edge of the state machine, or an admission. */
  ghost predicate FollowsEdge(q: Queue, r: Queue, op: Op, limits: Limits, id: string) {
    && (id in q.states ==> id in r.states)
    && (id in r.states ==>
          if Admits(q, op, id, limits) then r.states[id] == Submitted && id !in q.completed.vals
          else r.states[id] == StateOf(q, id) || r.states[id] in Transitions(StateOf(q, id)))
    && (Admits(q, op, id, limits) ==> id in r.states)
  }

  lemma EnqueueFollowsEdges(q: Queue, i: string, created: real, limits: Limits, id: string)
    requires q.Valid() && Lifecycle(q) && i !in q.completed.vals
    ensures var r := Enqueue(q, i, created, limits).q;
      Lifecycle(r) && FollowsEdge(q, r, OpEnqueue(i, created), limits, id)
  {
    if Accepts(q, i, limits) {
      var m := Insert(q, i, created);
      assert Lifecycle(m);
      EvictEffect(m, limits.cacheMax);
    }
  }

  lemma FinishFollowsEdges(q: Queue, op: Op, limits: Limits, id: string)
    requires q.Valid() && Lifecycle(q) && (op.OpComplete? || op.OpCancel?)
    ensures var r := Apply(q, op, limits).q; Lifecycle(r) && FollowsEdge(q, r, op, limits, id)
  {
  }

  lemma TransitionFollowsEdges(q: Queue, i: string, limits: Limits, id: string)
    requires q.Valid() && Lifecycle(q)
    ensures var r := Transition(q, i, Working); Lifecycle(r) && FollowsEdge(q, r, OpTransition(i, Working), limits, id)
  {
    hide Queue.Valid, NoDuplicates;
  }

  lemma StayFollowsEdges(q: Queue, r: Queue, op: Op, limits: Limits, id: string)
    requires Lifecycle(q) && !op.OpEnqueue?
    requires r.pending == q.pending && r.completed == q.completed && r.states == q.states
    ensures Lifecycle(r) && FollowsEdge(q, r, op, limits, id)
  {
    hide Transitions;
  }

  lemma ApplyFollowsEdges(q: Queue, op: Op, limits: Limits, id: string)
    requires q.Valid() && Lifecycle(q) && Guarded(q, op)
    ensures var r := Apply(q, op, limits).q; Lifecycle(r) && FollowsEdge(q, r, op, limits, id)
  {
    hide Lifecycle, FollowsEdge, Enqueue, Complete, Cancel, Requeue, Transition, Queue.Valid;
    match op
    case OpEnqueue(i, created) => EnqueueFollowsEdges(q, i, created, limits, id);
    case OpComplete(_, _) => FinishFollowsEdges(q, op, limits, id);
    case OpCancel(_) => FinishFollowsEdges(q, op, limits, id);
    case OpRequeue(hs) =>
      if Known(q, hs) {
        RequeueOfPendingIsNoOp(q, hs);
      }
      StayFollowsEdges(q, q, op, limits, id);
    case OpTransition(i, _) => TransitionFollowsEdges(q, i, limits, id);
    case OpMark(i) => StayFollowsEdges(q, MarkProcessing(q, i), op, limits, id);
  }

  lemma PublishedFollowsEdges(q: Queue, r: Queue, events: seq<nat>, op: Op, limits: Limits, id: string)
    requires Lifecycle(r) && FollowsEdge(q, r, op, limits, id)
    ensures Lifecycle(Publish(r, events)) && FollowsEdge(q, Publish(r, events), op, limits, id)
  {
    hide Admits, Transitions;
  }

  lemma StepFollowsEdges(q: Queue, op: Op, limits: Limits, id: string)
    requires q.Valid() && Lifecycle(q) && Guarded(q, op)
    ensures var r := Step(q, op, limits); Lifecycle(r) && FollowsEdge(q, r, op, limits, id)
  {
    hide Lifecycle, FollowsEdge, Guarded, Apply, Publish, Queue.Valid;
    ApplyFollowsEdges(q, op, limits, id);
    var l := Apply(q, op, limits);
    PublishedFollowsEdges(q, l.q, l.events, op, limits, id);
  }

  /** Every step of the run writes the state of `id` along an edge, or admits it anew. */
  ghost predicate EdgesThroughout(q: Queue, ops: seq<Op>, limits: Limits, id: string)
    requires q.Valid()
    decreases |ops|
  {
    ops == [] ||
      (FollowsEdge(q, Step(q, ops[0], limits), ops[0], limits, id)
       && EdgesThroughout(Step(q, ops[0], limits), ops[1..], limits, id))
  }

  /** Over every guarded run every state write follows an edge of the state machine, except that
      an admission starts an id over; the pending ids stay submitted or working and the completed
      ones terminal. */
  lemma {:induction false} StateMachineOverRuns(q: Queue, ops: seq<Op>, limits: Limits, id: string)
    requires q.Valid() && Lifecycle(q) && GuardedRun(q, ops, limits)
    ensures Lifecycle(Run(q, ops, limits)) && EdgesThroughout(q, ops, limits, id)
    decreases |ops|
  {
    if ops != [] {
      hide Lifecycle, FollowsEdge, Step, Guarded;
      StepFollowsEdges(q, ops[0], limits, id);
      StateMachineOverRuns(Step(q, ops[0], limits), ops[1..], limits, id);
    }
  }

  ghost predicate StaysCompleted(q: Queue, ops: seq<Op>, limits: Limits, id: string)
    requires q.Valid()
    decreases |ops|
  {
    id in q.completed.vals && (ops == [] || StaysCompleted(Step(q, ops[0], limits), ops[1..], limits, id))
  }

  lemma CompletedKeepsState(q: Queue, op: Op, limits: Limits, id: string)
    requires q.Valid() && Lifecycle(q) && Guarded(q, op) && id in q.completed.vals
    ensures var r := Step(q, op, limits); id in r.states && r.states[id] == q.states[id]
  {
    StepFollowsEdges(q, op, limits, id);
    hide Step, Queue.Valid;
  }

  /** A terminal state never changes while its id stays among the completed tasks. */
  lemma {:induction false} TerminalIsFinal(q: Queue, ops: seq<Op>, limits: Limits, id: string)
    requires q.Valid() && Lifecycle(q) && GuardedRun(q, ops, limits) && StaysCompleted(q, ops, limits, id)
    ensures var r := Run(q, ops, limits);
      id in q.states && id in r.states && r.states[id] == q.states[id] && id !in r.pending.vals
    decreases |ops|
  {
    if ops != [] {
      hide Step, Guarded;
      StepFollowsEdges(q, ops[0], limits, id);
      CompletedKeepsState(q, ops[0], limits, id);
      TerminalIsFinal(Step(q, ops[0], limits), ops[1..], limits, id);
    }
  }

  /** `enqueue` itself does not look at the completed tasks.  Called on a free pending slot it
      keeps the state machine if and only if the id is not among them: a request that passed
      the server's check before a task of the same id was enqueued and completed breaks it. */
  lemma UnguardedEnqueueIff(q: Queue, id: string, created: real, limits: Limits)
    requires q.Valid() && Lifecycle(q) && Accepts(q, id, limits)
    ensures Lifecycle(Step(q, OpEnqueue(id, created), limits)) <==> id !in q.completed.vals
  {
    if id in q.completed.vals {
      EvictEffect(Insert(q, id, created), limits.cacheMax);
      var r := Enqueue(q, id, created, limits).q;
      assert id in r.completed.vals && r.states[id] == Submitted;
    } else {
      StepFollowsEdges(q, OpEnqueue(id, created), limits, id);
    }
  }

  /** Requeue keeps the state machine if and only if every task it puts back is still
      submitted or working and not among the completed tasks. */
  lemma RequeueKeepsLifecycleIff(q: Queue, hs: seq<nat>)
    requires q.Valid() && Known(q, hs) && Lifecycle(q)
    ensures Lifecycle(Requeue(q, hs)) <==>
      forall i :: 0 <= i < |hs| && PutBack(q, hs, i) ==>
        var id := q.tasks[hs[i]].id;
        id !in q.completed.vals && id in q.states && q.states[id] in {Submitted, Working}
  {
    RequeueEffect(q, hs);
  }

  /** The stale requeue: a task drained while pending, completed, then put back.  It is always
      pending again in its terminal state. */
  lemma StaleRequeueBreaksLifecycle(q: Queue, h: nat, response: string, limits: Limits)
    requires q.Valid() && h < |q.tasks| && q.Stored(h)
    ensures var id := q.tasks[h].id;
      var r := Requeue(Complete(q, id, response, limits).q, [h]);
      id in r.pending.vals && r.pending.vals[id] == h && StateOf(r, id) == Completed && !Lifecycle(r)
  {
    var done := Complete(q, q.tasks[h].id, response, limits).q;
    assert PutBack(done, [h], 0);
    RequeueEffect(done, [h]);
  }

  /** The cached minimum goes wrong whenever the stale task is older than everything left. */
  lemma StaleRequeueBreaksOldest(q: Queue, h: nat, response: string, limits: Limits)
    requires q.Valid() && OldestExact(q) && h < |q.tasks| && q.Stored(h)
    requires forall id :: id in q.pending.vals && q.pending.vals[id] != h ==>
      q.tasks[h].created < q.tasks[q.pending.vals[id]].created
    ensures !OldestExact(Requeue(Complete(q, q.tasks[h].id, response, limits).q, [h]))
  {
    hide *;
    OthersYounger(q, h);
    var done := Complete(q, q.tasks[h].id, response, limits).q;
    FinishKeepsOldest(q, q.tasks[h].id, response, limits);
    CompleteLeaves(q, h, response, limits);
    PutBackOldest(done, h);
  }

  lemma OthersYounger(q: Queue, h: nat)
    requires q.Valid() && h < |q.tasks| && q.Stored(h)
    requires forall id :: id in q.pending.vals && q.pending.vals[id] != h ==>
      q.tasks[h].created < q.tasks[q.pending.vals[id]].created
    ensures forall id :: id in q.pending.vals && id != q.tasks[h].id ==>
      q.pending.vals[id] < |q.tasks| && q.tasks[h].created < q.tasks[q.pending.vals[id]].created
  {
  }

  lemma CompleteLeaves(q: Queue, h: nat, response: string, limits: Limits)
    requires q.Valid() && h < |q.tasks| && q.Stored(h)
    ensures var done := Complete(q, q.tasks[h].id, response, limits).q;
      && done.pending.vals == q.pending.vals - {q.tasks[h].id}
      && |done.tasks| == |q.tasks|
      && (forall g :: 0 <= g < |q.tasks| ==> done.tasks[g].created == q.tasks[g].created)
      && Requeued(done, h)
  {
  }

  lemma PutBackOldest(done: Queue, h: nat)
    requires done.Valid() && OldestExact(done) && h < |done.tasks| && Requeued(done, h)
    requires forall id :: id in done.pending.vals ==>
      done.tasks[h].created < done.tasks[done.pending.vals[id]].created
    ensures !OldestExact(Requeue(done, [h]))
  {
    assert PutBack(done, [h], 0);
    RequeueKeepsOldestIff(done, [h]);
  }

  // ---- finishing is final ----

  /** Completing or canceling an id again changes nothing: the first resolution stands. */
  lemma FinishedOnce(q: Queue, op: Op, again: Op, limits: Limits)
    requires q.Valid() && (op.OpComplete? || op.OpCancel?) && (again.OpComplete? || again.OpCancel?) && again.id == op.id
    ensures Step(Step(q, op, limits), again, limits) == Step(q, op, limits)
  {
    FinishClears(q, op, limits);
    hide Step, Complete, Cancel;
    FinishOfAbsent(Step(q, op, limits), again, limits);
  }

  lemma FinishClears(q: Queue, op: Op, limits: Limits)
    requires q.Valid() && (op.OpComplete? || op.OpCancel?)
    ensures var r := Step(q, op, limits); op.id !in r.pending.vals && op.id !in r.processing
  {
    hide OrderedDict.Put, OrderedDict.Pop, NoDuplicates, OldestAfter, Trim;
  }

  lemma FinishOfAbsent(q: Queue, op: Op, limits: Limits)
    requires q.Valid() && (op.OpComplete? || op.OpCancel?) && op.id !in q.pending.vals && op.id !in q.processing
    ensures Step(q, op, limits) == q
  {
    assert q.processing - {op.id} == q.processing;
    PublishNothing(q);
  }

  /** What an arrival does: refused, it changes nothing; accepted, a new task object with the id and
      the time given comes last among the pending ones, unless it is crowded out at once; its id is
      recorded as submitted, and the other task objects stay but for the answers of those crowded
      out. */
  lemma EnqueueEffect(q: Queue, id: string, created: real, limits: Limits)
    requires q.Valid()
    ensures var l := Enqueue(q, id, created, limits);
      if |q.pending.keys| >= limits.maxPending || id in q.pending.vals then l == Locked(q, [])
      else
        var h, r := |q.tasks|, l.q;
        && |r.tasks| == h + 1
        && r.tasks[h].(response := None) == Task(id, created, None, false, false)
        && (h in l.events <==> r.tasks[h].response.Some?)
        && (h !in l.events ==> id in r.pending.vals && r.pending.vals[id] == h)
        && r.states == q.states[id := Submitted]
        && r.completed == q.completed && r.processing == q.processing
        && (forall g :: 0 <= g < h ==> r.tasks[g].(response := q.tasks[g].response) == q.tasks[g])
        && (forall g :: 0 <= g < h && g !in l.events ==> r.tasks[g] == q.tasks[g])
  {
    if Accepts(q, id, limits) {
      var m := Insert(q, id, created);
      var e := Evict(m, limits.cacheMax);
      EvictEffect(m, limits.cacheMax);
      EvictedArrival(q, id, created, e.q, e.events);
      hide Evict, Insert, Evicted, Queue.Valid;
    }
  }

  lemma EvictedArrival(q: Queue, id: string, created: real, r: Queue, events: seq<nat>)
    requires q.Valid() && id !in q.pending.vals && Evicted(Insert(q, id, created), r, events)
    ensures var h := |q.tasks|;
      && |r.tasks| == h + 1
      && r.tasks[h].(response := None) == Task(id, created, None, false, false)
      && (h in events <==> r.tasks[h].response.Some?)
      && (h !in events ==> id in r.pending.vals && r.pending.vals[id] == h)
      && r.states == q.states[id := Submitted]
      && r.completed == q.completed && r.processing == q.processing
      && (forall g :: 0 <= g < h ==> r.tasks[g].(response := q.tasks[g].response) == q.tasks[g])
      && (forall g :: 0 <= g < h && g !in events ==> r.tasks[g] == q.tasks[g])
  {
    assert Insert(q, id, created).pending.vals[id] == |q.tasks|;
    hide OldestWith, NoDuplicates, Dropped, Queue.Valid;
  }

  /** What finishing a pending task does to the task objects: a completion leaves its text unless
      the handler has returned, a cancel always leaves its own; the event is set with it, and no
      other task object changes. */
  lemma FinishAnswersTask(q: Queue, op: Op, limits: Limits)
    requires q.Valid() && (op.OpComplete? || op.OpCancel?) && op.id in q.pending.vals
    ensures var h, r := q.pending.vals[op.id], Step(q, op, limits);
      && h < |q.tasks| == |r.tasks|
      && r.tasks[h] == (
           if op.OpCancel? then q.tasks[h].(response := Some("(canceled)"), ready := true)
           else if q.tasks[h].returned then q.tasks[h]
           else q.tasks[h].(response := Some(op.response), ready := true))
      && forall g :: 0 <= g < |q.tasks| && g != h ==> r.tasks[g] == q.tasks[g]
  {
    hide OrderedDict.Put, OrderedDict.Pop, NoDuplicates, OldestAfter, Trim;
  }

  /** What finishing a pending task does to the tables: it leaves the pending ones, comes last among
      the completed ones, of which a completion, but not a cancel, keeps the latest up to the cap;
      its state is recorded and its counter goes up. */
  lemma FinishTables(q: Queue, op: Op, limits: Limits)
    requires q.Valid() && (op.OpComplete? || op.OpCancel?) && op.id in q.pending.vals
    ensures var r, done := Step(q, op, limits), op.OpComplete?;
      && r.pending.vals == q.pending.vals - {op.id} && r.processing == q.processing - {op.id}
      && (var all := if op.id in q.completed.vals then q.completed.keys else q.completed.keys + [op.id];
          var over := if done && |all| > limits.cacheMax then |all| - limits.cacheMax else 0;
          && r.completed.keys == all[over..]
          && forall k :: k in r.completed.vals ==>
               if k == op.id then r.completed.vals[k] == q.pending.vals[op.id]
               else k in q.completed.vals && r.completed.vals[k] == q.completed.vals[k])
      && r.states == q.states[op.id := if done then Completed else Canceled]
      && r.enqueueCount == q.enqueueCount
      && r.completeCount == q.completeCount + (if done then 1 else 0)
      && r.cancelCount == q.cancelCount + (if done then 0 else 1)
  {
    hide OrderedDict.Pop, NoDuplicates, OldestAfter, Queue.Valid;
  }

  /** Finishing an id that is not pending only takes it out of the processing set. */
  lemma FinishOfUnknown(q: Queue, op: Op, limits: Limits)
    requires q.Valid() && (op.OpComplete? || op.OpCancel?) && op.id !in q.pending.vals
    ensures Step(q, op, limits) == q.(processing := q.processing - {op.id})
  {
    PublishNothing(q);
  }

  /** What a client then reads: canceled after a cancel; after a completion completed, unless the
      response it carries is the literal cancel text. */
  lemma StatusAfterFinish(q: Queue, op: Op, limits: Limits)
    requires q.Valid() && Lifecycle(q) && (op.OpComplete? || op.OpCancel?) && op.id in q.pending.vals
    requires limits.cacheMax >= 1
    ensures var t := q.tasks[q.pending.vals[op.id]];
      var answer := if op.OpCancel? then Some(CANCELED) else if t.returned then t.response else Some(op.response);
      Status(Step(q, op, limits), op.id) == Some(if answer == Some(CANCELED) then Canceled else Completed)
  {
    var h, r := q.pending.vals[op.id], Step(q, op, limits);
    StaysAfterTrim(q.completed, op.id, h, limits.cacheMax);
    hide OrderedDict.Pop, NoDuplicates, OldestAfter, Trim;
    assert r.completed.vals[op.id] == h;
  }

  lemma StaysAfterTrim(d: OrderedDict<nat>, id: string, h: nat, cap: nat)
    requires d.Valid() && id !in d.vals && cap >= 1
    ensures id in Trim(d.Put(id, h), cap).vals && Trim(d.Put(id, h), cap).vals[id] == h
  {
    var p := d.Put(id, h);
    var t := Trim(p, cap);
    assert p.keys[|p.keys| - 1] == id;
    assert t.keys[|t.keys| - 1] == id;
    assert id in t.keys;
  }

  // ---- status ----

  /** For a finished task `get_status` reports the recorded state if and only if the response
      is not the literal "(canceled)" of another terminal state. */
  lemma StatusIsRecordedStateIff(q: Queue, id: string)
    requires q.Valid() && Lifecycle(q) && id in q.completed.vals
    ensures Status(q, id) == Some(q.states[id]) <==>
      (q.tasks[q.completed.vals[id]].response == Some(CANCELED) ==> q.states[id] == Canceled)
  {
  }
}
