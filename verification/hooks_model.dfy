/** The LLM hook that claims queued tasks: `pre_llm_call` over the queue model. */
module HooksModel {
  import opened OrderedDicts
  import opened QueueModel
  import opened QueueRuns

  /** `task` is the handle whose text is injected into the conversation, if any. */
  datatype Injection = Injection(q: Queue, task: Option<nat>)

  function PreLlmCall(q: Queue): (r: Injection)
    requires q.Valid()
    ensures r.q.Valid()
  {
    var drained := Drain(q, {});
    if drained == [] then Injection(q, None)
    else
      var id := q.tasks[drained[0]].id;
      var claimed := MarkProcessing(Transition(q, id, Working), id);
      Injection(if |drained| > 1 then Requeue(claimed, drained[1..]) else claimed, Some(drained[0]))
  }

  /** A call whose state change hook raises: the rest is requeued all the same, the first task
      stays claimed, and nothing is injected. */
  function RaisedCall(q: Queue): (r: Injection)
    requires q.Valid()
    ensures r.q.Valid()
  {
    Injection(PreLlmCall(q).q, None)
  }

  lemma DrainedArePending(q: Queue)
    requires q.Valid()
    ensures forall i :: 0 <= i < |Drain(q, {})| ==>
      var h := Drain(q, {})[i]; h < |q.tasks| && q.Stored(h) && q.tasks[h].id !in q.processing
  {
  }

  /** The call marks exactly the first idle pending task, and the requeue at its end changes
      nothing. */
  lemma PreLlmCallClaimsFirstIdle(q: Queue)
    requires q.Valid()
    ensures var i := FirstIdle(q.pending.keys, q.processing);
      PreLlmCall(q) ==
        if i == |q.pending.keys| then Injection(q, None)
        else
          var id := q.pending.keys[i];
          Injection(Transition(q, id, Working).(processing := q.processing + {id}), Some(q.pending.vals[id]))
  {
    DrainFirst(q);
    DrainedArePending(q);
    var drained := Drain(q, {});
    FirstIdleKey(q);
    hide Drain, Requeue, Requeued, FirstIdle, DropIdle, NoDuplicates, OrderedDict.Pop;
    if drained != [] {
      var id := q.tasks[drained[0]].id;
      var claimed := MarkProcessing(Transition(q, id, Working), id);
      assert Known(claimed, drained[1..]);
      forall i | 0 <= i < |drained[1..]| ensures !Requeued(claimed, drained[1..][i]) {
        assert drained[1..][i] == drained[i + 1];
        StoredIsNotRequeued(claimed, drained[i + 1]);
      }
      RequeueOfPendingIsNoOp(claimed, drained[1..]);
    }
  }

  lemma FirstIdleKey(q: Queue)
    requires q.Valid()
    ensures var i := FirstIdle(q.pending.keys, q.processing);
      i < |q.pending.keys| ==>
        var id := q.pending.keys[i];
        id in q.pending.vals && q.pending.vals[id] < |q.tasks| && q.tasks[q.pending.vals[id]].id == id
  {
    var i := FirstIdle(q.pending.keys, q.processing);
    assert i < |q.pending.keys| ==> q.pending.keys[i] in q.pending.keys;
  }

  lemma StoredIsNotRequeued(q: Queue, h: nat)
    requires h < |q.tasks| && q.Stored(h)
    ensures !Requeued(q, h)
  {
  }

  // ---- what `get_status` reports on the way ----

  /** An accepted id reads submitted, unless it was crowded out at once and had been used before. */
  lemma AcceptedReadsSubmitted(q: Queue, id: string, created: real, limits: Limits)
    requires q.Valid() && |q.pending.keys| < limits.maxPending && id !in q.pending.vals
    ensures var r := Step(q, OpEnqueue(id, created), limits);
      id in r.pending.vals || id !in q.completed.vals ==> Status(r, id) == Some(Submitted)
  {
    EvictEffect(Insert(q, id, created), limits.cacheMax);
    hide Evict, OldestWith, NoDuplicates, OnlyAnswers, Dropped;
  }

  /** The id whose task a call claims reads working afterwards; every other id reads as before. */
  lemma ClaimedReadsWorking(q: Queue, id: string)
    requires q.Valid() && Lifecycle(q)
    ensures var r := PreLlmCall(q);
      && (r.task.Some? ==> r.task.value < |q.tasks|)
      && Status(r.q, id) ==
           if r.task.Some? && q.tasks[r.task.value].id == id then Some(Working) else Status(q, id)
  {
    hide *;
    PreLlmCallClaimsFirstIdle(q);
    FirstIdleKey(q);
    var i := FirstIdle(q.pending.keys, q.processing);
    if i < |q.pending.keys| {
      TransitionStatus(q, q.pending.keys[i], q.processing + {q.pending.keys[i]}, id);
    }
  }

  lemma TransitionStatus(q: Queue, claimed: string, processing: set<string>, id: string)
    requires q.Valid() && Lifecycle(q) && claimed in q.pending.vals
    ensures var r := Transition(q, claimed, Working).(processing := processing);
      r.Valid() && Status(r, id) == if id == claimed then Some(Working) else Status(q, id)
  {
    hide NoDuplicates;
  }

  // ---- runs ----

  datatype HookOp =
    | Arrive(id: string, created: real)
    | Inject(raises: bool)
    | Finish(id: string, response: string)
    | Abort(id: string)

  function HookStep(q: Queue, op: HookOp, limits: Limits): (r: Injection)
    requires q.Valid()
    ensures r.q.Valid()
  {
    match op
    case Arrive(id, created) => Injection(Step(q, OpEnqueue(id, created), limits), None)
    case Inject(raises) => if raises then RaisedCall(q) else PreLlmCall(q)
    case Finish(id, response) => Injection(Step(q, OpComplete(id, response), limits), None)
    case Abort(id) => Injection(Step(q, OpCancel(id), limits), None)
  }

  /** The handles injected by a run, in order. */
  function Injected(q: Queue, ops: seq<HookOp>, limits: Limits): seq<nat>
    requires q.Valid()
    decreases |ops|
  {
    if ops == [] then []
    else
      var s := HookStep(q, ops[0], limits);
      (match s.task case Some(h) => [h] case None => []) + Injected(s.q, ops[1..], limits)
  }

  ghost predicate Sorted(hs: seq<nat>) {
    forall i, j :: 0 <= i < j < |hs| ==> hs[i] < hs[j]
  }

  /** The pending tasks are queued in the order they were accepted, and every task that can
      still be injected was accepted after `last`. */
  ghost predicate IdleAfter(q: Queue, last: int)
    requires q.Valid()
  {
    && Sorted(Values(q.pending))
    && last < |q.tasks|
    && forall id :: id in q.pending.vals && id !in q.processing ==> last < q.pending.vals[id]
  }

  lemma NothingIdle()
    ensures IdleAfter(EmptyQueue(), -1)
  {
  }

  lemma PopValues(d: OrderedDict<nat>, k: string)
    requires d.Valid() && Sorted(Values(d))
    ensures Sorted(Values(d.Pop(k)))
  {
    var i, rest := IndexOf(d.keys, k), d.Pop(k);
    assert rest.keys == if i < |d.keys| then d.keys[..i] + d.keys[i + 1..] else d.keys;
    hide OrderedDict.Pop, IndexOf, NoDuplicates;
    forall j | 0 <= j < |rest.keys| ensures Values(rest)[j] == Values(d)[if j < i then j else j + 1] {
      assert rest.keys[j] in rest.keys && d.keys[if j < i then j else j + 1] in d.keys;
    }
  }

  lemma {:induction false} EvictInOrder(q: Queue, cap: nat)
    requires q.Valid() && Sorted(Values(q.pending))
    ensures Sorted(Values(Evict(q, cap).q.pending))
    decreases |q.pending.keys|
  {
    var i := FirstIdle(q.pending.keys, q.processing);
    if |q.pending.keys| > cap && i < |q.pending.keys| {
      PopValues(q.pending, q.pending.keys[i]);
      EvictInOrder(DropIdle(q, i), cap);
    }
  }

  lemma InsertInOrder(q: Queue, id: string, created: real)
    requires q.Valid() && Sorted(Values(q.pending)) && id !in q.pending.vals
    ensures Sorted(Values(Insert(q, id, created).pending))
  {
    hide OldestWith, NoDuplicates;
    forall i | 0 <= i < |q.pending.keys|
      ensures Values(Insert(q, id, created).pending)[i] == Values(q.pending)[i] < |q.tasks|
    {
      assert q.pending.keys[i] in q.pending.keys;
    }
  }

  lemma EvictedIdleAfter(q: Queue, id: string, created: real, r: Queue, events: seq<nat>, last: int)
    requires q.Valid() && IdleAfter(q, last) && id !in q.pending.vals && r.Valid()
    requires Evicted(Insert(q, id, created), r, events) && Sorted(Values(r.pending))
    ensures IdleAfter(r, last)
  {
    hide OldestWith, NoDuplicates, Dropped, Values, Queue.Valid;
  }

  lemma ArriveKeepsOrder(q: Queue, id: string, created: real, limits: Limits, last: int)
    requires q.Valid() && IdleAfter(q, last)
    ensures IdleAfter(Step(q, OpEnqueue(id, created), limits), last)
  {
    if Accepts(q, id, limits) {
      var m := Insert(q, id, created);
      var e := Evict(m, limits.cacheMax);
      InsertInOrder(q, id, created);
      EvictInOrder(m, limits.cacheMax);
      EvictEffect(m, limits.cacheMax);
      EvictedIdleAfter(q, id, created, e.q, e.events, last);
      hide Evict, Insert, Evicted, Values, Sorted, Queue.Valid, Accepts;
    }
  }

  /** The pending tasks and the processing set after `complete` or `cancel`. */
  lemma FinishLeaves(q: Queue, op: Op, limits: Limits)
    requires q.Valid() && (op.OpComplete? || op.OpCancel?)
    ensures var r := Step(q, op, limits);
      && r.pending.vals == q.pending.vals - {op.id}
      && (op.id in q.pending.vals ==> r.pending == q.pending.Pop(op.id))
      && (op.id !in q.pending.vals ==> r.pending == q.pending)
      && r.processing == q.processing - {op.id}
      && |r.tasks| == |q.tasks|
  {
  }

  lemma FinishKeepsOrder(q: Queue, op: Op, limits: Limits, last: int)
    requires q.Valid() && IdleAfter(q, last) && (op.OpComplete? || op.OpCancel?)
    ensures IdleAfter(Step(q, op, limits), last)
  {
    hide Step;
    FinishLeaves(q, op, limits);
    PopValues(q.pending, op.id);
  }

  lemma InjectAdvances(q: Queue, last: int)
    requires q.Valid() && IdleAfter(q, last)
    ensures var r := PreLlmCall(q);
      match r.task
      case Some(h) => last < h && IdleAfter(r.q, h)
      case None => IdleAfter(r.q, last)
  {
    hide PreLlmCall;
    PreLlmCallClaimsFirstIdle(q);
    var keys := q.pending.keys;
    var i := FirstIdle(keys, q.processing);
    if i < |keys| {
      assert keys[i] in keys;
      forall id | id in q.pending.vals && id !in q.processing && id != keys[i]
        ensures q.pending.vals[keys[i]] < q.pending.vals[id]
      {
        LaterIdle(q, i, id);
      }
    }
  }

  lemma IdleAfterEarlier(q: Queue, last: int, h: nat)
    requires q.Valid() && IdleAfter(q, h) && last < h
    ensures IdleAfter(q, last)
  {
  }

  lemma LaterIdle(q: Queue, i: nat, id: string)
    requires q.Valid() && Sorted(Values(q.pending))
    requires i == FirstIdle(q.pending.keys, q.processing) && i < |q.pending.keys|
    requires id in q.pending.vals && id !in q.processing && id != q.pending.keys[i]
    ensures q.pending.keys[i] in q.pending.vals && q.pending.vals[q.pending.keys[i]] < q.pending.vals[id]
  {
    PendingValid(q);
    hide *;
    var j := PlaceOf(q.pending, id);
    ValueAt(q.pending, i);
    ValueAt(q.pending, j);
    SortedAt(Values(q.pending), i, j);
  }

  lemma PlaceOf<V>(d: OrderedDict<V>, key: string) returns (j: nat)
    requires d.Valid() && key in d.vals
    ensures j < |d.keys| && d.keys[j] == key
  {
    assert key in d.keys;
    j :| 0 <= j < |d.keys| && d.keys[j] == key;
  }

  lemma ValueAt<V>(d: OrderedDict<V>, i: nat)
    requires d.Valid() && i < |d.keys|
    ensures d.keys[i] in d.vals && Values(d)[i] == d.vals[d.keys[i]]
  {
    assert d.keys[i] in d.keys;
  }

  lemma SortedAt(hs: seq<nat>, i: nat, j: nat)
    requires Sorted(hs) && j < |hs|
    ensures i < j ==> hs[i] < hs[j]
  {
  }

  ghost predicate Increasing(hs: seq<nat>, last: int) {
    && (forall i :: 0 <= i < |hs| ==> last < hs[i])
    && forall i, j :: 0 <= i < j < |hs| ==> hs[i] < hs[j]
  }

  lemma HookStepKeepsOrder(q: Queue, op: HookOp, limits: Limits, last: int)
    requires q.Valid() && IdleAfter(q, last)
    ensures var s := HookStep(q, op, limits);
      match s.task
      case Some(h) => last < h && IdleAfter(s.q, h)
      case None => IdleAfter(s.q, last)
  {
    hide Step, PreLlmCall, IdleAfter;
    match op
    case Arrive(id, created) => ArriveKeepsOrder(q, id, created, limits, last);
    case Inject(raises) =>
      InjectAdvances(q, last);
      var r := PreLlmCall(q);
      if r.task.Some? {
        IdleAfterEarlier(r.q, last, r.task.value);
      }
    case Finish(id, response) => FinishKeepsOrder(q, OpComplete(id, response), limits, last);
    case Abort(id) => FinishKeepsOrder(q, OpCancel(id), limits, last);
  }

  /** Over every run of arrivals (evictions included), calls that inject or raise, completions
      and cancels, tasks are injected in the order they were accepted, and none twice. */
  lemma {:induction false} FifoSingleInjection(q: Queue, ops: seq<HookOp>, limits: Limits, last: int)
    requires q.Valid() && IdleAfter(q, last)
    ensures Increasing(Injected(q, ops, limits), last)
    decreases |ops|
  {
    hide *;
    InjectedUnfolds(q, ops, limits);
    if ops == [] {
      NothingIncreases(last);
    } else {
      var s := HookStep(q, ops[0], limits);
      HookStepKeepsOrder(q, ops[0], limits, last);
      if s.task.Some? {
        FifoSingleInjection(s.q, ops[1..], limits, s.task.value);
        IncreasingCons(s.task.value, Injected(s.q, ops[1..], limits), last);
      } else {
        FifoSingleInjection(s.q, ops[1..], limits, last);
      }
    }
  }

  lemma InjectedUnfolds(q: Queue, ops: seq<HookOp>, limits: Limits)
    requires q.Valid()
    ensures Injected(q, ops, limits) ==
      if ops == [] then []
      else
        var s := HookStep(q, ops[0], limits);
        var more := Injected(s.q, ops[1..], limits);
        if s.task.Some? then [s.task.value] + more else more
  {
    hide HookStep;
  }

  lemma NothingIncreases(last: int)
    ensures Increasing([], last)
  {
  }

  lemma IncreasingCons(h: nat, hs: seq<nat>, last: int)
    requires Increasing(hs, h) && last < h
    ensures Increasing([h] + hs, last)
  {
  }

  /** Two calls one after the other: the first injects the first idle task, and the second would
      find exactly the rest. */
  lemma NextCallFindsTheRest(q: Queue)
    requires q.Valid() && FirstIdle(q.pending.keys, q.processing) < |q.pending.keys|
    ensures var drained := Drain(q, {});
      && PreLlmCall(q).task == Some(drained[0])
      && Drain(PreLlmCall(q).q, {}) == drained[1..]
  {
    PreLlmCallClaimsFirstIdle(q);
    DrainFirst(q);
    var i := FirstIdle(q.pending.keys, q.processing);
    var r := PreLlmCall(q).q;
    hide PreLlmCall;
    assert q.pending.keys[i] in q.pending.keys;
    DrainOfClaimed(q, r, i);
  }

  lemma DrainOfClaimed(q: Queue, r: Queue, i: nat)
    requires q.Valid() && r.Valid() && i < |q.pending.keys| && q.pending.keys[i] !in q.processing
    requires r.pending == q.pending && r.processing == q.processing + {q.pending.keys[i]}
    ensures Drain(r, {}) == Drain(DropIdle(q, i), {})
  {
    hide *;
    var k, d := q.pending.keys[i], DropIdle(q, i);
    PendingValid(q);
    DropIdleLeaves(q, i);
    IdleMore(q.pending.keys, q.processing, k);
    DrainIs(r);
    DrainIs(d);
    var ks := Idle(Without(q.pending.keys, k), q.processing);
    IdleListed(q, Idle(q.pending.keys, r.processing));
    IdleListed(d, ks);
    SameHandles(d.pending, r.pending, ks);
  }

  lemma DropIdleLeaves(q: Queue, i: nat)
    requires q.Valid() && i < |q.pending.keys|
    ensures var k, d := q.pending.keys[i], DropIdle(q, i);
      && NoDuplicates(q.pending.keys)
      && d.processing == q.processing && d.pending.keys == Without(q.pending.keys, k)
      && d.pending.vals == q.pending.vals - {k}
  {
  }

  lemma IdleListed(q: Queue, ks: seq<string>)
    requires q.Valid() && forall k :: k in ks ==> k in q.pending.keys
    ensures forall k :: k in ks ==> k in q.pending.vals
  {
  }

  lemma DrainIs(q: Queue)
    requires q.Valid()
    ensures Drain(q, {}) == Handles(q.pending, Idle(q.pending.keys, q.processing))
  {
    assert {} + q.processing == q.processing;
  }

  lemma SameHandles(d: OrderedDict<nat>, e: OrderedDict<nat>, ks: seq<string>)
    requires forall k :: k in ks ==> k in d.vals && k in e.vals && d.vals[k] == e.vals[k]
    ensures Handles(d, ks) == Handles(e, ks)
  {
  }

  lemma {:induction false} IdleMore(keys: seq<string>, skip: set<string>, k: string)
    requires NoDuplicates(keys)
    ensures Idle(keys, skip + {k}) == Idle(Without(keys, k), skip)
  {
    if keys != [] {
      if keys[0] == k {
        IdleOther(keys[1..], skip, k);
        assert Without(keys, k) == keys[1..];
      } else {
        IdleMore(keys[1..], skip, k);
        WithoutCons(keys, k);
        assert ([keys[0]] + Without(keys[1..], k))[1..] == Without(keys[1..], k);
      }
    }
  }

  lemma {:induction false} IdleOther(keys: seq<string>, skip: set<string>, k: string)
    requires k !in keys
    ensures Idle(keys, skip + {k}) == Idle(keys, skip)
  {
    if keys != [] {
      IdleOther(keys[1..], skip, k);
    }
  }
}
