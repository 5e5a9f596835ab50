/** The inbound task queue as a value: what each lock-held body of `TaskQueue` does.

    A task object is a handle, an index into `tasks`, which lists the task objects ever
    returned by `Enqueue` in the order they were accepted.  Two references to one object are
    two occurrences of one handle. */
module QueueModel {
  import opened OrderedDicts

  datatype TaskState =
    Submitted | Working | AuthRequired | Authenticated | Completed | Failed | Canceled | Rejected

  /** The state machine of the queue. */
  function Transitions(from: TaskState): set<TaskState> {
    match from
    case Submitted => {Working, Completed, Failed, Canceled}
    case Working => {Completed, Failed, Canceled}
    case AuthRequired => {Authenticated, Rejected}
    case Authenticated => {Working, Failed}
    case _ => {}
  }

  datatype Task = Task(
    id: string, created: real, response: Option<string>, ready: bool, returned: bool)

  /** `maxPending` is `_MAX_PENDING`, `cacheMax` is `_TASK_CACHE_MAX`. */
  datatype Limits = Limits(maxPending: nat, cacheMax: nat)

  datatype Queue = Queue(
    tasks: seq<Task>,
    pending: OrderedDict<nat>,
    completed: OrderedDict<nat>,
    processing: set<string>,
    states: map<string, TaskState>,
    enqueueCount: int,
    completeCount: int,
    cancelCount: int,
    oldest: Option<real>)
  {
    ghost predicate Valid() {
      && pending.Valid()
      && completed.Valid()
      && (forall id :: id in pending.vals ==> Stores(pending.vals[id], id))
      && (forall id :: id in completed.vals ==> Stores(completed.vals[id], id))
    }

    ghost predicate Stores(h: nat, id: string) {
      h < |tasks| && tasks[h].id == id
    }

    /** Task `h` is the value stored under its own id in `_pending`. */
    ghost predicate Stored(h: nat)
      requires h < |tasks|
    {
      tasks[h].id in pending.vals && pending.vals[tasks[h].id] == h
    }
  }

  lemma PendingValid(q: Queue)
    requires q.Valid()
    ensures q.pending.Valid()
  {
  }

  const OVERFLOW := "(dropped — queue overflow)"
  const CANCELED := "(canceled)"
  const INVALID_TRANSITION := -38003
  const ORPHANED := "(orphaned — no response)"
  const UNDELIVERED := "(webhook delivery failed)"

  function EmptyQueue(): (q: Queue)
    ensures q.Valid()
  {
    Queue([], Empty(), Empty(), {}, map[], 0, 0, 0, None)
  }

  /** A lock-held body splits in two: the new queue with every response written, and the
      handles whose `ready.set()` the body also performs.  `Publish` performs those. */
  datatype Locked = Locked(q: Queue, events: seq<nat>)

  function Publish(q: Queue, events: seq<nat>): Queue {
    q.(tasks := Readied(q.tasks, events))
  }

  function Readied(tasks: seq<Task>, events: seq<nat>): (ts: seq<Task>)
    ensures |ts| == |tasks|
    ensures forall h :: 0 <= h < |ts| ==> ts[h] == if h in events then tasks[h].(ready := true) else tasks[h]
  {
    seq(|tasks|, h requires 0 <= h < |tasks| => if h in events then tasks[h].(ready := true) else tasks[h])
  }

  function Respond(q: Queue, h: nat, response: string): (r: Queue)
    requires h < |q.tasks| && q.Valid()
    ensures r.Valid()
  {
    q.(tasks := q.tasks[h := q.tasks[h].(response := Some(response))])
  }

  // ---- the cached minimum ----

  /** `min((t.created_at for t in pending.values()), default=None)` */
  function MinCreated(tasks: seq<Task>, pending: OrderedDict<nat>): (m: Option<real>)
    requires pending.Valid()
    requires forall id :: id in pending.vals ==> pending.vals[id] < |tasks|
    ensures IsOldest(tasks, pending, m)
  {
    MinOver(tasks, pending, pending.keys)
  }

  function MinOver(tasks: seq<Task>, pending: OrderedDict<nat>, keys: seq<string>): (m: Option<real>)
    requires forall k :: k in keys ==> k in pending.vals && pending.vals[k] < |tasks|
    ensures m == None <==> keys == []
    ensures m.Some? ==> exists k :: k in keys && tasks[pending.vals[k]].created == m.value
    ensures m.Some? ==> forall k :: k in keys ==> m.value <= tasks[pending.vals[k]].created
  {
    if keys == [] then None
    else
      var c := tasks[pending.vals[keys[0]]].created;
      match MinOver(tasks, pending, keys[1..])
      case None => assert keys == [keys[0]]; Some(c)
      case Some(m) => assert keys == [keys[0]] + keys[1..]; Some(if m < c then m else c)
  }

  /** One round of the minimum, looking at the keys from position `i` on. */
  lemma MinOverStep(tasks: seq<Task>, pending: OrderedDict<nat>, keys: seq<string>, i: nat)
    requires i < |keys| && forall k :: k in keys ==> k in pending.vals && pending.vals[k] < |tasks|
    ensures MinOver(tasks, pending, keys[i..]) ==
      var c := tasks[pending.vals[keys[i]]].created;
      match MinOver(tasks, pending, keys[i + 1..])
      case None => Some(c)
      case Some(m) => Some(if m < c then m else c)
  {
    assert keys[i..][1..] == keys[i + 1..];
  }

  /** `m` is the minimum creation time over the pending tasks, `None` iff there are none. */
  ghost predicate IsOldest(tasks: seq<Task>, pending: OrderedDict<nat>, m: Option<real>)
    requires forall id :: id in pending.vals ==> pending.vals[id] < |tasks|
  {
    && (m == None <==> pending.keys == [])
    && (m.Some? ==> exists id :: id in pending.vals && tasks[pending.vals[id]].created == m.value)
    && (m.Some? ==> forall id :: id in pending.vals ==> m.value <= tasks[pending.vals[id]].created)
  }

  ghost predicate SameAges(a: seq<Task>, b: seq<Task>) {
    |a| == |b| && forall h :: 0 <= h < |a| ==> a[h].created == b[h].created
  }

  lemma {:induction false} MinOfSameAges(a: seq<Task>, b: seq<Task>, pending: OrderedDict<nat>, keys: seq<string>)
    requires SameAges(a, b) && forall k :: k in keys ==> k in pending.vals && pending.vals[k] < |a|
    ensures MinOver(a, pending, keys) == MinOver(b, pending, keys)
  {
    if keys != [] {
      MinOfSameAges(a, b, pending, keys[1..]);
    }
  }

  /** The cached minimum after a task created at `created` left, `pending` being what remains. */
  function OldestAfter(tasks: seq<Task>, pending: OrderedDict<nat>, oldest: Option<real>, created: real): Option<real>
    requires pending.Valid()
    requires forall id :: id in pending.vals ==> pending.vals[id] < |tasks|
  {
    if oldest == Some(created) then MinCreated(tasks, pending) else oldest
  }

  // ---- enqueue ----

  /** The first key not being processed, or the number of keys when all are. */
  function FirstIdle(keys: seq<string>, processing: set<string>): (i: nat)
    ensures i <= |keys|
    ensures i < |keys| ==> keys[i] !in processing
    ensures forall j :: 0 <= j < i ==> keys[j] in processing
  {
    if |keys| == 0 || keys[0] !in processing then 0 else 1 + FirstIdle(keys[1..], processing)
  }

  /** One round of the eviction loop: drop the first idle task. */
  function DropIdle(q: Queue, i: nat): (r: Queue)
    requires q.Valid() && i < |q.pending.keys|
    ensures r.Valid()
    ensures |r.pending.keys| == |q.pending.keys| - 1
  {
    var id := q.pending.keys[i];
    var h := q.pending.vals[id];
    var p := q.pending.Pop(id);
    Respond(q, h, OVERFLOW).(pending := p, oldest := OldestAfter(q.tasks, p, q.oldest, q.tasks[h].created))
  }

  function Evict(q: Queue, cacheMax: nat): (r: Locked)
    requires q.Valid()
    ensures r.q.Valid()
    decreases |q.pending.keys|
  {
    var i := FirstIdle(q.pending.keys, q.processing);
    if |q.pending.keys| <= cacheMax || i == |q.pending.keys| then Locked(q, [])
    else
      var rest := Evict(DropIdle(q, i), cacheMax);
      Locked(rest.q, [q.pending.vals[q.pending.keys[i]]] + rest.events)
  }

  /** The queue right after a new task was inserted, before the eviction loop. */
  function Insert(q: Queue, id: string, created: real): (r: Queue)
    requires q.Valid() && id !in q.pending.vals
    ensures r.Valid()
  {
    q.(tasks := q.tasks + [Task(id, created, None, false, false)],
       pending := q.pending.Put(id, |q.tasks|),
       states := q.states[id := Submitted],
       oldest := OldestWith(q.oldest, created))
  }

  function OldestWith(oldest: Option<real>, created: real): Option<real> {
    match oldest
    case None => Some(created)
    case Some(o) => Some(if o <= created then o else created)
  }

  /** Does `enqueue` accept?  On acceptance the new task has handle `|q.tasks|`. */
  predicate Accepts(q: Queue, id: string, limits: Limits) {
    |q.pending.keys| < limits.maxPending && id !in q.pending.vals
  }

  function Enqueue(q: Queue, id: string, created: real, limits: Limits): (r: Locked)
    requires q.Valid()
    ensures r.q.Valid()
  {
    if !Accepts(q, id, limits) then Locked(q, [])
    else
      var e := Evict(Insert(q, id, created), limits.cacheMax);
      Locked(e.q.(enqueueCount := q.enqueueCount + 1 - |e.events|), e.events)
  }

  // ---- drain, requeue, mark, transition ----

  function Idle(keys: seq<string>, skip: set<string>): (ks: seq<string>)
    ensures forall k :: k in ks <==> k in keys && k !in skip
  {
    if keys == [] then []
    else if keys[0] in skip then Idle(keys[1..], skip)
    else [keys[0]] + Idle(keys[1..], skip)
  }

  function Handles(d: OrderedDict<nat>, ks: seq<string>): (hs: seq<nat>)
    requires forall k :: k in ks ==> k in d.vals
    ensures |hs| == |ks| && forall i :: 0 <= i < |hs| ==> hs[i] == d.vals[ks[i]]
  {
    seq(|ks|, i requires 0 <= i < |ks| => d.vals[ks[i]])
  }

  /** Drain lists the idle pending tasks and removes nothing. */
  function Drain(q: Queue, exclude: set<string>): seq<nat>
    requires q.Valid()
  {
    Handles(q.pending, Idle(q.pending.keys, exclude + q.processing))
  }

  /** The part of the drained list that comes from position `i` on. */
  function DrainTail(q: Queue, skip: set<string>, i: nat): seq<nat>
    requires q.Valid() && i <= |q.pending.keys|
  {
    Handles(q.pending, Idle(q.pending.keys[i..], skip))
  }

  lemma DrainTailStep(q: Queue, skip: set<string>, i: nat)
    requires q.Valid() && i < |q.pending.keys|
    ensures var k := q.pending.keys[i];
      k in q.pending.vals &&
      DrainTail(q, skip, i) ==
        (if k in skip then [] else [q.pending.vals[k]]) + DrainTail(q, skip, i + 1)
  {
    assert q.pending.keys[i..][1..] == q.pending.keys[i + 1..];
    assert q.pending.keys[i] in q.pending.keys;
  }

  lemma DrainTailEnds(q: Queue, exclude: set<string>)
    requires q.Valid()
    ensures DrainTail(q, exclude + q.processing, 0) == Drain(q, exclude)
    ensures DrainTail(q, exclude + q.processing, |q.pending.keys|) == []
  {
    assert q.pending.keys[0..] == q.pending.keys;
  }

  predicate Known(q: Queue, hs: seq<nat>) {
    forall i :: 0 <= i < |hs| ==> hs[i] < |q.tasks|
  }

  predicate Requeued(q: Queue, h: nat)
    requires h < |q.tasks|
  {
    q.tasks[h].id !in q.pending.vals && q.tasks[h].id !in q.processing
  }

  /** Put task `h` back if its id is free. */
  function Restore(q: Queue, h: nat): (r: Queue)
    requires q.Valid() && h < |q.tasks|
    ensures r.Valid() && r.tasks == q.tasks
  {
    if Requeued(q, h) then
      q.(pending := q.pending.Put(q.tasks[h].id, h), enqueueCount := q.enqueueCount + 1)
    else q
  }

  function Requeue(q: Queue, hs: seq<nat>): (r: Queue)
    requires q.Valid() && Known(q, hs)
    ensures r.Valid() && r.tasks == q.tasks
    decreases |hs|
  {
    if hs == [] then q else Requeue(Restore(q, hs[0]), hs[1..])
  }

  function MarkProcessing(q: Queue, id: string): Queue {
    if id in q.pending.vals then q.(processing := q.processing + {id}) else q
  }

  function StateOf(q: Queue, id: string): TaskState {
    if id in q.states then q.states[id] else Submitted
  }

  function Transition(q: Queue, id: string, to: TaskState): Queue {
    if to in Transitions(StateOf(q, id)) then q.(states := q.states[id := to]) else q
  }

  // ---- complete, cancel ----

  /** `popitem(last=False)` until at most `cap` entries are left. */
  function Trim(d: OrderedDict<nat>, cap: nat): (r: OrderedDict<nat>)
    requires d.Valid()
    ensures r.Valid()
    ensures r.keys == d.keys[if |d.keys| <= cap then 0 else |d.keys| - cap..]
    ensures forall k :: k in r.vals ==> k in d.vals && r.vals[k] == d.vals[k]
  {
    if |d.keys| <= cap then d
    else
      var kept := d.keys[|d.keys| - cap..];
      OrderedDict(kept, map k | k in d.vals && k in kept :: d.vals[k])
  }

  function Complete(q: Queue, id: string, response: string, limits: Limits): (r: Locked)
    requires q.Valid()
    ensures r.q.Valid()
  {
    hide OrderedDict.Put, OrderedDict.Pop, NoDuplicates, Trim, OldestAfter;
    var p := q.processing - {id};
    if id !in q.pending.vals then Locked(q.(processing := p), [])
    else
      var h := q.pending.vals[id];
      var t := q.tasks[h];
      var pending := q.pending.Pop(id);
      var a := if t.returned then q else Respond(q, h, response);
      Locked(
        a.(pending := pending,
           completed := Trim(q.completed.Put(id, h), limits.cacheMax),
           processing := p,
           states := q.states[id := Completed],
           completeCount := q.completeCount + 1,
           oldest := OldestAfter(q.tasks, pending, q.oldest, t.created)),
        if t.returned then [] else [h])
  }

  function Cancel(q: Queue, id: string): (r: Locked)
    requires q.Valid()
    ensures r.q.Valid()
  {
    var p := q.processing - {id};
    if id !in q.pending.vals then Locked(q.(processing := p), [])
    else
      var h := q.pending.vals[id];
      var pending := q.pending.Pop(id);
      Locked(
        Respond(q, h, CANCELED).(
           pending := pending,
           completed := q.completed.Put(id, h),
           processing := p,
           states := q.states[id := Canceled],
           cancelCount := q.cancelCount + 1,
           oldest := OldestAfter(q.tasks, pending, q.oldest, q.tasks[h].created)),
        [h])
  }

  // ---- queries ----

  function Find(q: Queue, id: string): Option<nat> {
    if id in q.pending.vals then Some(q.pending.vals[id])
    else if id in q.completed.vals then Some(q.completed.vals[id])
    else None
  }

  /** The state `get_status` reports; `None` is "unknown". */
  function Status(q: Queue, id: string): Option<TaskState>
    requires q.Valid()
  {
    if id in q.pending.vals then Some(if id in q.states then q.states[id] else Working)
    else if id in q.completed.vals then
      if q.tasks[q.completed.vals[id]].response == Some(CANCELED) then Some(Canceled)
      else Some(if id in q.states then q.states[id] else Completed)
    else if id in q.states then Some(q.states[id])
    else None
  }

  /** The response `get_status` reports along with the state, filtered. */
  function StatusResponse(q: Queue, id: string, filter: Option<string> -> string): Option<string>
    requires q.Valid()
  {
    if id !in q.pending.vals && id in q.completed.vals && id !in q.states then
      var response := q.tasks[q.completed.vals[id]].response;
      if response == Some(CANCELED) then None else Some(filter(response))
    else None
  }

  function PendingCount(q: Queue): int {
    var n := q.enqueueCount - q.completeCount - q.cancelCount;
    if n < 0 then 0 else n
  }

  // ---- how the two halves of a lock-held body commute ----

  lemma PublishedDrop(q: Queue, events: seq<nat>, i: nat)
    requires q.Valid() && i < |q.pending.keys|
    ensures Publish(q, events).Valid()
    ensures var h := q.pending.vals[q.pending.keys[i]];
      Publish(DropIdle(Publish(q, events), i), [h]) == Publish(DropIdle(q, i), events + [h])
  {
    PublishedValid(q, events);
    var id := q.pending.keys[i];
    assert id in q.pending.keys;
    var h := q.pending.vals[id];
    assert h < |q.tasks|;
    hide OrderedDict.Pop, Queue.Valid, MinCreated, Readied;
    DropIdleIs(q, i);
    DropIdleIs(Publish(q, events), i);
    MinOfSameAges(q.tasks, Publish(q, events).tasks, q.pending.Pop(id), q.pending.Pop(id).keys);
    ReadiedLater(q.tasks, events, h, OVERFLOW);
  }

  lemma PublishedValid(q: Queue, events: seq<nat>)
    requires q.Valid()
    ensures Publish(q, events).Valid()
  {
  }

  lemma ReadiedLater(tasks: seq<Task>, events: seq<nat>, h: nat, response: string)
    requires h < |tasks|
    ensures var t, u := Readied(tasks, events), tasks[h].(response := Some(response));
      Readied(t[h := t[h].(response := Some(response))], [h]) == Readied(tasks[h := u], events + [h])
  {
  }

  lemma DropIdleIs(q: Queue, i: nat)
    requires q.Valid() && i < |q.pending.keys|
    ensures var id := q.pending.keys[i];
      && id in q.pending.vals && q.pending.vals[id] < |q.tasks|
      && var h, p := q.pending.vals[id], q.pending.Pop(id);
        && p.Valid() && (forall k :: k in p.vals ==> p.vals[k] < |q.tasks|)
        && DropIdle(q, i) == q.(
             tasks := q.tasks[h := q.tasks[h].(response := Some(OVERFLOW))],
             pending := p,
             oldest := if q.oldest == Some(q.tasks[h].created) then MinOver(q.tasks, p, p.keys) else q.oldest)
  {
    assert q.pending.keys[i] in q.pending.keys;
    hide NoDuplicates, OrderedDict.Pop;
  }

  lemma PublishNothing(q: Queue)
    ensures Publish(q, []) == q
  {
    assert Publish(q, []).tasks == q.tasks;
  }

  lemma PopFirst(d: OrderedDict<nat>)
    requires d.Valid() && |d.keys| > 0
    ensures d.Pop(d.keys[0]).keys == d.keys[1..]
  {
    assert IndexOf(d.keys, d.keys[0]) == 0;
  }

  lemma SameDict(a: OrderedDict<nat>, b: OrderedDict<nat>)
    requires a.Valid() && b.Valid() && a.keys == b.keys
    requires forall k :: k in a.vals && k in b.vals ==> a.vals[k] == b.vals[k]
    ensures a == b
  {
    assert a.vals.Keys == b.vals.Keys;
  }

  lemma TrimPopsFirst(d: OrderedDict<nat>, cap: nat)
    requires d.Valid() && cap < |d.keys|
    ensures Trim(d, cap) == Trim(d.Pop(d.keys[0]), cap)
  {
    hide Trim;
    PopFirst(d);
    SameDict(Trim(d, cap), Trim(d.Pop(d.keys[0]), cap));
  }

  lemma TrimShort(d: OrderedDict<nat>, cap: nat)
    requires d.Valid() && |d.keys| <= cap
    ensures Trim(d, cap) == d
  {
  }
}
