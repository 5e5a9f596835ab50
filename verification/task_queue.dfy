/** The task queue as the program has it: task objects and tables updated in place.  Every
    method is proved to do to `State()` what the queue model's function of that name does. */
module TaskQueues {
  import opened OrderedDicts
  import opened QueueModel
  import opened QueueRuns
  import WatchdogModel
  import HooksModel
  import Pagination

  class PendingTask {
    const id: string
    const created: real
    var response: Option<string>
    var ready: bool
    var returned: bool
    ghost const serial: nat

    constructor (id: string, created: real, ghost serial: nat)
      ensures this.id == id && this.created == created && this.serial == serial
      ensures response == None && !ready && !returned
      ensures Value() == Task(id, created, None, false, false)
    {
      this.id, this.created, this.serial := id, created, serial;
      response, ready, returned := None, false, false;
    }

    function Value(): Task
      reads this
    {
      Task(id, created, response, ready, returned)
    }
  }

  /** One row of `snapshot`. */
  datatype Listed = Listed(created: real, task: PendingTask, state: Option<TaskState>)

  ghost predicate Shows(row: Listed, item: Pagination.Item) {
    row.created == item.created && row.task.serial == item.task && row.state == item.state
  }

  // ---- abstraction ----

  ghost function Serials(d: OrderedDict<PendingTask>): OrderedDict<nat> {
    OrderedDict(d.keys, map k | k in d.vals :: d.vals[k].serial)
  }

  ghost function SerialsOf(ts: seq<PendingTask>): seq<nat> {
    seq(|ts|, i requires 0 <= i < |ts| => ts[i].serial)
  }

  lemma SerialsValid(d: OrderedDict<PendingTask>)
    requires d.Valid()
    ensures Serials(d).Valid()
  {
  }

  lemma PopSerials(d: OrderedDict<PendingTask>, k: string)
    requires d.Valid()
    ensures Serials(d).Valid() && Serials(d.Pop(k)) == Serials(d).Pop(k)
  {
    SerialsValid(d);
    assert Serials(d.Pop(k)).vals == Serials(d).vals - {k};
    hide Without, NoDuplicates;
  }

  lemma PutSerials(d: OrderedDict<PendingTask>, k: string, t: PendingTask)
    requires d.Valid()
    ensures Serials(d).Valid() && Serials(d.Put(k, t)) == Serials(d).Put(k, t.serial)
  {
    SerialsValid(d);
    assert Serials(d.Put(k, t)).vals == Serials(d).vals[k := t.serial];
  }

  ghost function TasksOf(issued: seq<PendingTask>): (ts: seq<Task>)
    reads issued
    ensures |ts| == |issued|
  {
    seq(|issued|, i requires 0 <= i < |issued| reads issued => issued[i].Value())
  }

  class TaskQueue {
    const limits: Limits
    var pending: OrderedDict<PendingTask>
    var completed: OrderedDict<PendingTask>
    var processing: set<string>
    var states: map<string, TaskState>
    var enqueueCount: int
    var completeCount: int
    var cancelCount: int
    var oldest: Option<real>
    /** The task objects accepted so far, in order. */
    ghost var issued: seq<PendingTask>

    /** `t` is a task object of this queue. */
    ghost predicate Issued(t: PendingTask)
      reads `issued
    {
      t.serial < |issued| && issued[t.serial] == t
    }

    ghost predicate Table(d: OrderedDict<PendingTask>)
      reads `issued
    {
      d.Valid() && forall k :: k in d.vals ==> Issued(d.vals[k]) && d.vals[k].id == k
    }

    ghost predicate Valid()
      reads `issued, `pending, `completed
    {
      && (forall i :: 0 <= i < |issued| ==> issued[i].serial == i)
      && Table(pending)
      && Table(completed)
    }

    ghost function State(): (q: Queue)
      requires Valid()
      reads this, issued
      ensures q.Valid()
    {
      Queue(TasksOf(issued), Serials(pending), Serials(completed), processing, states,
            enqueueCount, completeCount, cancelCount, oldest)
    }

    constructor (limits: Limits)
      ensures Valid() && State() == EmptyQueue() && this.limits == limits && issued == []
    {
      this.limits := limits;
      pending, completed, processing, states := Empty(), Empty(), {}, map[];
      enqueueCount, completeCount, cancelCount, oldest := 0, 0, 0, None;
      issued := [];
    }

    /** What the abstract state says about the tables, spelled out. */
    lemma Tables()
      requires Valid()
      ensures State().pending == Serials(pending) && State().pending.keys == pending.keys
      ensures State().tasks == TasksOf(issued) && State().processing == processing && State().oldest == oldest
      ensures forall k :: k in pending.vals <==> k in State().pending.vals
      ensures forall k :: k in pending.keys ==> k in pending.vals && State().pending.vals[k] == pending.vals[k].serial
      ensures forall k :: k in pending.keys ==> State().pending.vals[k] < |issued|
      ensures forall k :: k in pending.keys ==>
        TasksOf(issued)[State().pending.vals[k]].created == pending.vals[k].created
    {
    }

    lemma MinUnfolds(q: Queue)
      requires q.Valid()
      ensures MinCreated(q.tasks, q.pending) == MinOver(q.tasks, q.pending, q.pending.keys)
    {
    }

    method MinPending() returns (m: Option<real>)
      requires Valid()
      ensures m == MinCreated(State().tasks, State().pending)
    {
      hide *;
      MinUnfolds(State());
      MinFrom(|pending.keys|);
      m := None;
      for i := |pending.keys| downto 0
        invariant m == MinOver(State().tasks, State().pending, State().pending.keys[i..])
      {
        MinFrom(i);
        var c := pending.vals[pending.keys[i]].created;
        m := match m case None => Some(c) case Some(v) => Some(if v < c then v else c);
      }
      assert State().pending.keys[0..] == State().pending.keys;
    }

    /** One more step of the minimum, over the objects. */
    lemma MinFrom(i: nat)
      requires Valid() && i <= |pending.keys|
      ensures var q := State();
        && q.Valid() && q.pending.keys == pending.keys
        && (forall k :: k in q.pending.keys ==> k in q.pending.vals && q.pending.vals[k] < |q.tasks|)
        && var rest := MinOver(q.tasks, q.pending, q.pending.keys[i..]);
          if i == |pending.keys| then rest == None
          else
            && pending.keys[i] in pending.vals
            && var c, next := pending.vals[pending.keys[i]].created,
                              MinOver(q.tasks, q.pending, q.pending.keys[i + 1..]);
              rest == Some(if next.Some? && next.value < c then next.value else c)
    {
      Tables();
      var q := State();
      if i < |pending.keys| {
        MinOverStep(q.tasks, q.pending, pending.keys, i);
      }
      hide MinOver, Serials, TasksOf, Queue.Valid;
    }

    /** Recompute the cached minimum after a task created at `created` left. */
    method RefreshOldest(created: real)
      requires Valid()
      modifies this`oldest
      ensures Valid()
      ensures State() == old(State()).(oldest :=
        OldestAfter(old(State()).tasks, old(State()).pending, old(oldest), created))
    {
      hide NoDuplicates, TasksOf, Serials, MinCreated;
      if oldest == Some(created) {
        oldest := MinPending();
      }
    }

    method Answer(t: PendingTask, response: string)
      requires Valid() && Issued(t)
      modifies t
      ensures Valid()
      ensures State() == Publish(Respond(old(State()), t.serial, response), [t.serial])
    {
      t.response := Some(response);
      t.ready := true;
    }

    // ---- enqueue ----

    method FirstIdleIndex() returns (i: nat)
      requires Valid()
      ensures i == FirstIdle(pending.keys, processing)
    {
      i := 0;
      while i < |pending.keys| && pending.keys[i] in processing
        invariant i <= |pending.keys|
        invariant FirstIdle(pending.keys, processing) == i + FirstIdle(pending.keys[i..], processing)
      {
        assert pending.keys[i..][1..] == pending.keys[i + 1..];
        i := i + 1;
      }
    }

    lemma PopTable(d: OrderedDict<PendingTask>, k: string)
      requires Table(d)
      ensures Table(d.Pop(k)) && Serials(d).Valid() && Serials(d.Pop(k)) == Serials(d).Pop(k)
    {
      PopSerials(d, k);
    }

    lemma PutTable(d: OrderedDict<PendingTask>, t: PendingTask)
      requires Table(d) && Issued(t)
      ensures Table(d.Put(t.id, t)) && Serials(d).Valid()
      ensures Serials(d.Put(t.id, t)) == Serials(d).Put(t.id, t.serial)
    {
      PutSerials(d, t.id, t);
    }

    /** One round of the eviction loop. */
    method DropIdleAt(i: nat)
      requires Valid() && i < |pending.keys|
      modifies this, issued
      ensures Valid() && issued == old(issued)
      ensures var h := old(State()).pending.vals[old(pending.keys[i])];
        State() == Publish(DropIdle(old(State()), i), [h])
    {
      ghost var q := State();
      Tables();
      DropUnfolds(q, i);
      hide *;
      var t := TakePending(pending.keys[i]);
      Answer(t, OVERFLOW);
      RefreshOldest(t.created);
    }

    method EvictOverflow() returns (evicted: nat)
      requires Valid()
      modifies this, issued
      ensures Valid() && issued == old(issued)
      ensures var e := Evict(old(State()), limits.cacheMax);
        State() == Publish(e.q, e.events) && evicted == |e.events|
    {
      hide *;
      ghost var start := State();
      ghost var q, events := start, [];
      PublishNothing(q);
      evicted := 0;
      while |pending.keys| > limits.cacheMax
        invariant Valid() && issued == old(issued)
        invariant q.Valid() && State() == Publish(q, events) && evicted == |events|
        invariant Evict(start, limits.cacheMax).q == Evict(q, limits.cacheMax).q
        invariant Evict(start, limits.cacheMax).events == events + Evict(q, limits.cacheMax).events
        decreases |pending.keys|
      {
        Tables();
        PublishedTables(q, events);
        EvictUnfolds(q, limits.cacheMax);
        var i := FirstIdleIndex();
        if i == |pending.keys| {
          break;
        }
        PublishedDrop(q, events, i);
        DropIdleAt(i);
        events := events + [q.pending.vals[q.pending.keys[i]]];
        q := DropIdle(q, i);
        evicted := evicted + 1;
        Tables();
        PublishedTables(q, events);
      }
      Tables();
      PublishedTables(q, events);
      EvictUnfolds(q, limits.cacheMax);
      assert events + [] == events;
    }

    lemma PublishedTables(q: Queue, events: seq<nat>)
      requires q.Valid()
      ensures Publish(q, events).pending == q.pending && Publish(q, events).processing == q.processing
      ensures forall k :: k in q.pending.keys ==> k in q.pending.vals
    {
    }

    /** The new task enters the pending table. */
    method AppendTask(t: PendingTask)
      requires Valid() && t.serial == |issued| && t.id !in pending.vals
      modifies `issued, `pending
      ensures Valid() && issued == old(issued) + [t]
      ensures State() == old(State()).(
        tasks := old(State()).tasks + [t.Value()], pending := old(State()).pending.Put(t.id, t.serial))
    {
      ghost var q := State();
      issued := issued + [t];
      PutTable(pending, t);
      pending := pending.Put(t.id, t);
      assert TasksOf(issued) == q.tasks + [t.Value()];
    }

    /** The new task's state, and the cached minimum with it. */
    method NoteArrival(t: PendingTask)
      requires Valid()
      modifies `states, `oldest
      ensures Valid()
      ensures State() == old(State()).(
        states := old(State()).states[t.id := Submitted],
        oldest := OldestWith(old(State()).oldest, t.created))
    {
      states := states[t.id := Submitted];
      if oldest == None {
        oldest := Some(t.created);
      } else {
        oldest := Some(if oldest.value <= t.created then oldest.value else t.created);
      }
    }

    /** The insertion `enqueue` starts with. */
    method InsertTask(t: PendingTask)
      requires Valid() && t.serial == |issued| && t.id !in pending.vals
      requires t.Value() == Task(t.id, t.created, None, false, false)
      modifies this
      ensures Valid() && issued == old(issued) + [t]
      ensures t.id !in old(State()).pending.vals
      ensures State() == Insert(old(State()), t.id, t.created)
    {
      Tables();
      ghost var q := State();
      hide Serials, TasksOf, TaskQueue.Valid, Queue.Valid;
      AppendTask(t);
      NoteArrival(t);
    }

    /** The rest of `enqueue` once the task is let in. */
    method Admit(t: PendingTask)
      requires Valid() && t.serial == |issued| && Accepts(State(), t.id, limits)
      requires t.Value() == Task(t.id, t.created, None, false, false)
      modifies this, issued, t
      ensures Valid() && issued == old(issued) + [t]
      ensures var e := QueueModel.Enqueue(old(State()), t.id, t.created, limits);
        State() == Publish(e.q, e.events)
    {
      HasRoomIff(t.id);
      hide *;
      EnqueueUnfolds(State(), t.id, t.created, limits);
      InsertTask(t);
      var evicted := EvictOverflow();
      CountEnqueued(evicted);
    }

    method Enqueue(id: string, created: real) returns (task: PendingTask?)
      requires Valid()
      modifies this, issued
      ensures Valid()
      ensures var e := QueueModel.Enqueue(old(State()), id, created, limits);
        State() == Publish(e.q, e.events)
      ensures task != null <==> Accepts(old(State()), id, limits)
      ensures task == null ==> issued == old(issued)
      ensures task != null ==> fresh(task) && issued == old(issued) + [task] && task.id == id && task.created == created
    {
      HasRoomIff(id);
      EnqueueUnfolds(State(), id, created, limits);
      hide *;
      var t := new PendingTask(id, created, |issued|);
      if |pending.keys| >= limits.maxPending || id in pending.vals {
        return null;
      }
      Admit(t);
      return t;
    }

    lemma HasRoomIff(id: string)
      requires Valid()
      ensures Accepts(State(), id, limits) <==> |pending.keys| < limits.maxPending && id !in pending.vals
    {
    }

    method CountEnqueued(evicted: nat)
      requires Valid()
      modifies `enqueueCount
      ensures Valid() && State() == old(State()).(enqueueCount := old(State()).enqueueCount + 1 - evicted)
    {
      enqueueCount := enqueueCount + 1 - evicted;
    }

    // ---- drain, requeue, claim ----

    ghost predicate AllIssued(ts: seq<PendingTask>)
      reads `issued
    {
      forall i :: 0 <= i < |ts| ==> Issued(ts[i])
    }

    method DrainPending(exclude: set<string>) returns (ts: seq<PendingTask>)
      requires Valid()
      ensures AllIssued(ts) && SerialsOf(ts) == Drain(State(), exclude)
    {
      hide *;
      var skip := exclude + processing;
      ghost var q := State();
      Tables();
      PendingObjects();
      DrainTailEnds(q, exclude);
      NoneIssued();
      ts := [];
      for i := 0 to |pending.keys|
        invariant AllIssued(ts)
        invariant Drain(q, exclude) == SerialsOf(ts) + DrainTail(q, skip, i)
      {
        DrainTailStep(q, skip, i);
        if pending.keys[i] !in skip {
          var t := pending.vals[pending.keys[i]];
          MoreIssued(ts, t);
          assert SerialsOf(ts) + ([t.serial] + DrainTail(q, skip, i + 1))
              == SerialsOf(ts) + [t.serial] + DrainTail(q, skip, i + 1);
          ts := ts + [t];
        } else {
          assert [] + DrainTail(q, skip, i + 1) == DrainTail(q, skip, i + 1);
        }
      }
      assert SerialsOf(ts) + [] == SerialsOf(ts);
    }

    lemma NoneIssued()
      ensures AllIssued([]) && SerialsOf([]) == []
    {
    }

    lemma MoreIssued(ts: seq<PendingTask>, t: PendingTask)
      requires AllIssued(ts) && Issued(t)
      ensures AllIssued(ts + [t]) && SerialsOf(ts + [t]) == SerialsOf(ts) + [t.serial]
    {
    }

    method RequeueTasks(ts: seq<PendingTask>)
      requires Valid() && AllIssued(ts)
      modifies `pending, `enqueueCount
      ensures Valid() && issued == old(issued)
      ensures Known(old(State()), SerialsOf(ts)) && State() == Requeue(old(State()), SerialsOf(ts))
    {
      ghost var q, hs := State(), SerialsOf(ts);
      hide Requeue, Restore, Serials, TasksOf;
      assert hs[0..] == hs;
      for i := 0 to |ts|
        invariant Valid() && issued == old(issued)
        invariant Known(q, hs) && |State().tasks| == |q.tasks|
        invariant Known(State(), hs[i..]) && Requeue(q, hs) == Requeue(State(), hs[i..])
      {
        assert hs[i..][1..] == hs[i + 1..];
        RequeueRound(State(), hs[i..]);
        RestoreOne(ts[i]);
      }
    }

    method RestoreOne(t: PendingTask)
      requires Valid() && Issued(t)
      modifies `pending, `enqueueCount
      ensures Valid() && issued == old(issued)
      ensures State() == Restore(old(State()), t.serial)
    {
      hide NoDuplicates;
      if t.id !in pending.vals && t.id !in processing {
        PutTable(pending, t);
        pending := pending.Put(t.id, t);
        enqueueCount := enqueueCount + 1;
      }
    }

    method MarkProcessing(id: string)
      requires Valid()
      modifies `processing
      ensures Valid() && State() == QueueModel.MarkProcessing(old(State()), id)
    {
      if id in pending.vals {
        processing := processing + {id};
      }
    }

    /** `returnError` asks for the error code of a refusal. */
    method Transition(id: string, to: TaskState, returnError: bool) returns (ok: bool, error: Option<int>)
      requires Valid()
      modifies `states
      ensures Valid() && State() == QueueModel.Transition(old(State()), id, to)
      ensures ok <==> to in Transitions(StateOf(old(State()), id))
      ensures error == if returnError && !ok then Some(-38003) else None
    {
      var from := if id in states then states[id] else Submitted;
      if to in Transitions(from) {
        states := states[id := to];
        return true, None;
      }
      return false, if returnError then Some(INVALID_TRANSITION) else None;
    }

    // ---- complete, cancel ----

    method Discard(id: string)
      requires Valid()
      modifies `processing
      ensures Valid()
      ensures State() == old(State()).(processing := old(State()).processing - {id})
    {
      processing := processing - {id};
    }

    lemma PendingIff(id: string)
      requires Valid()
      ensures id in State().pending.vals <==> id in pending.vals
    {
    }

    method TakePending(id: string) returns (t: PendingTask)
      requires Valid() && id in pending.vals
      modifies `pending
      ensures Valid() && issued == old(issued)
      ensures State() == old(State()).(pending := old(State()).pending.Pop(id))
      ensures id in old(State()).pending.vals && t.serial == old(State()).pending.vals[id]
      ensures Issued(t) && t.id == id && t.Value() == State().tasks[t.serial]
    {
      t := pending.vals[id];
      PopTable(pending, id);
      pending := pending.Pop(id);
    }

    method RecordCompleted(t: PendingTask)
      requires Valid() && Issued(t)
      modifies `completed, `completeCount, `states
      ensures Valid() && issued == old(issued)
      ensures State() == old(State()).(
        completed := old(State()).completed.Put(t.id, t.serial),
        completeCount := old(State()).completeCount + 1,
        states := old(State()).states[t.id := Completed])
    {
      PutTable(completed, t);
      completed := completed.Put(t.id, t);
      completeCount := completeCount + 1;
      states := states[t.id := Completed];
    }

    method RecordCanceled(t: PendingTask)
      requires Valid() && Issued(t)
      modifies `completed, `cancelCount, `states
      ensures Valid() && issued == old(issued)
      ensures State() == old(State()).(
        completed := old(State()).completed.Put(t.id, t.serial),
        cancelCount := old(State()).cancelCount + 1,
        states := old(State()).states[t.id := Canceled])
    {
      PutTable(completed, t);
      completed := completed.Put(t.id, t);
      cancelCount := cancelCount + 1;
      states := states[t.id := Canceled];
    }

    lemma FirstPopped()
      requires Valid() && |completed.keys| > 0
      ensures completed.keys[0] in completed.vals
      ensures Table(completed.Pop(completed.keys[0]))
      ensures Serials(completed.Pop(completed.keys[0])) == Serials(completed).Pop(completed.keys[0])
      ensures |completed.Pop(completed.keys[0]).keys| < |completed.keys|
    {
      assert completed.keys[0] in completed.keys;
      PopTable(completed, completed.keys[0]);
    }

    lemma CompletedTable()
      requires Valid()
      ensures completed.Valid() && Serials(completed).Valid() && Serials(completed).keys == completed.keys
      ensures State().completed == Serials(completed)
    {
    }

    method TrimCompleted()
      requires Valid()
      modifies `completed
      ensures Valid() && issued == old(issued)
      ensures State() == old(State()).(completed := Trim(old(State()).completed, limits.cacheMax))
    {
      ghost var q := State();
      hide Trim, Serials, TasksOf, OrderedDict.Pop, OrderedDict.Valid, NoDuplicates, Queue.Valid, Table;
      CompletedTable();
      while |completed.keys| > limits.cacheMax
        invariant Valid() && issued == old(issued)
        invariant Trim(q.completed, limits.cacheMax) == Trim(Serials(completed), limits.cacheMax)
        invariant State() == q.(completed := Serials(completed))
        decreases |completed.keys|
      {
        FirstPopped();
        TrimPopsFirst(Serials(completed), limits.cacheMax);
        completed := completed.Pop(completed.keys[0]);
        CompletedTable();
      }
      TrimShort(Serials(completed), limits.cacheMax);
    }

    method Complete(id: string, response: string)
      requires Valid()
      modifies this, issued
      ensures Valid() && issued == old(issued)
      ensures var l := QueueModel.Complete(old(State()), id, response, limits);
        State() == Publish(l.q, l.events)
    {
      ghost var q := State();
      PendingIff(id);
      CompleteUnfolds(q, id, response, limits);
      hide *;
      Discard(id);
      if id in pending.vals {
        var t := TakePending(id);
        SettleCompleted(t, response);
        TrimCompleted();
      }
    }

    /** What `complete` does with the popped task before it trims. */
    method SettleCompleted(t: PendingTask, response: string)
      requires Valid() && Issued(t) && t.Value() == State().tasks[t.serial]
      modifies this, t
      ensures Valid() && issued == old(issued)
      ensures State() == CompletedTask(old(State()), t.serial, old(t.Value()), response)
    {
      if !t.returned {
        Answer(t, response);
      }
      RecordCompleted(t);
      RefreshOldest(t.created);
    }

    method Cancel(id: string)
      requires Valid()
      modifies this, issued
      ensures Valid() && issued == old(issued)
      ensures var l := QueueModel.Cancel(old(State()), id);
        State() == Publish(l.q, l.events)
    {
      ghost var q := State();
      PendingIff(id);
      CancelUnfolds(q, id);
      hide *;
      Discard(id);
      if id in pending.vals {
        var t := TakePending(id);
        SettleCanceled(t);
      }
    }

    /** What `cancel` does with the popped task. */
    method SettleCanceled(t: PendingTask)
      requires Valid() && Issued(t) && t.Value() == State().tasks[t.serial]
      modifies this, t
      ensures Valid() && issued == old(issued)
      ensures State() == CanceledTask(old(State()), t.serial, old(t.Value()))
    {
      Answer(t, CANCELED);
      RecordCanceled(t);
      RefreshOldest(t.created);
    }

    // ---- queries ----

    method PendingCount() returns (n: int)
      requires Valid()
      ensures n == QueueModel.PendingCount(State())
      ensures Conserved(State()) ==> n == |pending.keys|
    {
      n := enqueueCount - completeCount - cancelCount;
      if n < 0 {
        n := 0;
      }
    }

    method FindTaskById(id: string) returns (t: PendingTask?)
      requires Valid()
      ensures t != null ==> Issued(t) && t.id == id && Find(State(), id) == Some(t.serial)
      ensures t == null ==> Find(State(), id) == None
    {
      if id in pending.vals {
        return pending.vals[id];
      }
      if id in completed.vals {
        return completed.vals[id];
      }
      return null;
    }

    /** `filter` is the outbound filter; a response is reported only for a completed task without
        a recorded state, which conservation rules out. */
    method GetStatus(id: string, filter: Option<string> -> string)
      returns (state: Option<TaskState>, response: Option<string>)
      requires Valid()
      ensures state == Status(State(), id) && response == StatusResponse(State(), id, filter)
      ensures Conserved(State()) ==> response == None
    {
      if id in pending.vals {
        return Some(if id in states then states[id] else Working), None;
      }
      if id in completed.vals {
        var t := completed.vals[id];
        if t.response == Some(CANCELED) {
          return Some(Canceled), None;
        }
        if id in states {
          return Some(states[id]), None;
        }
        return Some(Completed), Some(filter(t.response));
      }
      if id in states {
        return Some(states[id]), None;
      }
      return None, None;
    }

    /** All task objects with their times and recorded states, the pending ones first. */
    method Snapshot() returns (rows: seq<Listed>)
      requires Valid()
      ensures |rows| == |pending.keys| + |completed.keys| == |Pagination.Snapshot(State())|
      ensures forall i :: 0 <= i < |rows| ==>
        Issued(rows[i].task) && Shows(rows[i], Pagination.Snapshot(State())[i])
    {
      hide *;
      SnapshotObjects();
      var ts := Values(pending) + Values(completed);
      rows := [];
      for i := 0 to |ts|
        invariant |rows| == i
        invariant forall j :: 0 <= j < i ==>
          Issued(rows[j].task) && Shows(rows[j], Pagination.Snapshot(State())[j])
      {
        var t := ts[i];
        rows := rows + [Listed(t.created, t, if t.id in states then Some(states[t.id]) else None)];
        ShowsRow(rows[i], t, i);
      }
    }

    lemma SnapshotObjects()
      requires Valid()
      ensures pending.Valid() && completed.Valid()
      ensures var ts := Values(pending) + Values(completed);
        |ts| == |pending.keys| + |completed.keys| == |Pagination.Snapshot(State())|
    {
      hide NoDuplicates;
    }

    lemma ShowsRow(row: Listed, t: PendingTask, i: nat)
      requires Valid() && i < |Values(pending) + Values(completed)| && t == (Values(pending) + Values(completed))[i]
      requires row == Listed(t.created, t, if t.id in states then Some(states[t.id]) else None)
      ensures Issued(t) && i < |Pagination.Snapshot(State())| && Shows(row, Pagination.Snapshot(State())[i])
    {
      hide *;
      ListedObject(t, i);
      StateOfObject(t);
      Pagination.SnapshotAt(State(), i);
      Pagination.RowIs(State(), t.serial);
      ShowsIs(row, Pagination.Row(State(), t.serial));
    }

    lemma ShowsIs(row: Listed, item: Pagination.Item)
      requires row.created == item.created && row.task.serial == item.task && row.state == item.state
      ensures Shows(row, item)
    {
    }

    lemma ListedObject(t: PendingTask, i: nat)
      requires Valid() && i < |Values(pending) + Values(completed)| && t == (Values(pending) + Values(completed))[i]
      ensures State().Valid() && Issued(t)
      ensures var hs := Values(State().pending) + Values(State().completed); i < |hs| && hs[i] == t.serial
    {
      hide *;
      TablesOfState();
      TableObject(pending, i);
      TableObject(completed, i - |pending.keys|);
      JoinAt(Values(pending), Values(completed), i);
      JoinAt(Values(State().pending), Values(State().completed), i);
    }

    lemma JoinAt<T>(xs: seq<T>, ys: seq<T>, i: nat)
      requires i < |xs + ys|
      ensures (xs + ys)[i] == if i < |xs| then xs[i] else ys[i - |xs|]
    {
    }

    lemma TablesOfState()
      requires Valid()
      ensures Table(pending) && Table(completed)
      ensures State().pending == Serials(pending) && State().completed == Serials(completed)
    {
    }

    lemma TableObject(d: OrderedDict<PendingTask>, i: int)
      requires Table(d)
      ensures d.Valid() && Serials(d).Valid() && |Values(Serials(d))| == |Values(d)| == |d.keys|
      ensures 0 <= i < |d.keys| ==> Issued(Values(d)[i]) && Values(Serials(d))[i] == Values(d)[i].serial
    {
      if 0 <= i < |d.keys| {
        assert d.keys[i] in d.keys;
      }
      hide NoDuplicates;
    }

    lemma StateOfObject(t: PendingTask)
      requires Valid() && Issued(t)
      ensures t.serial < |State().tasks| && State().tasks[t.serial] == t.Value()
      ensures State().states == states && t.Value().created == t.created && t.Value().id == t.id
    {
      hide Serials;
    }

    // ---- the actors around the queue ----

    /** The end of a handler's wait: a response is handed over; without one the task is marked
        returned, so that a late completion does not answer it. */
    method Collect(t: PendingTask) returns (response: Option<string>)
      requires Valid() && Issued(t)
      modifies t`returned
      ensures Valid() && response == old(t.response)
      ensures State() == old(State()).(tasks := old(State()).tasks[t.serial :=
        old(t.Value()).(returned := old(t.returned) || old(t.response) == None)])
    {
      response := t.response;
      if response == None {
        t.returned := true;
      }
    }

    /** One pass of the orphan watchdog. */
    method WatchdogPass(now: real, timeout: real)
      requires Valid()
      modifies issued
      ensures Valid()
      ensures var l := WatchdogModel.Pass(old(State()), now - 2.0 * timeout);
        State() == Publish(l.q, l.events)
    {
      hide *;
      var cutoff := now - 2.0 * timeout;
      PublishNothing(State());
      PassIs(State(), cutoff);
      Tables();
      if oldest.Some? && oldest.value >= cutoff {
        return;
      }
      ScanPending(cutoff);
    }

    method ScanPending(cutoff: real)
      requires Valid()
      modifies issued
      ensures Valid()
      ensures var l := WatchdogModel.FullPass(old(State()), cutoff);
        State() == Publish(l.q, l.events)
    {
      hide *;
      ghost var start := State();
      WatchdogModel.PendingKnown(start);
      FullPassIs(start, cutoff);
      ghost var hs := Values(start.pending);
      Tables();
      PublishNothing(start);
      WatchdogModel.ScanSplitStarts(start, hs, cutoff);
      ghost var q, events := start, [];
      for i := 0 to |pending.keys|
        invariant Valid() && q.Valid() && State() == Publish(q, events)
        invariant WatchdogModel.ScanSplit(start, q, hs, i, cutoff, events)
      {
        PendingObject(i, q, events, cutoff);
        WatchdogModel.ScanSplitAdvances(start, q, hs, i, cutoff, events);
        var t := pending.vals[pending.keys[i]];
        if t.created < cutoff && t.response == None {
          RespondPublished(q, events, hs[i], ORPHANED);
          Answer(t, ORPHANED);
          q, events := Respond(q, hs[i], ORPHANED), events + [hs[i]];
        }
      }
      WatchdogModel.ScanSplitEnds(start, q, hs, cutoff, events);
    }

    lemma PendingObject(i: nat, q: Queue, events: seq<nat>, cutoff: real)
      requires Valid() && i < |pending.keys| && State() == Publish(q, events) && q.Valid()
      ensures pending.keys[i] in pending.vals
      ensures var t := pending.vals[pending.keys[i]];
        && Issued(t) && t.serial < |q.tasks|
        && Values(State().pending)[i] == t.serial
        && (WatchdogModel.Orphaned(q.tasks[t.serial], cutoff) <==> t.created < cutoff && t.response == None)
    {
      PendingObjects();
    }

    lemma PendingObjects()
      requires Valid()
      ensures Values(State().pending) == SerialsOf(Values(pending))
      ensures forall i :: 0 <= i < |pending.keys| ==>
        pending.keys[i] in pending.vals && Issued(pending.vals[pending.keys[i]])
    {
      forall i | 0 <= i < |pending.keys| ensures pending.keys[i] in pending.vals {
        assert pending.keys[i] in pending.keys;
      }
    }

    /** `pre_llm_call`: claim the first idle task for injection.  `raises` says whether the state
        change hook raises; `raised` whether the exception leaves the call. */
    method PreLlmCall(raises: bool) returns (task: PendingTask?, raised: bool)
      requires Valid()
      modifies `pending, `processing, `states, `enqueueCount
      ensures Valid() && issued == old(issued)
      ensures raised <==> raises && HooksModel.PreLlmCall(old(State())).task.Some?
      ensures var r := if raised then HooksModel.RaisedCall(old(State())) else HooksModel.PreLlmCall(old(State()));
        && State() == r.q
        && (task == null <==> r.task == None)
        && (task != null ==> Issued(task) && r.task == Some(task.serial))
    {
      hide *;
      ClaimUnfolds(State());
      var drained := DrainPending({});
      if drained == [] {
        NoneIssued();
        return null, false;
      }
      task := drained[0];
      DrainedTask(drained);
      var _, _ := Transition(task.id, Working, false);
      MarkProcessing(task.id);
      if raises {
        if |drained| > 1 {
          RequeueTasks(drained[1..]);
        }
        return null, true;
      }
      if |drained| > 1 {
        RequeueTasks(drained[1..]);
      }
      raised := false;
    }

    lemma DrainedTask(drained: seq<PendingTask>)
      requires Valid() && AllIssued(drained) && drained != []
      ensures Issued(drained[0]) && AllIssued(drained[1..])
      ensures State().tasks[drained[0].serial].id == drained[0].id
      ensures SerialsOf(drained)[0] == drained[0].serial && SerialsOf(drained[1..]) == SerialsOf(drained)[1..]
      ensures |SerialsOf(drained)| == |drained|
    {
    }
  }

  /** `pre_llm_call` in the steps of the method. */
  lemma ClaimUnfolds(q: Queue)
    requires q.Valid()
    ensures var hs := Drain(q, {});
      HooksModel.PreLlmCall(q) ==
        if hs == [] then HooksModel.Injection(q, None)
        else
          var id := q.tasks[hs[0]].id;
          var claimed := QueueModel.MarkProcessing(QueueModel.Transition(q, id, Working), id);
          HooksModel.Injection(if |hs| > 1 then Requeue(claimed, hs[1..]) else claimed, Some(hs[0]))
    ensures HooksModel.RaisedCall(q) == HooksModel.Injection(HooksModel.PreLlmCall(q).q, None)
  {
    HooksModel.DrainedArePending(q);
  }

  /** The steps of `complete` and `cancel` on a popped task, one after the other. */
  ghost function CompletedTask(p: Queue, h: nat, t: Task, response: string): (r: Queue)
    requires p.Valid() && h < |p.tasks| && t == p.tasks[h]
    ensures r.Valid()
  {
    PublishedValid(Respond(p, h, response), [h]);
    hide NoDuplicates, OldestAfter;
    var a := if t.returned then p else Publish(Respond(p, h, response), [h]);
    var c := a.(completed := a.completed.Put(t.id, h), completeCount := a.completeCount + 1,
                states := a.states[t.id := Completed]);
    c.(oldest := OldestAfter(c.tasks, c.pending, c.oldest, t.created))
  }

  ghost function CanceledTask(p: Queue, h: nat, t: Task): (r: Queue)
    requires p.Valid() && h < |p.tasks| && t == p.tasks[h]
    ensures r.Valid()
  {
    hide NoDuplicates, OldestAfter;
    var a := Publish(Respond(p, h, CANCELED), [h]);
    var c := a.(completed := a.completed.Put(t.id, h), cancelCount := a.cancelCount + 1,
                states := a.states[t.id := Canceled]);
    c.(oldest := OldestAfter(c.tasks, c.pending, c.oldest, t.created))
  }

  /** The queue after `processing.discard(id)` and `pending.pop(id)`. */
  ghost function Popped(q: Queue, id: string): (r: Queue)
    requires q.Valid()
    ensures r.Valid()
  {
    q.(processing := q.processing - {id}, pending := q.pending.Pop(id))
  }

  lemma CompleteUnfolds(q: Queue, id: string, response: string, limits: Limits)
    requires q.Valid()
    ensures var l := QueueModel.Complete(q, id, response, limits);
      if id in q.pending.vals then
        var h := q.pending.vals[id];
        var o := CompletedTask(Popped(q, id), h, q.tasks[h], response);
        Publish(l.q, l.events) == o.(completed := Trim(o.completed, limits.cacheMax))
      else Publish(l.q, l.events) == q.(processing := q.processing - {id})
  {
    var l := QueueModel.Complete(q, id, response, limits);
    PublishNothing(l.q);
    if id in q.pending.vals {
      SameOldestAfter(q, Popped(q, id), q.pending.vals[id], response);
    }
  }

  /** Answering the popped task does not change the cached minimum that is left. */
  lemma SameOldestAfter(q: Queue, p: Queue, h: nat, response: string)
    requires q.Valid() && p.Valid() && h < |q.tasks| && p.tasks == q.tasks
    ensures var a := Publish(Respond(p, h, response), [h]);
      && a == Publish(p, [h]).(tasks := a.tasks)
      && a.tasks == Readied(Respond(q, h, response).tasks, [h])
      && OldestAfter(a.tasks, p.pending, p.oldest, q.tasks[h].created)
        == OldestAfter(q.tasks, p.pending, p.oldest, q.tasks[h].created)
  {
    var a := Publish(Respond(p, h, response), [h]);
    MinOfSameAges(q.tasks, a.tasks, p.pending, p.pending.keys);
  }

  lemma CancelUnfolds(q: Queue, id: string)
    requires q.Valid()
    ensures var l := QueueModel.Cancel(q, id);
      if id in q.pending.vals then
        var h := q.pending.vals[id];
        Publish(l.q, l.events) == CanceledTask(Popped(q, id), h, q.tasks[h])
      else Publish(l.q, l.events) == q.(processing := q.processing - {id})
  {
    var l := QueueModel.Cancel(q, id);
    PublishNothing(l.q);
    if id in q.pending.vals {
      SameOldestAfter(q, Popped(q, id), q.pending.vals[id], CANCELED);
    }
  }

  lemma RequeueRound(q: Queue, hs: seq<nat>)
    requires q.Valid() && Known(q, hs) && hs != []
    ensures Known(Restore(q, hs[0]), hs[1..]) && Requeue(q, hs) == Requeue(Restore(q, hs[0]), hs[1..])
  {
  }

  lemma PassIs(q: Queue, cutoff: real)
    requires q.Valid()
    ensures WatchdogModel.Pass(q, cutoff) ==
      if q.oldest.Some? && q.oldest.value >= cutoff then Locked(q, []) else WatchdogModel.FullPass(q, cutoff)
  {
  }

  lemma FullPassIs(q: Queue, cutoff: real)
    requires q.Valid() && Known(q, Values(q.pending))
    ensures WatchdogModel.FullPass(q, cutoff) == WatchdogModel.Scan(q, Values(q.pending), cutoff)
  {
  }

  lemma RespondPublished(q: Queue, events: seq<nat>, h: nat, response: string)
    requires q.Valid() && h < |q.tasks|
    ensures Publish(q, events).Valid() && |Publish(q, events).tasks| == |q.tasks|
    ensures Publish(Respond(Publish(q, events), h, response), [h]) == Publish(Respond(q, h, response), events + [h])
  {
    assert Publish(Respond(Publish(q, events), h, response), [h]).tasks
        == Publish(Respond(q, h, response), events + [h]).tasks;
  }

  lemma DropUnfolds(q: Queue, i: nat)
    requires q.Valid() && i < |q.pending.keys|
    ensures var id := q.pending.keys[i];
      && id in q.pending.vals && q.pending.vals[id] < |q.tasks|
      && var h := q.pending.vals[id];
         var p := q.(pending := q.pending.Pop(id));
         var a := Publish(Respond(p, h, OVERFLOW), [h]);
         Publish(DropIdle(q, i), [h]) == a.(oldest := OldestAfter(a.tasks, a.pending, a.oldest, q.tasks[h].created))
  {
    assert q.pending.keys[i] in q.pending.keys;
    var id := q.pending.keys[i];
    SameOldestAfter(q, q.(pending := q.pending.Pop(id)), q.pending.vals[id], OVERFLOW);
  }

  /** `Enqueue` with its events published, in the steps of the method. */
  lemma EnqueueUnfolds(q: Queue, id: string, created: real, limits: Limits)
    requires q.Valid()
    ensures var r := QueueModel.Enqueue(q, id, created, limits);
      if Accepts(q, id, limits) then
        && id !in q.pending.vals
        && var e := Evict(Insert(q, id, created), limits.cacheMax);
           var p := Publish(e.q, e.events);
           Publish(r.q, r.events) == p.(enqueueCount := p.enqueueCount + 1 - |e.events|)
      else Publish(r.q, r.events) == q
  {
    PublishNothing(q);
    if Accepts(q, id, limits) {
      EvictEffect(Insert(q, id, created), limits.cacheMax);
    }
  }
}
