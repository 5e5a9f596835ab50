/** Every interleaving of the actors that share the task queue: HTTP handlers waiting for an
    answer, the LLM hooks, cancel calls, webhook-failure callbacks and the orphan watchdog.

    A lock-held body is one step.  What is done without the lock is split: reading a response,
    writing one, setting an event, setting `_returned` and the watchdog's two readings of the
    cached minimum are separate steps; listing the pending tasks is one.  The `ready.set()` calls
    of a lock-held body may be delayed arbitrarily (`due`). */
module TaskRuntime {
  import opened OrderedDicts
  import opened QueueModel
  import opened QueueRuns

  /** Where a thread stands between two steps. */
  datatype Thread =
    | Waiting(h: nat)                  // handler inside `ready.wait`
    | TimedOut(h: nat)                 // handler read no response, `_returned` not yet set
    | Collecting(h: nat)               // handler saw a response, about to read it again
    | Replied(h: nat, response: string)  // ... and handed it to its client
    | Failing(h: nat)                  // webhook callback holding the task it looked up
    | FailingUnanswered(h: nat)        // ... which read no response and is about to write one
    | Comparing(cutoff: real)          // watchdog that read a cached minimum, about to read it again
    | Crashed                          // ... and compared None with its cutoff
    | Listing(cutoff: real)            // watchdog about to list the pending tasks
    | Scanning(cutoff: real, known: nat, rest: seq<nat>)
                                       // watchdog with tasks left to look at; `known` counts
                                       // the tasks that existed when the pass decided
    | ScanningUnanswered(cutoff: real, known: nat, rest: seq<nat>)
                                       // ... having read no response on the first of them
    | Finished

  /** `due` are the events still to be set. */
  datatype Sys = Sys(q: Queue, threads: seq<Thread>, due: multiset<nat>)

  datatype Action =
    | LockHeld(op: Op)
    | SetReady(h: nat)
    | HandlerWakes(i: nat)
    | HandlerReturns(i: nat)
    | HandlerCollects(i: nat)
    | WebhookFails(id: string)
    | WebhookReads(i: nat)
    | WebhookWrites(i: nat)
    | WatchdogStarts(cutoff: real)
    | WatchdogCompares(i: nat)
    | WatchdogLists(i: nat)
    | WatchdogReads(i: nat)
    | WatchdogWrites(i: nat)

  predicate InRange(t: Thread, n: nat) {
    match t
    case Waiting(h) => h < n
    case TimedOut(h) => h < n
    case Collecting(h) => h < n
    case Replied(h, _) => h < n
    case Failing(h) => h < n
    case FailingUnanswered(h) => h < n
    case Comparing(_) => true
    case Crashed => true
    case Listing(_) => true
    case Scanning(_, known, rest) => known <= n && forall k :: 0 <= k < |rest| ==> rest[k] < n
    case ScanningUnanswered(_, known, rest) => known <= n && rest != [] && forall k :: 0 <= k < |rest| ==> rest[k] < n
    case Finished => true
  }

  ghost predicate WellFormed(s: Sys) {
    && s.q.Valid()
    && (forall i :: 0 <= i < |s.threads| ==> InRange(s.threads[i], |s.q.tasks|))
    && (forall h :: h in s.due ==> h < |s.q.tasks|)
  }

  // ---- the steps ----

  /** The thread of a handler whose `enqueue` was accepted. */
  function Handlers(q: Queue, op: Op, limits: Limits): seq<Thread> {
    if op.OpEnqueue? && Accepts(q, op.id, limits) then [Waiting(|q.tasks|)] else []
  }

  function Write(s: Sys, h: nat, response: string, i: nat, next: Thread): Sys
    requires s.q.Valid() && h < |s.q.tasks| && i < |s.threads|
  {
    Sys(Respond(s.q, h, response), s.threads[i := next], s.due + multiset{h})
  }

  function Become(s: Sys, i: nat, next: Thread): Sys
    requires i < |s.threads|
  {
    s.(threads := s.threads[i := next])
  }

  /** The watchdog's early `continue`: the cached minimum is at least the cutoff.  The program
      reads it twice, without the lock: for the test against None and for the comparison. */
  predicate Skips(q: Queue, cutoff: real) {
    q.oldest.Some? && q.oldest.value >= cutoff
  }

  /** Thread `i` exists and holds only handles of existing tasks. */
  predicate Live(s: Sys, i: nat) {
    i < |s.threads| && InRange(s.threads[i], |s.q.tasks|)
  }

  /** One step; an action that is not enabled changes nothing. */
  function Next(s: Sys, a: Action, limits: Limits): (r: Sys)
    requires s.q.Valid()
    ensures r.q.Valid()
  {
    match a
    case LockHeld(op) =>
      var l := Apply(s.q, op, limits);
      Sys(l.q, s.threads + Handlers(s.q, op, limits), s.due + multiset(l.events))
    case SetReady(h) =>
      if h !in s.due || h >= |s.q.tasks| then s else
        Sys(s.q.(tasks := s.q.tasks[h := s.q.tasks[h].(ready := true)]), s.threads, s.due - multiset{h})
    case HandlerWakes(i) =>
      if Live(s, i) && s.threads[i].Waiting? then
        var h := s.threads[i].h;
        Become(s, i, if s.q.tasks[h].response == None then TimedOut(h) else Collecting(h))
      else s
    case HandlerCollects(i) =>
      if Live(s, i) && s.threads[i].Collecting? then
        var h := s.threads[i].h;
        Become(s, i, match s.q.tasks[h].response case Some(r) => Replied(h, r) case None => s.threads[i])
      else s
    case HandlerReturns(i) =>
      if Live(s, i) && s.threads[i].TimedOut? then
        var h := s.threads[i].h;
        Become(s.(q := s.q.(tasks := s.q.tasks[h := s.q.tasks[h].(returned := true)])), i, Finished)
      else s
    case WebhookFails(id) =>
      (match Find(s.q, id)
       case Some(h) => s.(threads := s.threads + [Failing(h)])
       case None => s)
    case WebhookReads(i) =>
      if Live(s, i) && s.threads[i].Failing? then
        var h := s.threads[i].h;
        Become(s, i, if s.q.tasks[h].response == None then FailingUnanswered(h) else Finished)
      else s
    case WebhookWrites(i) =>
      if Live(s, i) && s.threads[i].FailingUnanswered? then
        Write(s, s.threads[i].h, UNDELIVERED, i, Finished)
      else s
    case WatchdogStarts(cutoff) =>
      s.(threads := s.threads + [if s.q.oldest == None then Listing(cutoff) else Comparing(cutoff)])
    case WatchdogCompares(i) =>
      if Live(s, i) && s.threads[i].Comparing? then
        var cutoff := s.threads[i].cutoff;
        Become(s, i,
          if s.q.oldest == None then Crashed
          else if Skips(s.q, cutoff) then Scanning(cutoff, |s.q.tasks|, [])
          else Listing(cutoff))
      else s
    case WatchdogLists(i) =>
      if Live(s, i) && s.threads[i].Listing? then
        Become(s, i, Scanning(s.threads[i].cutoff, |s.q.tasks|, Values(s.q.pending)))
      else s
    case WatchdogReads(i) =>
      if Live(s, i) && s.threads[i].Scanning? && s.threads[i].rest != [] then
        var t := s.threads[i];
        var task := s.q.tasks[t.rest[0]];
        Become(s, i,
          if task.created < t.cutoff && task.response == None then ScanningUnanswered(t.cutoff, t.known, t.rest)
          else Scanning(t.cutoff, t.known, t.rest[1..]))
      else s
    case WatchdogWrites(i) =>
      if Live(s, i) && s.threads[i].ScanningUnanswered? then
        var t := s.threads[i];
        Write(s, t.rest[0], ORPHANED, i, Scanning(t.cutoff, t.known, t.rest[1..]))
      else s
  }

  // ---- the invariant ----

  /** Nobody is forgotten: a task without a response is still queued unless its handler has
      already returned; and the cached minimum bounds the age of every task still waited for. */
  ghost predicate NoneForgotten(q: Queue) {
    && (forall h :: 0 <= h < |q.tasks| ==> q.tasks[h].response.Some? || q.tasks[h].returned || q.Stored(h))
    && (forall h :: 0 <= h < |q.tasks| && q.tasks[h].response == None && !q.tasks[h].returned ==>
          q.oldest.Some? && q.oldest.value <= q.tasks[h].created)
  }

  /** A response is there exactly when the event is set or about to be. */
  ghost predicate ResponsesPublished(s: Sys) {
    forall h :: 0 <= h < |s.q.tasks| ==> (s.q.tasks[h].response.Some? <==> s.q.tasks[h].ready || h in s.due)
  }

  /** An old task the pass has dealt with, or has yet to look at. */
  ghost predicate Covered(q: Queue, cutoff: real, known: nat, rest: seq<nat>) {
    forall h :: 0 <= h < known && h < |q.tasks| && q.tasks[h].created < cutoff ==>
      q.tasks[h].response.Some? || q.tasks[h].returned || h in rest
  }

  ghost predicate PassOnTrack(q: Queue, t: Thread) {
    match t
    case Collecting(h) => h < |q.tasks| && q.tasks[h].response.Some?
    case Scanning(cutoff, known, rest) => Covered(q, cutoff, known, rest)
    case ScanningUnanswered(cutoff, known, rest) =>
      && Covered(q, cutoff, known, rest)
      && rest != [] && rest[0] < |q.tasks| && q.tasks[rest[0]].created < cutoff
    case _ => true
  }

  ghost predicate Inv(s: Sys) {
    && WellFormed(s)
    && NoneForgotten(s.q)
    && ResponsesPublished(s)
    && forall i :: 0 <= i < |s.threads| ==> PassOnTrack(s.q, s.threads[i])
  }

  // ---- the lock-held steps ----

  /** The step from `q` to `r` writes the responses of `events` and nothing else on the tasks;
      new tasks start unanswered. */
  ghost predicate Answers(q: Queue, r: Queue, events: seq<nat>) {
    && |q.tasks| <= |r.tasks|
    && (forall h :: h in events ==> h < |r.tasks| && r.tasks[h].response.Some?)
    && (forall h :: 0 <= h < |q.tasks| ==>
          && r.tasks[h].(response := q.tasks[h].response) == q.tasks[h]
          && (h !in events ==> r.tasks[h].response == q.tasks[h].response))
    && (forall h :: |q.tasks| <= h < |r.tasks| ==>
          !r.tasks[h].ready && !r.tasks[h].returned && (h !in events ==> r.tasks[h].response == None))
  }

  lemma MinBounds(q: Queue, id: string)
    requires q.Valid() && NoneForgotten(q) && id in q.pending.vals
    ensures var p := q.pending.Pop(id); var h := q.pending.vals[id];
      var o := OldestAfter(q.tasks, p, q.oldest, q.tasks[h].created);
      forall g :: 0 <= g < |q.tasks| && g != h && q.tasks[g].response == None && !q.tasks[g].returned ==>
        o.Some? && o.value <= q.tasks[g].created
  {
    var p, h := q.pending.Pop(id), q.pending.vals[id];
    forall g | 0 <= g < |q.tasks| && g != h && q.tasks[g].response == None && !q.tasks[g].returned
      ensures q.tasks[g].id in p.vals && p.vals[q.tasks[g].id] == g && p.keys != []
    {
      assert q.Stored(g);
      assert q.tasks[g].id in p.keys;
    }
  }

  lemma DropKeepsNoneForgotten(q: Queue, i: nat)
    requires q.Valid() && NoneForgotten(q) && i < |q.pending.keys|
    ensures NoneForgotten(DropIdle(q, i))
  {
    var id := q.pending.keys[i];
    assert id in q.pending.keys;
    MinBounds(q, id);
    forall h | 0 <= h < |q.tasks| && h != q.pending.vals[id] && q.Stored(h) ensures DropIdle(q, i).Stored(h) {
    }
  }

  lemma {:induction false} EvictKeepsNoneForgotten(q: Queue, cap: nat)
    requires q.Valid() && NoneForgotten(q)
    ensures NoneForgotten(Evict(q, cap).q)
    decreases |q.pending.keys|
  {
    var i := FirstIdle(q.pending.keys, q.processing);
    if |q.pending.keys| > cap && i < |q.pending.keys| {
      hide NoneForgotten;
      DropKeepsNoneForgotten(q, i);
      EvictKeepsNoneForgotten(DropIdle(q, i), cap);
    }
  }

  lemma InsertKeepsNoneForgotten(q: Queue, id: string, created: real)
    requires q.Valid() && NoneForgotten(q) && id !in q.pending.vals
    ensures NoneForgotten(Insert(q, id, created))
  {
    hide OrderedDict.Put, NoDuplicates, Queue.Stores;
    var r := Insert(q, id, created);
    forall h | 0 <= h < |q.tasks| && q.Stored(h) ensures r.Stored(h) {
    }
  }

  /** What finishing a pending task leaves. */
  lemma FinishShape(q: Queue, op: Op, limits: Limits)
    requires q.Valid() && (op.OpComplete? || op.OpCancel?) && op.id in q.pending.vals
    ensures var h := q.pending.vals[op.id]; var r := Apply(q, op, limits).q;
      && h < |q.tasks| == |r.tasks|
      && r.pending == q.pending.Pop(op.id)
      && r.oldest == OldestAfter(q.tasks, q.pending.Pop(op.id), q.oldest, q.tasks[h].created)
      && (r.tasks[h].response.Some? || r.tasks[h].returned)
      && forall g :: 0 <= g < |q.tasks| && g != h ==> r.tasks[g] == q.tasks[g]
  {
    hide OrderedDict.Put, OrderedDict.Pop, NoDuplicates, Trim, OldestAfter;
  }

  /** Taking a task out forgets nobody, if that task is answered or abandoned. */
  lemma LeavingForgetsNobody(q: Queue, r: Queue, id: string, h: nat)
    requires q.Valid() && NoneForgotten(q) && id in q.pending.vals && h == q.pending.vals[id]
    requires h < |q.tasks| == |r.tasks| && r.pending.vals == q.pending.vals - {id}
    requires r.tasks[h].response.Some? || r.tasks[h].returned
    requires forall g :: 0 <= g < |q.tasks| && g != h ==> r.tasks[g] == q.tasks[g]
    requires forall g :: 0 <= g < |q.tasks| && g != h && q.tasks[g].response == None && !q.tasks[g].returned ==>
      r.oldest.Some? && r.oldest.value <= q.tasks[g].created
    ensures NoneForgotten(r)
  {
    hide NoDuplicates;
    forall g | 0 <= g < |r.tasks| && r.tasks[g].response == None && !r.tasks[g].returned ensures r.Stored(g) {
      assert g != h && q.Stored(g);
    }
  }

  lemma FinishKeepsNoneForgotten(q: Queue, op: Op, limits: Limits)
    requires q.Valid() && NoneForgotten(q) && (op.OpComplete? || op.OpCancel?)
    ensures NoneForgotten(Apply(q, op, limits).q)
  {
    if op.id in q.pending.vals {
      PendingValid(q);
      FinishShape(q, op, limits);
      MinBounds(q, op.id);
      hide *;
      LeavingForgetsNobody(q, Apply(q, op, limits).q, op.id, q.pending.vals[op.id]);
    }
  }

  lemma RequeueKeepsNoneForgotten(q: Queue, hs: seq<nat>)
    requires q.Valid() && Known(q, hs) && NoneForgotten(q)
    ensures NoneForgotten(Requeue(q, hs))
  {
    RequeueEffect(q, hs);
  }

  lemma ApplyKeepsNoneForgotten(q: Queue, op: Op, limits: Limits)
    requires q.Valid() && NoneForgotten(q)
    ensures NoneForgotten(Apply(q, op, limits).q)
  {
    match op
    case OpEnqueue(id, created) =>
      if Accepts(q, id, limits) {
        InsertKeepsNoneForgotten(q, id, created);
        EvictKeepsNoneForgotten(Insert(q, id, created), limits.cacheMax);
      }
    case OpComplete(_, _) => FinishKeepsNoneForgotten(q, op, limits);
    case OpCancel(_) => FinishKeepsNoneForgotten(q, op, limits);
    case OpRequeue(hs) => if Known(q, hs) { RequeueKeepsNoneForgotten(q, hs); }
    case OpTransition(_, _) =>
    case OpMark(_) =>
  }

  lemma EnqueueAnswers(q: Queue, id: string, created: real, limits: Limits)
    requires q.Valid()
    ensures var r := Enqueue(q, id, created, limits); Answers(q, r.q, r.events)
  {
    if Accepts(q, id, limits) {
      var m := Insert(q, id, created);
      EvictEffect(m, limits.cacheMax);
      var r := Enqueue(q, id, created, limits);
      assert r.q.tasks == Evict(m, limits.cacheMax).q.tasks && r.events == Evict(m, limits.cacheMax).events;
      hide *;
      EvictedAnswers(q, m, r.q, r.events, Task(id, created, None, false, false));
    }
  }

  lemma EvictedAnswers(q: Queue, m: Queue, r: Queue, events: seq<nat>, task: Task)
    requires m.tasks == q.tasks + [task] && task.response == None && !task.ready && !task.returned
    requires OnlyAnswers(m.tasks, r.tasks, events)
    requires forall h :: h in events ==> Dropped(m, r, h)
    ensures Answers(q, r, events)
  {
  }

  lemma ApplyAnswers(q: Queue, op: Op, limits: Limits)
    requires q.Valid()
    ensures Answers(q, Apply(q, op, limits).q, Apply(q, op, limits).events)
  {
    match op
    case OpEnqueue(id, created) => EnqueueAnswers(q, id, created, limits);
    case OpRequeue(hs) => if Known(q, hs) { RequeueEffect(q, hs); }
    case OpComplete(_, _) => FinishAnswers(q, op, limits);
    case OpCancel(_) => FinishAnswers(q, op, limits);
    case OpTransition(_, _) =>
    case OpMark(_) =>
  }

  lemma FinishAnswers(q: Queue, op: Op, limits: Limits)
    requires q.Valid() && (op.OpComplete? || op.OpCancel?)
    ensures Answers(q, Apply(q, op, limits).q, Apply(q, op, limits).events)
  {
    var l := Apply(q, op, limits);
    if op.id in q.pending.vals && l.events != [] {
      var h := q.pending.vals[op.id];
      AnsweredOne(q, l.q, h);
    }
  }

  lemma AnsweredOne(q: Queue, r: Queue, h: nat)
    requires h < |q.tasks| == |r.tasks|
    requires r.tasks == q.tasks[h := q.tasks[h].(response := r.tasks[h].response)] && r.tasks[h].response.Some?
    ensures Answers(q, r, [h])
  {
  }

  // ---- preservation ----

  /** A step that only adds answers and tasks keeps every pass on track. */
  lemma AnswersKeepPass(q: Queue, r: Queue, events: seq<nat>, t: Thread)
    requires Answers(q, r, events) && InRange(t, |q.tasks|) && PassOnTrack(q, t)
    ensures InRange(t, |r.tasks|) && PassOnTrack(r, t)
  {
  }

  lemma AnswersPublished(s: Sys, r: Sys, events: seq<nat>)
    requires WellFormed(s) && ResponsesPublished(s) && Answers(s.q, r.q, events)
    requires r.due == s.due + multiset(events)
    ensures ResponsesPublished(r) && forall h :: h in r.due ==> h < |r.q.tasks|
  {
    assert forall h :: h in r.due <==> h in s.due || h in events;
  }

  lemma LockHeldKeepsInv(s: Sys, op: Op, limits: Limits)
    requires Inv(s)
    ensures Inv(Next(s, LockHeld(op), limits))
  {
    var l := Apply(s.q, op, limits);
    var s' := Next(s, LockHeld(op), limits);
    ApplyAnswers(s.q, op, limits);
    ApplyKeepsNoneForgotten(s.q, op, limits);
    HandlersInRange(s.q, op, limits);
    AnswersPublished(s, s', l.events);
    hide Apply, NoneForgotten, Handlers, Answers, ResponsesPublished, Queue.Valid;
    forall i | 0 <= i < |s'.threads|
      ensures InRange(s'.threads[i], |s'.q.tasks|) && PassOnTrack(s'.q, s'.threads[i])
    {
      if i < |s.threads| {
        AnswersKeepPass(s.q, l.q, l.events, s.threads[i]);
      } else {
        assert s'.threads[i] in Handlers(s.q, op, limits);
      }
    }
  }

  lemma HandlersInRange(q: Queue, op: Op, limits: Limits)
    requires q.Valid()
    ensures forall t :: t in Handlers(q, op, limits) ==> t.Waiting? && t.h < |Apply(q, op, limits).q.tasks|
  {
    if op.OpEnqueue? && Accepts(q, op.id, limits) {
      EvictEffect(Insert(q, op.id, op.created), limits.cacheMax);
    }
  }

  /** Answering a task or marking it returned keeps the queue's part of the invariant. */
  lemma TouchKeeps(q: Queue, h: nat, t: Task)
    requires q.Valid() && NoneForgotten(q) && h < |q.tasks|
    requires t.id == q.tasks[h].id && t.created == q.tasks[h].created
    requires (q.tasks[h].response.Some? ==> t.response.Some?) && (q.tasks[h].returned ==> t.returned)
    ensures var r := q.(tasks := q.tasks[h := t]);
      && r.Valid() && NoneForgotten(r)
      && forall th :: PassOnTrack(q, th) ==> PassOnTrack(r, th)
  {
    var r := q.(tasks := q.tasks[h := t]);
    forall g | 0 <= g < |q.tasks| && q.Stored(g) ensures r.Stored(g) {
    }
  }

  lemma WriteKeepsInv(s: Sys, h: nat, response: string, i: nat, next: Thread)
    requires Inv(s) && h < |s.q.tasks| && i < |s.threads|
    requires InRange(next, |s.q.tasks|) && PassOnTrack(Respond(s.q, h, response), next)
    ensures Inv(Write(s, h, response, i, next))
  {
    TouchKeeps(s.q, h, s.q.tasks[h].(response := Some(response)));
    hide NoneForgotten, PassOnTrack;
  }

  lemma BecomeKeepsInv(s: Sys, i: nat, next: Thread)
    requires Inv(s) && i < |s.threads|
    requires InRange(next, |s.q.tasks|) && PassOnTrack(s.q, next)
    ensures Inv(Become(s, i, next))
  {
  }

  lemma SpawnKeepsInv(s: Sys, next: Thread)
    requires Inv(s)
    requires InRange(next, |s.q.tasks|) && PassOnTrack(s.q, next)
    ensures Inv(s.(threads := s.threads + [next]))
  {
  }

  lemma SetReadyKeepsInv(s: Sys, h: nat, limits: Limits)
    requires Inv(s)
    ensures Inv(Next(s, SetReady(h), limits))
  {
    if h in s.due {
      TouchKeeps(s.q, h, s.q.tasks[h].(ready := true));
      hide NoneForgotten, PassOnTrack;
    }
  }

  lemma ReturnKeepsInv(s: Sys, i: nat, limits: Limits)
    requires Inv(s)
    ensures Inv(Next(s, HandlerReturns(i), limits))
  {
    if Live(s, i) && s.threads[i].TimedOut? {
      var h := s.threads[i].h;
      TouchKeeps(s.q, h, s.q.tasks[h].(returned := true));
      hide NoneForgotten;
    }
  }

  /** The watchdog's early exit is safe: below the cutoff nobody is waiting. */
  lemma SkipCovers(q: Queue, cutoff: real)
    requires NoneForgotten(q) && Skips(q, cutoff)
    ensures Covered(q, cutoff, |q.tasks|, [])
  {
  }

  lemma ListCovers(q: Queue, cutoff: real)
    requires q.Valid() && NoneForgotten(q)
    ensures Covered(q, cutoff, |q.tasks|, Values(q.pending))
    ensures forall k :: 0 <= k < |Values(q.pending)| ==> Values(q.pending)[k] < |q.tasks|
  {
    forall k | 0 <= k < |q.pending.keys| ensures Values(q.pending)[k] < |q.tasks| {
      assert q.pending.keys[k] in q.pending.keys;
    }
    forall h | 0 <= h < |q.tasks| && q.Stored(h) ensures h in Values(q.pending) {
      assert q.tasks[h].id in q.pending.keys;
      var k :| 0 <= k < |q.pending.keys| && q.pending.keys[k] == q.tasks[h].id;
      assert Values(q.pending)[k] == h;
    }
  }

  lemma ScanStepCovers(q: Queue, cutoff: real, known: nat, rest: seq<nat>)
    requires Covered(q, cutoff, known, rest) && rest != [] && rest[0] < |q.tasks|
    requires q.tasks[rest[0]].created >= cutoff || q.tasks[rest[0]].response.Some?
    ensures Covered(q, cutoff, known, rest[1..])
  {
  }

  lemma NextKeepsInv(s: Sys, a: Action, limits: Limits)
    requires Inv(s)
    ensures Inv(Next(s, a, limits))
  {
    match a
    case LockHeld(op) => LockHeldKeepsInv(s, op, limits);
    case SetReady(h) => SetReadyKeepsInv(s, h, limits);
    case HandlerReturns(i) => ReturnKeepsInv(s, i, limits);
    case WebhookFails(id) =>
      if Find(s.q, id).Some? { SpawnKeepsInv(s, Failing(Find(s.q, id).value)); }
    case WatchdogStarts(cutoff) =>
      SpawnKeepsInv(s, if s.q.oldest == None then Listing(cutoff) else Comparing(cutoff));
    case HandlerWakes(_) => WaiterStepKeepsInv(s, a, limits);
    case HandlerCollects(_) => WaiterStepKeepsInv(s, a, limits);
    case WebhookReads(_) => WaiterStepKeepsInv(s, a, limits);
    case WebhookWrites(_) => WaiterStepKeepsInv(s, a, limits);
    case WatchdogCompares(i) => CompareKeepsInv(s, i, limits);
    case WatchdogLists(i) => ListKeepsInv(s, i, limits);
    case WatchdogReads(i) => ScanReadKeepsInv(s, i, limits);
    case WatchdogWrites(i) => ScanWriteKeepsInv(s, i, limits);
  }

  lemma WaiterStepKeepsInv(s: Sys, a: Action, limits: Limits)
    requires Inv(s)
    requires a.HandlerWakes? || a.HandlerCollects? || a.WebhookReads? || a.WebhookWrites?
    ensures Inv(Next(s, a, limits))
  {
    if a.i < |s.threads| {
      var t := s.threads[a.i];
      assert InRange(t, |s.q.tasks|);
      match a
      case HandlerWakes(i) =>
        if t.Waiting? {
          BecomeKeepsInv(s, i, if s.q.tasks[t.h].response == None then TimedOut(t.h) else Collecting(t.h));
        }
      case HandlerCollects(i) =>
        if t.Collecting? {
          assert PassOnTrack(s.q, t);
          BecomeKeepsInv(s, i, Replied(t.h, s.q.tasks[t.h].response.value));
        }
      case WebhookReads(i) =>
        if t.Failing? {
          BecomeKeepsInv(s, i, if s.q.tasks[t.h].response == None then FailingUnanswered(t.h) else Finished);
        }
      case WebhookWrites(i) =>
        if t.FailingUnanswered? { WriteKeepsInv(s, t.h, UNDELIVERED, i, Finished); }
      hide Inv;
    }
  }

  lemma CompareKeepsInv(s: Sys, i: nat, limits: Limits)
    requires Inv(s)
    ensures Inv(Next(s, WatchdogCompares(i), limits))
  {
    if i < |s.threads| && s.threads[i].Comparing? {
      var t := s.threads[i];
      var next :=
        if s.q.oldest == None then Crashed
        else if Skips(s.q, t.cutoff) then Scanning(t.cutoff, |s.q.tasks|, [])
        else Listing(t.cutoff);
      if next.Scanning? {
        SkipCovers(s.q, t.cutoff);
      }
      BecomeKeepsInv(s, i, next);
      hide Inv;
    }
  }

  lemma ListKeepsInv(s: Sys, i: nat, limits: Limits)
    requires Inv(s)
    ensures Inv(Next(s, WatchdogLists(i), limits))
  {
    if i < |s.threads| && s.threads[i].Listing? {
      ListCovers(s.q, s.threads[i].cutoff);
      BecomeKeepsInv(s, i, Scanning(s.threads[i].cutoff, |s.q.tasks|, Values(s.q.pending)));
      hide Inv;
    }
  }

  lemma ScanReadKeepsInv(s: Sys, i: nat, limits: Limits)
    requires Inv(s)
    ensures Inv(Next(s, WatchdogReads(i), limits))
  {
    if i < |s.threads| && s.threads[i].Scanning? && s.threads[i].rest != [] {
      var t := s.threads[i];
      assert InRange(t, |s.q.tasks|) && PassOnTrack(s.q, t);
      var task := s.q.tasks[t.rest[0]];
      if task.created < t.cutoff && task.response == None {
        BecomeKeepsInv(s, i, ScanningUnanswered(t.cutoff, t.known, t.rest));
      } else {
        ScanStepCovers(s.q, t.cutoff, t.known, t.rest);
        BecomeKeepsInv(s, i, Scanning(t.cutoff, t.known, t.rest[1..]));
      }
      hide Inv;
    }
  }

  lemma ScanWriteKeepsInv(s: Sys, i: nat, limits: Limits)
    requires Inv(s)
    ensures Inv(Next(s, WatchdogWrites(i), limits))
  {
    if i < |s.threads| && s.threads[i].ScanningUnanswered? {
      var t := s.threads[i];
      assert InRange(t, |s.q.tasks|) && PassOnTrack(s.q, t);
      var r := Respond(s.q, t.rest[0], ORPHANED);
      assert Covered(r, t.cutoff, t.known, t.rest);
      ScanStepCovers(r, t.cutoff, t.known, t.rest);
      WriteKeepsInv(s, t.rest[0], ORPHANED, i, Scanning(t.cutoff, t.known, t.rest[1..]));
      hide Inv;
    }
  }

  // ---- whole runs ----

  function Start(): (s: Sys)
    ensures s.q.Valid()
  {
    Sys(EmptyQueue(), [], multiset{})
  }

  function Run(s: Sys, actions: seq<Action>, limits: Limits): (end: Sys)
    requires s.q.Valid()
    ensures end.q.Valid()
    decreases |actions|
  {
    if actions == [] then s else Run(Next(s, actions[0], limits), actions[1..], limits)
  }

  lemma {:induction false} RunKeepsInv(s: Sys, actions: seq<Action>, limits: Limits)
    requires Inv(s)
    ensures Inv(Run(s, actions, limits))
    decreases |actions|
  {
    if actions != [] {
      hide Next;
      NextKeepsInv(s, actions[0], limits);
      hide Inv;
      RunKeepsInv(Next(s, actions[0], limits), actions[1..], limits);
    }
  }

  /** The handlers' side of safety, for every task ever returned by `enqueue`. */
  ghost predicate NobodyLost(s: Sys) {
    forall h :: 0 <= h < |s.q.tasks| ==>
      && (s.q.tasks[h].ready || s.q.tasks[h].returned || s.q.Stored(h) || h in s.due)
      && (s.q.tasks[h].ready ==> s.q.tasks[h].response.Some?)
  }

  /** In every interleaving, each task ever returned by `enqueue` is ready, or its handler has
      returned, or it is still queued under its id, unless its event is about to be set; and a
      ready task has a response. */
  lemma NoLostWaiter(actions: seq<Action>, limits: Limits)
    ensures NobodyLost(Run(Start(), actions, limits))
  {
    RunKeepsInv(Start(), actions, limits);
    hide Run;
    InvLosesNobody(Run(Start(), actions, limits));
  }

  lemma InvLosesNobody(s: Sys)
    requires Inv(s)
    ensures NobodyLost(s)
  {
  }

  /** A finished watchdog pass: every task older than its cutoff that existed when it decided. */
  ghost predicate PassLeavesNoOrphan(s: Sys, t: Thread) {
    t.Scanning? && t.rest == [] ==>
      t.known <= |s.q.tasks| &&
      forall h :: 0 <= h < t.known && s.q.tasks[h].created < t.cutoff ==>
        s.q.tasks[h].ready || s.q.tasks[h].returned || h in s.due
  }

  /** When a watchdog pass is over, no task older than its cutoff that existed when the pass
      decided is still waited for: each is ready, returned, or has its response with the event
      about to be set.  This holds for the early `continue` too, and for every interleaving,
      any requeue included. */
  lemma WatchdogLeavesNoOrphan(actions: seq<Action>, limits: Limits)
    ensures var s := Run(Start(), actions, limits); forall t :: t in s.threads ==> PassLeavesNoOrphan(s, t)
  {
    RunKeepsInv(Start(), actions, limits);
    hide Run;
    InvLeavesNoOrphan(Run(Start(), actions, limits));
  }

  lemma InvLeavesNoOrphan(s: Sys)
    requires Inv(s)
    ensures forall t :: t in s.threads ==> PassLeavesNoOrphan(s, t)
  {
    forall t | t in s.threads ensures PassLeavesNoOrphan(s, t) {
      assert InRange(t, |s.q.tasks|) && PassOnTrack(s.q, t);
      hide NoneForgotten, Queue.Valid;
    }
  }

  /** The watchdog answers no task that is not older than its cutoff. */
  lemma WatchdogAnswersOld(actions: seq<Action>, i: nat, limits: Limits)
    ensures var s := Run(Start(), actions, limits);
      i < |s.threads| && s.threads[i].ScanningUnanswered? ==>
        var t := s.threads[i];
        t.rest != [] && t.rest[0] < |s.q.tasks| && s.q.tasks[t.rest[0]].created < t.cutoff
  {
    RunKeepsInv(Start(), actions, limits);
    hide Run;
    var s := Run(Start(), actions, limits);
    if i < |s.threads| {
      assert PassOnTrack(s.q, s.threads[i]);
    }
    hide NoneForgotten, Covered, Queue.Valid, ResponsesPublished;
  }

  // ---- the watchdog's life ----

  /** A pass dies at its second reading of the cached minimum exactly when, by then, nothing is
      pending: with an exact minimum, the queue was emptied since the first reading. */
  lemma WatchdogDiesIff(s: Sys, i: nat, limits: Limits)
    requires Inv(s) && OldestExact(s.q) && i < |s.threads| && s.threads[i].Comparing?
    ensures Next(s, WatchdogCompares(i), limits).threads[i] == Crashed <==> s.q.pending.keys == []
  {
    assert InRange(s.threads[i], |s.q.tasks|);
    assert s.q.pending.keys != [] ==> s.q.pending.keys[0] in s.q.pending.vals by {
      assert s.q.pending.keys != [] ==> s.q.pending.keys[0] in s.q.pending.keys;
    }
  }

  /** Such a run, from any state with one pending task: a pass starts, the task is completed, the
      pass goes on.  It dies exactly when the cached minimum was that task's creation time. */
  lemma WatchdogCanDie(s: Sys, id: string, response: string, cutoff: real, limits: Limits)
    requires Inv(s) && s.q.pending.keys == [id]
    ensures id in s.q.pending.vals && s.q.pending.vals[id] < |s.q.tasks|
    ensures var r := Run(s,
        [WatchdogStarts(cutoff), LockHeld(OpComplete(id, response)), WatchdogCompares(|s.threads|)], limits);
      && |r.threads| == |s.threads| + 1
      && (r.threads[|s.threads|] == Crashed <==> s.q.oldest == Some(s.q.tasks[s.q.pending.vals[id]].created))
  {
    LastOneLeaves(s.q, id, response, limits);
    hide *;
    var i := |s.threads|;
    var a1, a2, a3 := WatchdogStarts(cutoff), LockHeld(OpComplete(id, response)), WatchdogCompares(i);
    StartsPass(s, cutoff, limits);
    var s1 := Next(s, a1, limits);
    FinishSpawnsNothing(s1, id, response, limits);
    CrashesIff(Next(s1, a2, limits), i, limits);
    RunOfThree(s, a1, a2, a3, limits);
  }

  lemma LastOneLeaves(q: Queue, id: string, response: string, limits: Limits)
    requires q.Valid() && q.pending.keys == [id]
    ensures id in q.pending.vals && q.pending.vals[id] < |q.tasks|
    ensures var o := Apply(q, OpComplete(id, response), limits).q.oldest;
      o == if q.oldest == Some(q.tasks[q.pending.vals[id]].created) then None else q.oldest
  {
    assert id in q.pending.keys;
    FinishShape(q, OpComplete(id, response), limits);
    assert |q.pending.Pop(id).keys| == 0;
    hide Apply;
  }

  lemma StartsPass(s: Sys, cutoff: real, limits: Limits)
    requires s.q.Valid()
    ensures Next(s, WatchdogStarts(cutoff), limits) ==
      s.(threads := s.threads + [if s.q.oldest == None then Listing(cutoff) else Comparing(cutoff)])
  {
  }

  lemma FinishSpawnsNothing(s: Sys, id: string, response: string, limits: Limits)
    requires s.q.Valid()
    ensures var r := Next(s, LockHeld(OpComplete(id, response)), limits);
      r.threads == s.threads && r.q == Apply(s.q, OpComplete(id, response), limits).q
  {
    assert s.threads + [] == s.threads;
    hide Apply;
  }

  lemma CrashesIff(s: Sys, i: nat, limits: Limits)
    requires s.q.Valid() && i < |s.threads| && (s.threads[i].Comparing? || s.threads[i].Listing?)
    ensures var r := Next(s, WatchdogCompares(i), limits);
      && |r.threads| == |s.threads|
      && (r.threads[i] == Crashed <==> s.threads[i].Comparing? && s.q.oldest == None)
  {
  }

  lemma RunOfThree(s: Sys, a: Action, b: Action, c: Action, limits: Limits)
    requires s.q.Valid()
    ensures Run(s, [a, b, c], limits) == Next(Next(Next(s, a, limits), b, limits), c, limits)
  {
    hide Next;
    assert [a, b, c][1..] == [b, c] && [b, c][1..] == [c] && [c][1..] == [];
    var s1 := Next(s, a, limits);
    assert Run(s, [a, b, c], limits) == Run(s1, [b, c], limits);
    assert Run(s1, [b, c], limits) == Run(Next(s1, b, limits), [c], limits);
  }

  /** Such states exist: after a first arrival. */
  lemma OneTaskPending(id: string, created: real, limits: Limits)
    requires limits.maxPending >= 1 && limits.cacheMax >= 1
    ensures var s := Run(Start(), [LockHeld(OpEnqueue(id, created))], limits);
      Inv(s) && OldestExact(s.q) && s.q.pending.keys == [id]
  {
    hide *;
    var a := LockHeld(OpEnqueue(id, created));
    StartKeepsInv();
    RunKeepsInv(Start(), [a], limits);
    FirstArrival(id, created, limits);
    RunOfOne(Start(), a, limits);
  }

  lemma StartKeepsInv()
    ensures Inv(Start())
  {
  }

  lemma RunOfOne(s: Sys, a: Action, limits: Limits)
    requires s.q.Valid()
    ensures Run(s, [a], limits) == Next(s, a, limits)
  {
    hide Next;
    assert [a][1..] == [];
    assert Run(s, [a], limits) == Run(Next(s, a, limits), [], limits);
  }

  lemma FirstArrival(id: string, created: real, limits: Limits)
    requires limits.maxPending >= 1 && limits.cacheMax >= 1
    ensures var q := Next(Start(), LockHeld(OpEnqueue(id, created)), limits).q;
      OldestExact(q) && q.pending.keys == [id]
  {
    EnqueueKeepsOldest(EmptyQueue(), id, created, limits);
    EvictNothing(Insert(EmptyQueue(), id, created), limits.cacheMax);
    hide IsOldest, Evict, OldestWith;
  }

  lemma EvictNothing(q: Queue, cap: nat)
    requires q.Valid() && |q.pending.keys| <= cap
    ensures Evict(q, cap).q == q && Evict(q, cap).events == []
  {
  }
}
