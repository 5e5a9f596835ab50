/** What a handler hands to its client, told from the steps that ran: the text of the last one that
    answered its task. */
module TaskAnswers {
  import opened OrderedDicts
  import opened QueueModel
  import opened QueueRuns
  import opened TaskRuntime
  import HooksModel

  /** The tasks an arrival crowds out: the longest-queued idle ones, the new one last. */
  function CrowdedOut(q: Queue, id: string, created: real, limits: Limits): seq<nat>
    requires q.Valid()
  {
    if id in q.pending.vals || |q.pending.keys| >= limits.maxPending then []
    else FirstFew(Drain(Insert(q, id, created), {}), |q.pending.keys| + 1 - limits.cacheMax)
  }

  /** The text that a step leaves on task `h`, if it answers it. */
  function AnswerTo(s: Sys, a: Action, h: nat, limits: Limits): Option<string>
    requires s.q.Valid()
  {
    match a
    case LockHeld(OpComplete(id, response)) =>
      if id in s.q.pending.vals && s.q.pending.vals[id] == h && !s.q.tasks[h].returned then Some(response) else None
    case LockHeld(OpCancel(id)) =>
      if id in s.q.pending.vals && s.q.pending.vals[id] == h then Some("(canceled)") else None
    case LockHeld(OpEnqueue(id, created)) =>
      if h in CrowdedOut(s.q, id, created, limits) then Some("(dropped — queue overflow)") else None
    case WebhookWrites(i) =>
      if Live(s, i) && s.threads[i] == FailingUnanswered(h) then Some("(webhook delivery failed)") else None
    case WatchdogWrites(i) =>
      if Live(s, i) && s.threads[i].ScanningUnanswered? && s.threads[i].rest[0] == h then
        Some("(orphaned — no response)")
      else None
    case _ => None
  }

  /** The last answer to task `h` in a run. */
  function LastAnswer(s: Sys, actions: seq<Action>, h: nat, limits: Limits): Option<string>
    requires s.q.Valid()
    decreases |actions|
  {
    if actions == [] then None
    else
      var later := LastAnswer(Next(s, actions[0], limits), actions[1..], h, limits);
      if later.Some? then later else AnswerTo(s, actions[0], h, limits)
  }

  function ResponseOf(q: Queue, h: nat): Option<string> {
    if h < |q.tasks| then q.tasks[h].response else None
  }

  ghost predicate Answered(s: Sys, r: Sys, answer: Option<string>, h: nat) {
    ResponseOf(r.q, h) == if answer.Some? then answer else ResponseOf(s.q, h)
  }

  // ---- one step ----

  lemma ArrivalAnswers(s: Sys, id: string, created: real, h: nat, limits: Limits)
    requires s.q.Valid()
    ensures var a := LockHeld(OpEnqueue(id, created)); Answered(s, Next(s, a, limits), AnswerTo(s, a, h, limits), h)
  {
    if Accepts(s.q, id, limits) {
      var m := Insert(s.q, id, created);
      InsertedResponse(s.q, id, created, h);
      EvictEffect(m, limits.cacheMax);
      EvictDropsOldestIdle(m, limits.cacheMax);
      EvictedResponse(m, Evict(m, limits.cacheMax).q, Evict(m, limits.cacheMax).events, h);
      hide Evict, Insert, Drain, FirstFew, Evicted, ResponseOf, Queue.Valid;
      EnqueuedResponse(s.q, id, created, h, limits);
    }
  }

  lemma InsertedResponse(q: Queue, id: string, created: real, h: nat)
    requires q.Valid() && id !in q.pending.vals
    ensures ResponseOf(Insert(q, id, created), h) == ResponseOf(q, h)
    ensures |Insert(q, id, created).pending.keys| == |q.pending.keys| + 1
  {
    hide OldestWith, NoDuplicates;
  }

  lemma EvictedResponse(m: Queue, r: Queue, events: seq<nat>, h: nat)
    requires Evicted(m, r, events)
    ensures ResponseOf(r, h) == if h in events then Some("(dropped — queue overflow)") else ResponseOf(m, h)
  {
    hide Shrinks, SameRest;
  }

  lemma EnqueuedResponse(q: Queue, id: string, created: real, h: nat, limits: Limits)
    requires q.Valid() && Accepts(q, id, limits)
    ensures id !in q.pending.vals
    ensures ResponseOf(Apply(q, OpEnqueue(id, created), limits).q, h) ==
      ResponseOf(Evict(Insert(q, id, created), limits.cacheMax).q, h)
  {
    hide Evict, Insert, Queue.Valid;
  }

  lemma FinishResponse(s: Sys, op: Op, h: nat, limits: Limits)
    requires s.q.Valid() && (op.OpComplete? || op.OpCancel?)
    ensures Answered(s, Next(s, LockHeld(op), limits), AnswerTo(s, LockHeld(op), h, limits), h)
  {
    hide *;
    NextQueue(s, op, limits);
    PublishedResponse(Apply(s.q, op, limits).q, Apply(s.q, op, limits).events, h);
    FinishedResponse(s.q, op, h, limits);
    AnswerToFinish(s, op, h, limits);
    if h < |s.q.tasks| {
      ResponseOfKnown(s.q, h);
    }
    AnsweredIs(s, Next(s, LockHeld(op), limits), AnswerTo(s, LockHeld(op), h, limits), h);
  }

  lemma FinishedResponse(q: Queue, op: Op, h: nat, limits: Limits)
    requires q.Valid() && (op.OpComplete? || op.OpCancel?)
    ensures ResponseOf(Step(q, op, limits), h) ==
      if op.id in q.pending.vals && q.pending.vals[op.id] == h && h < |q.tasks| then
        if op.OpCancel? then Some("(canceled)")
        else if q.tasks[h].returned then q.tasks[h].response
        else Some(op.response)
      else ResponseOf(q, h)
  {
    if op.id in q.pending.vals {
      FinishAnswersTask(q, op, limits);
    } else {
      FinishOfUnknown(q, op, limits);
    }
    hide Step, Queue.Valid;
  }

  lemma AnswerToFinish(s: Sys, op: Op, h: nat, limits: Limits)
    requires s.q.Valid() && (op.OpComplete? || op.OpCancel?)
    ensures op.id in s.q.pending.vals ==> s.q.pending.vals[op.id] < |s.q.tasks|
    ensures AnswerTo(s, LockHeld(op), h, limits) ==
      if op.id in s.q.pending.vals && s.q.pending.vals[op.id] == h then
        if op.OpCancel? then Some("(canceled)")
        else if s.q.tasks[h].returned then None
        else Some(op.response)
      else None
  {
  }

  lemma AnsweredIs(s: Sys, r: Sys, answer: Option<string>, h: nat)
    requires ResponseOf(r.q, h) == if answer.Some? then answer else ResponseOf(s.q, h)
    ensures Answered(s, r, answer, h)
  {
  }

  lemma ResponseOfKnown(q: Queue, h: nat)
    requires h < |q.tasks|
    ensures ResponseOf(q, h) == q.tasks[h].response
  {
  }

  lemma NextQueue(s: Sys, op: Op, limits: Limits)
    requires s.q.Valid()
    ensures var l := Apply(s.q, op, limits);
      Next(s, LockHeld(op), limits).q == l.q && Step(s.q, op, limits) == Publish(l.q, l.events)
  {
    hide Apply, Handlers, Publish;
  }

  lemma PublishedResponse(q: Queue, events: seq<nat>, h: nat)
    ensures ResponseOf(Publish(q, events), h) == ResponseOf(q, h)
  {
  }

  lemma RequeueResponse(s: Sys, hs: seq<nat>, h: nat, limits: Limits)
    requires s.q.Valid()
    ensures Answered(s, Next(s, LockHeld(OpRequeue(hs)), limits), None, h)
  {
    if Known(s.q, hs) {
      RequeueEffect(s.q, hs);
    }
    hide Requeue, Queue.Valid;
  }

  /** A step leaves task `h` the text it answers it with, if it does, and otherwise as it was. */
  lemma StepAnswers(s: Sys, a: Action, h: nat, limits: Limits)
    requires s.q.Valid()
    ensures Answered(s, Next(s, a, limits), AnswerTo(s, a, h, limits), h)
  {
    match a
    case LockHeld(OpEnqueue(id, created)) => ArrivalAnswers(s, id, created, h, limits);
    case LockHeld(OpComplete(_, _)) => FinishResponse(s, a.op, h, limits);
    case LockHeld(OpCancel(_)) => FinishResponse(s, a.op, h, limits);
    case LockHeld(OpRequeue(hs)) => RequeueResponse(s, hs, h, limits);
    case LockHeld(OpTransition(_, _)) =>
    case LockHeld(OpMark(_)) =>
    case _ => ThreadStepAnswers(s, a, h, limits);
  }

  lemma ThreadStepAnswers(s: Sys, a: Action, h: nat, limits: Limits)
    requires s.q.Valid() && !a.LockHeld?
    ensures Answered(s, Next(s, a, limits), AnswerTo(s, a, h, limits), h)
  {
    hide Queue.Valid;
  }

  // ---- runs ----

  lemma {:induction false} RunAnswers(s: Sys, actions: seq<Action>, h: nat, limits: Limits)
    requires s.q.Valid()
    ensures Answered(s, TaskRuntime.Run(s, actions, limits), LastAnswer(s, actions, h, limits), h)
    decreases |actions|
  {
    if actions != [] {
      StepAnswers(s, actions[0], h, limits);
      RunAnswers(Next(s, actions[0], limits), actions[1..], h, limits);
      hide Next, AnswerTo, ResponseOf;
    }
  }

  /** In every interleaving, the response on a task is the text of the last step that answered it:
      its completion, its cancel, an arrival that crowded it out, the watchdog or a failed webhook. */
  lemma ResponseIsLastAnswer(actions: seq<Action>, h: nat, limits: Limits)
    ensures ResponseOf(TaskRuntime.Run(Start(), actions, limits).q, h) == LastAnswer(Start(), actions, h, limits)
  {
    RunAnswers(Start(), actions, h, limits);
    hide TaskRuntime.Run, LastAnswer;
  }

  /** Step `a` takes thread `i` to `t`. */
  predicate Becomes(s: Sys, a: Action, i: nat, t: Thread, limits: Limits)
    requires s.q.Valid()
  {
    var r := Next(s, a, limits);
    i < |r.threads| && r.threads[i] == t
  }

  /** What a handler does with its task in any interleaving: it gives up exactly when no step has
      answered the task, and otherwise hands its client the text of the last one that has when it
      collects. */
  lemma HandlerRepliesLastAnswer(actions: seq<Action>, i: nat, h: nat, limits: Limits)
    requires i < |TaskRuntime.Run(Start(), actions, limits).threads|
    ensures var s, answer := TaskRuntime.Run(Start(), actions, limits), LastAnswer(Start(), actions, h, limits);
      && (s.threads[i] == Waiting(h) ==>
            Becomes(s, HandlerWakes(i), i, if answer == None then TimedOut(h) else Collecting(h), limits))
      && (s.threads[i] == Collecting(h) ==>
            answer.Some? && Becomes(s, HandlerCollects(i), i, Replied(h, answer.value), limits))
  {
    StartKeepsInv();
    RunKeepsInv(Start(), actions, limits);
    ResponseIsLastAnswer(actions, h, limits);
    hide TaskRuntime.Run, LastAnswer;
    ThreadReplies(TaskRuntime.Run(Start(), actions, limits), i, h, limits);
  }

  lemma ThreadReplies(s: Sys, i: nat, h: nat, limits: Limits)
    requires Inv(s) && i < |s.threads|
    ensures s.threads[i] == Waiting(h) ==>
      Becomes(s, HandlerWakes(i), i, if ResponseOf(s.q, h) == None then TimedOut(h) else Collecting(h), limits)
    ensures s.threads[i] == Collecting(h) ==>
      && ResponseOf(s.q, h).Some?
      && Becomes(s, HandlerCollects(i), i, Replied(h, ResponseOf(s.q, h).value), limits)
  {
    assert InRange(s.threads[i], |s.q.tasks|) && PassOnTrack(s.q, s.threads[i]);
    hide NoneForgotten, ResponsesPublished, Queue.Valid;
  }

  // ---- an answer stands ----

  /** Nothing is about to answer task `h`: it is answered, no longer queued, and no watchdog or
      webhook callback has read it unanswered. */
  ghost predicate Settled(s: Sys, h: nat) {
    && h < |s.q.tasks| && s.q.tasks[h].response.Some? && !s.q.Stored(h)
    && forall i :: 0 <= i < |s.threads| ==> !AboutToAnswer(s.threads[i], h)
  }

  predicate AboutToAnswer(t: Thread, h: nat) {
    t == FailingUnanswered(h) || (t.ScanningUnanswered? && t.rest != [] && t.rest[0] == h)
  }

  /** The only step that could queue task `h` again. */
  predicate RequeuesTask(a: Action, h: nat) {
    a.LockHeld? && a.op.OpRequeue? && h in a.op.hs
  }

  lemma SettledNoAnswer(s: Sys, a: Action, h: nat, limits: Limits)
    requires WellFormed(s) && Settled(s, h)
    ensures AnswerTo(s, a, h, limits) == None
  {
    if a.LockHeld? && a.op.OpEnqueue? && h in CrowdedOut(s.q, a.op.id, a.op.created, limits) {
      CrowdedOutIsQueued(s.q, a.op.id, a.op.created, h, limits);
    }
    hide CrowdedOut;
  }

  lemma CrowdedOutIsQueued(q: Queue, id: string, created: real, h: nat, limits: Limits)
    requires q.Valid() && h in CrowdedOut(q, id, created, limits)
    ensures h == |q.tasks| || (h < |q.tasks| && q.Stored(h))
  {
    var m := Insert(q, id, created);
    HooksModel.DrainedArePending(m);
    InsertStores(q, id, created, h);
    hide Insert, Drain, Queue.Valid, Queue.Stored;
  }

  lemma InsertStores(q: Queue, id: string, created: real, h: nat)
    requires q.Valid() && id !in q.pending.vals && h < |Insert(q, id, created).tasks| && Insert(q, id, created).Stored(h)
    ensures h == |q.tasks| || (h < |q.tasks| && q.Stored(h))
  {
    hide OldestWith, NoDuplicates;
  }

  /** The queue holds no task it did not hold before but the new one, and those put back. */
  lemma StaysUnqueued(q: Queue, op: Op, h: nat, limits: Limits)
    requires q.Valid() && h < |q.tasks| && !q.Stored(h) && !(op.OpRequeue? && h in op.hs)
    ensures var r := Apply(q, op, limits).q; h < |r.tasks| && !r.Stored(h)
  {
    if op.OpEnqueue? {
      ArrivalLeavesUnqueued(q, op.id, op.created, h, limits);
    } else if op.OpRequeue? {
      RequeueLeavesUnqueued(q, op.hs, h);
    } else {
      hide OrderedDict.Put, OrderedDict.Pop, NoDuplicates, OldestAfter, Trim, Transitions;
    }
  }

  lemma ArrivalLeavesUnqueued(q: Queue, id: string, created: real, h: nat, limits: Limits)
    requires q.Valid() && h < |q.tasks| && !q.Stored(h)
    ensures var r := Enqueue(q, id, created, limits).q; h < |r.tasks| && !r.Stored(h)
  {
    if Accepts(q, id, limits) {
      EvictEffect(Insert(q, id, created), limits.cacheMax);
      EvictedUnqueued(q, id, created, Evict(Insert(q, id, created), limits.cacheMax).q,
                      Evict(Insert(q, id, created), limits.cacheMax).events, h);
      hide Evict, Insert, Queue.Valid;
    }
  }

  lemma EvictedUnqueued(q: Queue, id: string, created: real, r: Queue, events: seq<nat>, h: nat)
    requires q.Valid() && id !in q.pending.vals && Evicted(Insert(q, id, created), r, events)
    requires h < |q.tasks| && !q.Stored(h)
    ensures h < |r.tasks| && !r.Stored(h)
  {
    hide OldestWith, NoDuplicates, Dropped, SameRest;
  }

  lemma {:induction false} RequeueLeavesUnqueued(q: Queue, hs: seq<nat>, h: nat)
    requires q.Valid() && h < |q.tasks| && !q.Stored(h) && h !in hs
    ensures var r := if Known(q, hs) then Requeue(q, hs) else q; h < |r.tasks| && !r.Stored(h)
  {
    if Known(q, hs) {
      RequeueEffect(q, hs);
    }
    hide Requeue, NoDuplicates;
  }

  lemma SettledStays(s: Sys, a: Action, h: nat, limits: Limits)
    requires WellFormed(s) && Settled(s, h) && !RequeuesTask(a, h)
    ensures Settled(Next(s, a, limits), h)
  {
    SettledNoAnswer(s, a, h, limits);
    StepAnswers(s, a, h, limits);
    if a.LockHeld? {
      StaysUnqueued(s.q, a.op, h, limits);
      LockHeldSettled(s, a.op, h, limits);
    } else {
      ThreadStepSettled(s, a, h, limits);
    }
    hide Next, AnswerTo, Settled;
  }

  lemma LockHeldSettled(s: Sys, op: Op, h: nat, limits: Limits)
    requires WellFormed(s) && Settled(s, h)
    requires Answered(s, Next(s, LockHeld(op), limits), None, h)
    requires h < |Apply(s.q, op, limits).q.tasks| && !Apply(s.q, op, limits).q.Stored(h)
    ensures Settled(Next(s, LockHeld(op), limits), h)
  {
    hide Apply, Queue.Valid, Queue.Stored;
  }

  lemma ThreadStepSettled(s: Sys, a: Action, h: nat, limits: Limits)
    requires WellFormed(s) && Settled(s, h) && !a.LockHeld?
    requires Answered(s, Next(s, a, limits), None, h)
    ensures Settled(Next(s, a, limits), h)
  {
    ThreadStepQueue(s, a, h, limits);
    ThreadStepThreads(s, a, h, limits);
    hide Next, WellFormed, AboutToAnswer, Queue.Valid;
  }

  lemma ThreadStepQueue(s: Sys, a: Action, h: nat, limits: Limits)
    requires s.q.Valid() && !a.LockHeld? && h < |s.q.tasks|
    ensures var r := Next(s, a, limits).q; h < |r.tasks| && (r.Stored(h) <==> s.q.Stored(h))
  {
    ThreadStepIds(s, a, h, limits);
    hide Next;
  }

  lemma ThreadStepIds(s: Sys, a: Action, h: nat, limits: Limits)
    requires s.q.Valid() && !a.LockHeld? && h < |s.q.tasks|
    ensures var r := Next(s, a, limits).q;
      r.pending == s.q.pending && |r.tasks| == |s.q.tasks| && r.tasks[h].id == s.q.tasks[h].id
  {
    if !TouchesTask(a) {
      QuietStep(s, a, limits);
      hide Next, Queue.Valid;
    } else {
      hide Queue.Valid, Skips, Find;
    }
  }

  predicate TouchesTask(a: Action) {
    a.WebhookWrites? || a.WatchdogWrites? || a.SetReady? || a.HandlerReturns?
  }

  lemma QuietStep(s: Sys, a: Action, limits: Limits)
    requires s.q.Valid() && !a.LockHeld? && !TouchesTask(a)
    ensures Next(s, a, limits).q == s.q
  {
    hide Queue.Valid, Skips, Find;
  }

  /** A thread comes to answer a task only after reading it unanswered. */
  lemma ThreadStepThreads(s: Sys, a: Action, h: nat, limits: Limits)
    requires s.q.Valid() && !a.LockHeld? && h < |s.q.tasks| && s.q.tasks[h].response.Some?
    requires forall i :: 0 <= i < |s.threads| ==> !AboutToAnswer(s.threads[i], h)
    ensures var r := Next(s, a, limits); forall i :: 0 <= i < |r.threads| ==> !AboutToAnswer(r.threads[i], h)
  {
    hide Queue.Valid, InRange;
  }

  lemma {:induction false} NoMoreAnswers(s: Sys, actions: seq<Action>, h: nat, limits: Limits)
    requires Inv(s) && Settled(s, h) && forall a :: a in actions ==> !RequeuesTask(a, h)
    ensures LastAnswer(s, actions, h, limits) == None
    decreases |actions|
  {
    if actions != [] {
      assert actions[0] in actions && forall a :: a in actions[1..] ==> a in actions;
      SettledNoAnswer(s, actions[0], h, limits);
      SettledStays(s, actions[0], h, limits);
      NextKeepsInv(s, actions[0], limits);
      NoMoreAnswers(Next(s, actions[0], limits), actions[1..], h, limits);
      hide Next, AnswerTo, Settled, Inv, WellFormed;
    }
  }

  lemma {:induction false} LastAnswerSplits(s: Sys, before: seq<Action>, after: seq<Action>, h: nat, limits: Limits)
    requires s.q.Valid()
    ensures var m := TaskRuntime.Run(s, before, limits);
      && TaskRuntime.Run(s, before + after, limits) == TaskRuntime.Run(m, after, limits)
      && (LastAnswer(m, after, h, limits).Some? ==>
            LastAnswer(s, before + after, h, limits) == LastAnswer(m, after, h, limits))
    decreases |before|
  {
    hide Next, AnswerTo;
    if before == [] {
      assert before + after == after;
    } else {
      assert (before + after)[1..] == before[1..] + after;
      LastAnswerSplits(Next(s, before[0], limits), before[1..], after, h, limits);
    }
  }

  lemma CompletionSettles(s: Sys, id: string, response: string, limits: Limits)
    requires Inv(s) && id in s.q.pending.vals
    requires var h := s.q.pending.vals[id];
      h < |s.q.tasks| && !s.q.tasks[h].returned && forall i :: 0 <= i < |s.threads| ==> !AboutToAnswer(s.threads[i], h)
    ensures var h, a := s.q.pending.vals[id], LockHeld(OpComplete(id, response));
      AnswerTo(s, a, h, limits) == Some(response) && Settled(Next(s, a, limits), h)
  {
    var h, a := s.q.pending.vals[id], LockHeld(OpComplete(id, response));
    FinishShape(s.q, OpComplete(id, response), limits);
    StepAnswers(s, a, h, limits);
    FinishSpawnsNothing(s, id, response, limits);
    hide Apply, Next, NoneForgotten, ResponsesPublished, PassOnTrack, NoDuplicates;
  }

  /** The completion of a queued task reaches its client: unless the handler has given up, or the
      watchdog or a webhook callback has read the task unanswered and is about to write, or the
      task is put back later, whatever else runs the completion's text stays on the task, and the
      handler that collects it replies with it. */
  lemma CompletionIsReturned(before: seq<Action>, id: string, response: string, after: seq<Action>, i: nat, limits: Limits)
    requires var s := TaskRuntime.Run(Start(), before, limits);
      && id in s.q.pending.vals && s.q.pending.vals[id] < |s.q.tasks|
      && var h := s.q.pending.vals[id];
         && !s.q.tasks[h].returned
         && (forall j :: 0 <= j < |s.threads| ==> !AboutToAnswer(s.threads[j], h))
         && (forall a :: a in after ==> !RequeuesTask(a, h))
    ensures var h := TaskRuntime.Run(Start(), before, limits).q.pending.vals[id];
      var end := TaskRuntime.Run(Start(), before + ([LockHeld(OpComplete(id, response))] + after), limits);
      && ResponseOf(end.q, h) == Some(response)
      && (i < |end.threads| && end.threads[i] == Collecting(h) ==>
            Becomes(end, HandlerCollects(i), i, Replied(h, response), limits))
  {
    hide *;
    var s, a := TaskRuntime.Run(Start(), before, limits), LockHeld(OpComplete(id, response));
    var h, rest := s.q.pending.vals[id], [a] + after;
    StartKeepsInv();
    RunKeepsInv(Start(), before, limits);
    CompletionSettles(s, id, response, limits);
    NextKeepsInv(s, a, limits);
    InvValid(s);
    NoMoreAnswers(Next(s, a, limits), after, h, limits);
    FirstThenNone(s, a, after, h, limits);
    LastAnswerSplits(Start(), before, rest, h, limits);
    ResponseIsLastAnswer(before + rest, h, limits);
    var end := TaskRuntime.Run(Start(), before + rest, limits);
    if i < |end.threads| {
      HandlerRepliesLastAnswer(before + rest, i, h, limits);
    }
  }

  lemma InvValid(s: Sys)
    requires Inv(s)
    ensures s.q.Valid()
  {
  }

  lemma FirstThenNone(s: Sys, a: Action, after: seq<Action>, h: nat, limits: Limits)
    requires s.q.Valid() && LastAnswer(Next(s, a, limits), after, h, limits) == None
    ensures LastAnswer(s, [a] + after, h, limits) == AnswerTo(s, a, h, limits)
  {
    hide Next, AnswerTo;
    assert ([a] + after)[1..] == after;
  }
}
