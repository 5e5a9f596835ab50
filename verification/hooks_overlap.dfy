/** Two overlapping `pre_llm_call`s, step by step: each call locks the queue once to drain, once
    for the transition, once to mark and once to put the rest back, and anything may happen in
    between. */
module HooksOverlap {
  import opened OrderedDicts
  import opened QueueModel
  import opened QueueRuns
  import opened HooksModel

  /** Where a call stands; `hs` is what it drained. */
  datatype Call =
    | NotCalled
    | Drained(hs: seq<nat>)
    | Moved(hs: seq<nat>)
    | Marked(hs: seq<nat>)
    | Returned(task: Option<nat>)

  /** The handles a call holds exist. */
  predicate Holds(q: Queue, c: Call) {
    match c
    case NotCalled => true
    case Returned(_) => true
    case _ => c.hs != [] && Known(q, c.hs)
  }

  /** One locked step of a call. */
  function Advance(q: Queue, c: Call): (r: (Queue, Call))
    requires q.Valid()
    ensures r.0.Valid()
  {
    if !Holds(q, c) then (q, c)
    else
      match c
      case NotCalled =>
        var hs := Drain(q, {});
        (q, if hs == [] then Returned(None) else Drained(hs))
      case Drained(hs) => (Transition(q, q.tasks[hs[0]].id, Working), Moved(hs))
      case Moved(hs) => (MarkProcessing(q, q.tasks[hs[0]].id), Marked(hs))
      case Marked(hs) => (if |hs| > 1 then Requeue(q, hs[1..]) else q, Returned(Some(hs[0])))
      case Returned(_) => (q, c)
  }

  datatype Pair = Pair(q: Queue, first: Call, second: Call)

  /** A step of a call, or an operation of some other thread. */
  datatype Action = First | Second | Other(op: Op)

  function Next(p: Pair, a: Action, limits: Limits): (r: Pair)
    requires p.q.Valid()
    ensures r.q.Valid()
  {
    match a
    case First => var r := Advance(p.q, p.first); Pair(r.0, r.1, p.second)
    case Second => var r := Advance(p.q, p.second); Pair(r.0, p.first, r.1)
    case Other(op) => p.(q := Step(p.q, op, limits))
  }

  function Run(p: Pair, actions: seq<Action>, limits: Limits): (r: Pair)
    requires p.q.Valid()
    ensures r.q.Valid()
    decreases |actions|
  {
    if actions == [] then p else Run(Next(p, actions[0], limits), actions[1..], limits)
  }

  /** Arrivals, completions, cancels and transitions: only these calls mark and requeue. */
  predicate Ordinary(op: Op) {
    op.OpEnqueue? || op.OpComplete? || op.OpCancel? || op.OpTransition?
  }

  predicate OthersOrdinary(actions: seq<Action>) {
    forall a :: a in actions && a.Other? ==> Ordinary(a.op)
  }

  function Steps(actions: seq<Action>, who: Action): nat {
    if actions == [] then 0 else (if actions[0] == who then 1 else 0) + Steps(actions[1..], who)
  }

  // ---- the steps make up the call ----

  /** Taken without interruption, the four steps are the atomic call. */
  lemma FourStepsAreTheCall(q: Queue)
    requires q.Valid()
    ensures var s1 := Advance(q, NotCalled);
      var s2 := Advance(s1.0, s1.1);
      var s3 := Advance(s2.0, s2.1);
      Advance(s3.0, s3.1) == (PreLlmCall(q).q, Returned(PreLlmCall(q).task))
  {
    DrainedArePending(q);
    hide Drain, Requeue, Transitions;
  }

  // ---- following the task drained first ----

  /** Everything ahead of `id` is in `busy`. */
  ghost predicate BusyAhead(keys: seq<string>, id: string, busy: set<string>) {
    forall i, j :: 0 <= j < i < |keys| && keys[i] == id ==> keys[j] in busy
  }

  /** Whatever is queued ahead of `h` is being processed, and so is `h` exactly if `marked`. */
  ghost predicate Follows(q: Queue, h: nat, marked: bool) {
    && h < |q.tasks|
    && (q.Stored(h) ==>
          && (q.tasks[h].id in q.processing <==> marked)
          && BusyAhead(q.pending.keys, q.tasks[h].id, q.processing))
  }

  /** A queue where the same tasks exist under the same ids. */
  ghost predicate SameIds(q: Queue, r: Queue) {
    |q.tasks| <= |r.tasks| && forall h :: 0 <= h < |q.tasks| ==> r.tasks[h].id == q.tasks[h].id
  }

  lemma DrainFollows(q: Queue)
    requires q.Valid() && Drain(q, {}) != []
    ensures var hs := Drain(q, {});
      && Known(q, hs) && q.Stored(hs[0]) && Follows(q, hs[0], false) && hs[0] !in hs[1..]
  {
    DrainedArePending(q);
    DrainFirst(q);
    FirstIdleKey(q);
    DistinctHandles(q);
    var i := FirstIdle(q.pending.keys, q.processing);
    hide Drain, DropIdle, FirstIdle;
    forall a, b | 0 <= b < a < |q.pending.keys| && q.pending.keys[a] == q.pending.keys[i]
      ensures q.pending.keys[b] in q.processing
    {
      assert a == i;
    }
  }

  lemma DistinctHandles(q: Queue)
    requires q.Valid()
    ensures var hs := Drain(q, {}); hs != [] ==> hs[0] !in hs[1..]
  {
    var ks := Idle(q.pending.keys, {} + q.processing);
    IdleDistinct(q.pending.keys, {} + q.processing);
    var hs := Drain(q, {});
    forall i | 0 < i < |hs| ensures hs[i] != hs[0] {
      assert ks[i] in ks && ks[0] in ks;
      assert q.tasks[hs[i]].id == ks[i] && q.tasks[hs[0]].id == ks[0];
    }
  }

  lemma {:induction false} IdleDistinct(keys: seq<string>, skip: set<string>)
    requires NoDuplicates(keys)
    ensures NoDuplicates(Idle(keys, skip))
  {
    if keys != [] {
      IdleDistinct(keys[1..], skip);
      assert keys[0] !in keys[1..];
    }
  }

  /** What a drain finds in front tells whether the task is still there and unmarked. */
  lemma DrainHeadIff(q: Queue, h: nat, marked: bool)
    requires q.Valid() && Follows(q, h, marked)
    ensures Drain(q, {}) != [] && Drain(q, {})[0] == h <==> q.Stored(h) && !marked
  {
    DrainFirst(q);
    DrainedArePending(q);
    FirstIdleKey(q);
    var keys, i := q.pending.keys, FirstIdle(q.pending.keys, q.processing);
    if q.Stored(h) && !marked {
      var j := PlaceOf(q.pending, q.tasks[h].id);
      hide Drain, DropIdle;
      assert keys[j] !in q.processing;
      assert i <= j;
    } else {
      hide Drain, DropIdle, FirstIdle;
    }
  }

  // ---- what keeps following ----

  lemma WithoutBusyAhead(keys: seq<string>, k: string, id: string, busy: set<string>)
    requires NoDuplicates(keys) && BusyAhead(keys, id, busy)
    ensures BusyAhead(Without(keys, k), id, busy - {k})
  {
    WithoutMembers(keys, k);
    var p, r := IndexOf(keys, k), Without(keys, k);
    forall i, j | 0 <= j < i < |r| && r[i] == id ensures r[j] in busy - {k} {
      assert r[j] in r && r[j] != k;
      if p < |keys| {
        assert r[i] == keys[if p <= i then i + 1 else i] && r[j] == keys[if p <= j then j + 1 else j];
      }
      hide Without, IndexOf, NoDuplicates;
    }
  }

  lemma PopFollows(q: Queue, r: Queue, k: string, h: nat, marked: bool)
    requires q.Valid() && r.Valid() && Follows(q, h, marked) && SameIds(q, r)
    requires r.pending == q.pending.Pop(k) && r.processing == q.processing - {k}
    ensures Follows(r, h, marked)
  {
    if r.Stored(h) {
      WithoutBusyAhead(q.pending.keys, k, q.tasks[h].id, q.processing);
      hide Without, NoDuplicates;
    }
  }

  /** A new key at the end, under which another task is stored. */
  lemma PutFollows(q: Queue, r: Queue, id: string, g: nat, h: nat, marked: bool)
    requires q.Valid() && r.Valid() && Follows(q, h, marked) && SameIds(q, r)
    requires id !in q.pending.vals && g != h
    requires r.pending == q.pending.Put(id, g) && r.processing == q.processing
    ensures Follows(r, h, marked)
  {
    if r.Stored(h) {
      assert id != q.tasks[h].id && q.Stored(h);
      forall i, j | 0 <= j < i < |r.pending.keys| && r.pending.keys[i] == q.tasks[h].id
        ensures r.pending.keys[j] in r.processing
      {
        assert i < |q.pending.keys|;
      }
    }
  }

  lemma SameTablesFollow(q: Queue, r: Queue, h: nat, marked: bool)
    requires Follows(q, h, marked) && SameIds(q, r)
    requires r.pending == q.pending && r.processing == q.processing
    ensures Follows(r, h, marked)
  {
  }

  lemma {:induction false} EvictFollows(q: Queue, cap: nat, h: nat, marked: bool)
    requires q.Valid() && Follows(q, h, marked)
    ensures Follows(Evict(q, cap).q, h, marked) && SameIds(q, Evict(q, cap).q)
    decreases |q.pending.keys|
  {
    var i := FirstIdle(q.pending.keys, q.processing);
    if |q.pending.keys| > cap && i < |q.pending.keys| {
      var k, d := q.pending.keys[i], DropIdle(q, i);
      DropShape(q, i);
      assert q.processing - {k} == q.processing;
      hide Follows, DropIdle, SameIds;
      PopFollows(q, d, k, h, marked);
      EvictFollows(d, cap, h, marked);
      SameIdsTrans(q, d, Evict(d, cap).q);
    }
  }

  lemma DropShape(q: Queue, i: nat)
    requires q.Valid() && i < |q.pending.keys|
    ensures var d := DropIdle(q, i);
      SameIds(q, d) && d.pending == q.pending.Pop(q.pending.keys[i]) && d.processing == q.processing
  {
  }

  lemma SameIdsTrans(q: Queue, m: Queue, r: Queue)
    requires SameIds(q, m) && SameIds(m, r)
    ensures SameIds(q, r)
  {
  }

  lemma ArriveFollows(q: Queue, id: string, created: real, limits: Limits, h: nat, marked: bool)
    requires q.Valid() && Follows(q, h, marked)
    ensures var r := Step(q, OpEnqueue(id, created), limits); Follows(r, h, marked) && SameIds(q, r)
  {
    var l := Enqueue(q, id, created, limits);
    if Accepts(q, id, limits) {
      var m := Insert(q, id, created);
      InsertShape(q, id, created);
      hide Follows, SameIds, Insert, Evict;
      PutFollows(q, m, id, |q.tasks|, h, marked);
      EvictFollows(m, limits.cacheMax, h, marked);
      SameIdsTrans(q, m, l.q);
      SameTablesFollow(Evict(m, limits.cacheMax).q, l.q, h, marked);
    }
    PublishFollows(q, l.q, l.events, h, marked);
  }

  lemma InsertShape(q: Queue, id: string, created: real)
    requires q.Valid() && id !in q.pending.vals
    ensures var m := Insert(q, id, created);
      SameIds(q, m) && m.pending == q.pending.Put(id, |q.tasks|) && m.processing == q.processing
  {
  }

  lemma PublishFollows(q: Queue, r: Queue, events: seq<nat>, h: nat, marked: bool)
    requires Follows(r, h, marked) && SameIds(q, r)
    ensures Follows(Publish(r, events), h, marked) && SameIds(q, Publish(r, events))
  {
  }

  lemma FinishFollows(q: Queue, op: Op, limits: Limits, h: nat, marked: bool)
    requires q.Valid() && Follows(q, h, marked) && (op.OpComplete? || op.OpCancel?)
    ensures Follows(Step(q, op, limits), h, marked) && SameIds(q, Step(q, op, limits))
  {
    FinishLeaves(q, op, limits);
    FinishSameIds(q, op, limits);
    var r := Step(q, op, limits);
    hide Step, Follows, SameIds;
    if op.id in q.pending.vals {
      PopFollows(q, r, op.id, h, marked);
    } else {
      UnqueuedFollows(q, r, op.id, h, marked);
    }
  }

  lemma FinishSameIds(q: Queue, op: Op, limits: Limits)
    requires q.Valid() && (op.OpComplete? || op.OpCancel?)
    ensures SameIds(q, Step(q, op, limits))
  {
    var l := Apply(q, op, limits);
    match op
    case OpComplete(id, response) => CompleteSameIds(q, id, response, limits);
    case OpCancel(id) => CancelSameIds(q, id);
    PublishSameIds(q, l.q, l.events);
    hide Complete, Cancel, SameIds;
  }

  lemma CompleteSameIds(q: Queue, id: string, response: string, limits: Limits)
    requires q.Valid()
    ensures SameIds(q, Complete(q, id, response, limits).q)
  {
    hide OrderedDict.Put, OrderedDict.Pop, OldestAfter, Trim, NoDuplicates;
  }

  lemma CancelSameIds(q: Queue, id: string)
    requires q.Valid()
    ensures SameIds(q, Cancel(q, id).q)
  {
    hide OrderedDict.Put, OrderedDict.Pop, OldestAfter, NoDuplicates;
  }

  lemma PublishSameIds(q: Queue, r: Queue, events: seq<nat>)
    requires SameIds(q, r)
    ensures SameIds(q, Publish(r, events))
  {
  }

  lemma UnqueuedFollows(q: Queue, r: Queue, k: string, h: nat, marked: bool)
    requires q.Valid() && Follows(q, h, marked) && SameIds(q, r) && k !in q.pending.vals
    requires r.pending == q.pending && r.processing == q.processing - {k}
    ensures Follows(r, h, marked)
  {
    assert forall j :: 0 <= j < |q.pending.keys| ==> q.pending.keys[j] in q.pending.keys;
  }

  lemma OrdinaryFollows(q: Queue, op: Op, limits: Limits, h: nat, marked: bool)
    requires q.Valid() && Follows(q, h, marked) && Ordinary(op)
    ensures Follows(Step(q, op, limits), h, marked) && SameIds(q, Step(q, op, limits))
  {
    hide Follows, SameIds, Enqueue, Complete, Cancel;
    match op
    case OpEnqueue(id, created) => ArriveFollows(q, id, created, limits, h, marked);
    case OpComplete(_, _) => FinishFollows(q, op, limits, h, marked);
    case OpCancel(_) => FinishFollows(q, op, limits, h, marked);
    case OpTransition(id, to) =>
      var r := Transition(q, id, to);
      PublishNothing(r);
      TransitionShape(q, id, to);
      SameTablesFollow(q, r, h, marked);
  }

  lemma TransitionShape(q: Queue, id: string, to: TaskState)
    ensures var r := Transition(q, id, to);
      SameIds(q, r) && r.pending == q.pending && r.processing == q.processing
  {
  }

  lemma {:induction false} RequeueFollows(q: Queue, hs: seq<nat>, h: nat, marked: bool)
    requires q.Valid() && Known(q, hs) && Follows(q, h, marked) && h !in hs
    ensures Follows(Requeue(q, hs), h, marked) && SameIds(q, Requeue(q, hs))
    decreases |hs|
  {
    if hs != [] {
      var m := Restore(q, hs[0]);
      assert hs[0] in hs && forall g :: g in hs[1..] ==> g in hs;
      if Requeued(q, hs[0]) {
        PutFollows(q, m, q.tasks[hs[0]].id, hs[0], h, marked);
      }
      hide Follows, Restore;
      RequeueFollows(m, hs[1..], h, marked);
    }
  }

  // ---- the first call between the drains ----

  /** The first call drained `hs` and took `n` further steps. */
  predicate Progress(c: Call, hs: seq<nat>, n: nat)
    requires hs != []
  {
    if n == 0 then c == Drained(hs)
    else if n == 1 then c == Moved(hs)
    else if n == 2 then c == Marked(hs)
    else c == Returned(Some(hs[0]))
  }

  lemma FirstStepFollows(q: Queue, c: Call, hs: seq<nat>, n: nat)
    requires q.Valid() && hs != [] && Known(q, hs) && hs[0] !in hs[1..]
    requires Progress(c, hs, n) && Follows(q, hs[0], n >= 2)
    ensures var r := Advance(q, c);
      && Progress(r.1, hs, n + 1) && SameIds(q, r.0)
      && Follows(r.0, hs[0], n + 1 >= 2)
  {
    if n == 0 {
      TransitionShape(q, q.tasks[hs[0]].id, Working);
      SameTablesFollow(q, Transition(q, q.tasks[hs[0]].id, Working), hs[0], false);
      hide Follows, Transition;
    } else if n == 1 {
      assert q.Stored(hs[0]) ==> q.tasks[hs[0]].id in q.pending.vals;
    } else if n == 2 && |hs| > 1 {
      RequeueFollows(q, hs[1..], hs[0], true);
      hide Follows, Requeue;
    }
  }

  lemma KnownStays(q: Queue, r: Queue, hs: seq<nat>)
    requires Known(q, hs) && SameIds(q, r)
    ensures Known(r, hs)
  {
  }

  /** One action between the drains. */
  lemma ActionFollows(p: Pair, a: Action, limits: Limits, hs: seq<nat>, n: nat)
    requires p.q.Valid() && a != Second && (a.Other? ==> Ordinary(a.op))
    requires hs != [] && Known(p.q, hs) && hs[0] !in hs[1..]
    requires Progress(p.first, hs, n) && Follows(p.q, hs[0], n >= 2)
    ensures var r := Next(p, a, limits); var m := if a == First then n + 1 else n;
      && Progress(r.first, hs, m) && Follows(r.q, hs[0], m >= 2) && r.second == p.second
      && SameIds(p.q, r.q) && Known(r.q, hs)
  {
    match a {
      case First => FirstStepFollows(p.q, p.first, hs, n);
      case Other(op) => OrdinaryFollows(p.q, op, limits, hs[0], n >= 2);
    }
    hide Follows, SameIds, Advance, Step, Progress;
    KnownStays(p.q, Next(p, a, limits).q, hs);
  }

  lemma RunFirst(p: Pair, actions: seq<Action>, limits: Limits)
    requires p.q.Valid() && actions != []
    ensures Run(p, actions, limits) == Run(Next(p, actions[0], limits), actions[1..], limits)
    ensures Steps(actions, First) == (if actions[0] == First then 1 else 0) + Steps(actions[1..], First)
    ensures actions[0] in actions && forall a :: a in actions[1..] ==> a in actions
  {
    hide Next;
  }

  lemma RunNone(p: Pair, limits: Limits)
    requires p.q.Valid()
    ensures Run(p, [], limits) == p && Steps([], First) == 0 && SameIds(p.q, p.q)
  {
  }

  lemma OrdinaryRest(actions: seq<Action>)
    requires OthersOrdinary(actions) && actions != []
    ensures OthersOrdinary(actions[1..]) && (actions[0].Other? ==> Ordinary(actions[0].op))
  {
  }

  lemma {:induction false} BetweenFollows(p: Pair, actions: seq<Action>, limits: Limits, hs: seq<nat>, n: nat)
    requires p.q.Valid() && OthersOrdinary(actions) && Second !in actions
    requires hs != [] && Known(p.q, hs) && hs[0] !in hs[1..]
    requires Progress(p.first, hs, n) && Follows(p.q, hs[0], n >= 2)
    ensures var r := Run(p, actions, limits); var m := n + Steps(actions, First);
      && Progress(r.first, hs, m) && Follows(r.q, hs[0], m >= 2) && r.second == p.second
      && SameIds(p.q, r.q)
    decreases |actions|
  {
    hide *;
    if actions == [] {
      RunNone(p, limits);
    } else {
      RunFirst(p, actions, limits);
      OrdinaryRest(actions);
      ActionFollows(p, actions[0], limits, hs, n);
      var r := Next(p, actions[0], limits);
      BetweenFollows(r, actions[1..], limits, hs, if actions[0] == First then n + 1 else n);
      SameIdsTrans(p.q, r.q, Run(r, actions[1..], limits).q);
    }
  }

  // ---- what a call will inject is settled by its drain ----

  /** The task a call that drained will return. */
  function Head(c: Call): Option<nat> {
    match c
    case NotCalled => None
    case Returned(task) => task
    case _ => if c.hs == [] then None else Some(c.hs[0])
  }

  lemma AdvanceKeepsHead(q: Queue, c: Call)
    requires q.Valid() && c != NotCalled
    ensures Advance(q, c).1 != NotCalled && Head(Advance(q, c).1) == Head(c)
  {
  }

  lemma {:induction false} HeadsStay(p: Pair, actions: seq<Action>, limits: Limits)
    requires p.q.Valid() && p.first != NotCalled && p.second != NotCalled
    ensures var r := Run(p, actions, limits);
      && r.first != NotCalled && r.second != NotCalled
      && Head(r.first) == Head(p.first) && Head(r.second) == Head(p.second)
    decreases |actions|
  {
    if actions != [] {
      AdvanceKeepsHead(p.q, p.first);
      AdvanceKeepsHead(p.q, p.second);
      hide Advance, Step, Head;
      HeadsStay(Next(p, actions[0], limits), actions[1..], limits);
    }
  }

  // ---- when both calls inject one task ----

  /** An idle task exists. */
  predicate AnyIdle(q: Queue) {
    FirstIdle(q.pending.keys, q.processing) < |q.pending.keys|
  }

  /** The first idle task. */
  function FrontTask(q: Queue): (h: nat)
    requires q.Valid() && AnyIdle(q)
    ensures h < |q.tasks|
  {
    FirstIdleKey(q);
    q.pending.vals[q.pending.keys[FirstIdle(q.pending.keys, q.processing)]]
  }

  lemma DrainFront(q: Queue)
    requires q.Valid()
    ensures Drain(q, {}) != [] <==> AnyIdle(q)
    ensures AnyIdle(q) ==> Drain(q, {})[0] == FrontTask(q)
  {
    DrainFirst(q);
    hide Drain, DropIdle, FirstIdle;
  }

  /** The state of the two calls when the second one drains: `q` is the queue at the first drain,
      `between` what happened from there on. */
  function Between(q: Queue, between: seq<Action>, limits: Limits): (p: Pair)
    requires q.Valid()
    ensures p.q.Valid()
  {
    Run(Next(Pair(q, NotCalled, NotCalled), First, limits), between, limits)
  }

  /** ... and when everything is over. */
  function Over(q: Queue, between: seq<Action>, after: seq<Action>, limits: Limits): (p: Pair)
    requires q.Valid()
    ensures p.q.Valid()
  {
    Run(Next(Between(q, between, limits), Second, limits), after, limits)
  }

  predicate SameInjected(p: Pair) {
    p.first.Returned? && p.second.Returned? && p.first.task.Some? && p.first.task == p.second.task
  }

  lemma NothingDrained(q: Queue, between: seq<Action>, after: seq<Action>, limits: Limits)
    requires q.Valid() && !AnyIdle(q)
    ensures !SameInjected(Over(q, between, after, limits))
  {
    DrainFront(q);
    var p1 := Next(Pair(q, NotCalled, NotCalled), First, limits);
    assert p1.first == Returned(None);
    FirstStays(p1, between, limits);
    var p2 := Run(p1, between, limits);
    FirstStays(Next(p2, Second, limits), after, limits);
  }

  lemma {:induction false} FirstStays(p: Pair, actions: seq<Action>, limits: Limits)
    requires p.q.Valid() && p.first == Returned(None)
    ensures Run(p, actions, limits).first == Returned(None)
    decreases |actions|
  {
    if actions != [] {
      assert Next(p, actions[0], limits).first == Returned(None);
      hide Next;
      FirstStays(Next(p, actions[0], limits), actions[1..], limits);
    }
  }

  /** For every interleaving in which both calls return, with arrivals, evictions, completions,
      cancels and transitions at any point: they inject the same task if and only if a task was
      idle at the first drain, the second drain came before the first call's mark, and that task
      was still queued at the second drain. */
  lemma InjectTwiceIff(q: Queue, between: seq<Action>, after: seq<Action>, limits: Limits)
    requires q.Valid() && OthersOrdinary(between) && Second !in between
    requires var p := Over(q, between, after, limits); p.first.Returned? && p.second.Returned?
    ensures SameInjected(Over(q, between, after, limits)) <==>
      && AnyIdle(q)
      && Steps(between, First) <= 1
      && var r := Between(q, between, limits).q; FrontTask(q) < |r.tasks| && r.Stored(FrontTask(q))
  {
    hide *;
    DrainFront(q);
    if AnyIdle(q) {
      DrainFollows(q);
      var hs := Drain(q, {});
      var p2, n := Between(q, between, limits), Steps(between, First);
      FirstDrains(q, limits);
      BetweenFollows(Pair(q, Drained(hs), NotCalled), between, limits, hs, 0);
      BetweenIs(q, between, limits);
      FollowsExists(p2.q, hs[0], n >= 2);
      DrainHeadIff(p2.q, hs[0], n >= 2);
      SecondDrains(p2, limits);
      HeadAfterDrain(p2.first, hs, n);
      HeadsStay(Next(p2, Second, limits), after, limits);
      OverIs(q, between, after, limits);
      ReturnedHead(Over(q, between, after, limits));
    } else {
      NothingDrained(q, between, after, limits);
    }
  }

  lemma FirstDrains(q: Queue, limits: Limits)
    requires q.Valid() && Drain(q, {}) != []
    ensures var hs := Drain(q, {});
      && Next(Pair(q, NotCalled, NotCalled), First, limits) == Pair(q, Drained(hs), NotCalled)
      && Progress(Drained(hs), hs, 0)
  {
    hide Drain;
  }

  lemma BetweenIs(q: Queue, between: seq<Action>, limits: Limits)
    requires q.Valid()
    ensures Between(q, between, limits) == Run(Next(Pair(q, NotCalled, NotCalled), First, limits), between, limits)
  {
    hide Run, Next;
  }

  lemma FollowsExists(q: Queue, h: nat, marked: bool)
    requires Follows(q, h, marked)
    ensures h < |q.tasks|
  {
  }

  lemma OverIs(q: Queue, between: seq<Action>, after: seq<Action>, limits: Limits)
    requires q.Valid()
    ensures Over(q, between, after, limits) == Run(Next(Between(q, between, limits), Second, limits), after, limits)
  {
  }

  lemma SecondDrains(p: Pair, limits: Limits)
    requires p.q.Valid() && p.second == NotCalled
    ensures var r := Next(p, Second, limits);
      && r.first == p.first && r.second != NotCalled
      && Head(r.second) == if Drain(p.q, {}) == [] then None else Some(Drain(p.q, {})[0])
  {
    hide Drain;
  }

  lemma HeadAfterDrain(c: Call, hs: seq<nat>, n: nat)
    requires hs != [] && Progress(c, hs, n)
    ensures c != NotCalled && Head(c) == Some(hs[0])
  {
  }

  lemma ReturnedHead(p: Pair)
    requires p.first.Returned? && p.second.Returned?
    ensures SameInjected(p) <==> Head(p.first).Some? && Head(p.first) == Head(p.second)
  {
  }

  /** When nothing but arrivals happens and the cap evicts nobody, as in the program, the schedule
      alone decides: an idle task at the first drain, and the second drain before the mark. */
  lemma InjectTwiceIffBeforeMark(q: Queue, between: seq<Action>, after: seq<Action>, limits: Limits)
    requires q.Valid() && Second !in between && |q.pending.keys| <= limits.maxPending <= limits.cacheMax
    requires forall a :: a in between && a.Other? ==> a.op.OpEnqueue?
    requires var p := Over(q, between, after, limits); p.first.Returned? && p.second.Returned?
    ensures SameInjected(Over(q, between, after, limits)) <==> AnyIdle(q) && Steps(between, First) <= 1
  {
    InjectTwiceIff(q, between, after, limits);
    if AnyIdle(q) {
      DrainFront(q);
      DrainFollows(q);
      var hs := Drain(q, {});
      var p1 := Next(Pair(q, NotCalled, NotCalled), First, limits);
      assert p1 == Pair(q, Drained(hs), NotCalled);
      DrainIsSafe(q, limits);
      hide Drain, Next, FrontTask, AnyIdle, Follows;
      StaysQueued(p1, between, limits, hs, 0);
    }
  }

  /** All of `hs` are queued, and the queue is within a cap that evicts nobody. */
  ghost predicate Safe(q: Queue, hs: seq<nat>, limits: Limits) {
    && Known(q, hs)
    && (forall i :: 0 <= i < |hs| ==> q.Stored(hs[i]))
    && |q.pending.keys| <= limits.maxPending <= limits.cacheMax
  }

  lemma ArriveKeepsSafe(q: Queue, id: string, created: real, limits: Limits, hs: seq<nat>)
    requires q.Valid() && Safe(q, hs, limits)
    ensures Safe(Step(q, OpEnqueue(id, created), limits), hs, limits)
  {
    if Accepts(q, id, limits) {
      var m := Insert(q, id, created);
      InsertShape(q, id, created);
      assert |m.pending.keys| <= limits.cacheMax;
      EvictsNobody(m, limits.cacheMax);
      hide Evict, Insert, OrderedDict.Put;
    } else {
      PublishNothing(q);
    }
  }

  lemma EvictsNobody(q: Queue, cap: nat)
    requires q.Valid() && |q.pending.keys| <= cap
    ensures Evict(q, cap) == Locked(q, [])
  {
  }

  lemma FirstStepKeepsSafe(q: Queue, c: Call, hs: seq<nat>, n: nat, limits: Limits)
    requires q.Valid() && hs != [] && Progress(c, hs, n) && Safe(q, hs, limits)
    ensures var r := Advance(q, c); Progress(r.1, hs, n + 1) && Safe(r.0, hs, limits)
  {
    if n == 2 && |hs| > 1 {
      assert forall i :: 0 <= i < |hs[1..]| ==> hs[1..][i] == hs[i + 1];
      forall i | 0 <= i < |hs[1..]| ensures !Requeued(q, hs[1..][i]) {
        StoredIsNotRequeued(q, hs[i + 1]);
      }
      RequeueOfPendingIsNoOp(q, hs[1..]);
    }
    hide Requeue, Requeued;
  }

  lemma {:induction false} StaysQueued(p: Pair, actions: seq<Action>, limits: Limits, hs: seq<nat>, n: nat)
    requires p.q.Valid() && hs != [] && Progress(p.first, hs, n) && Safe(p.q, hs, limits) && Second !in actions
    requires forall a :: a in actions && a.Other? ==> a.op.OpEnqueue?
    ensures Safe(Run(p, actions, limits).q, hs, limits)
    decreases |actions|
  {
    if actions != [] {
      assert actions[0] in actions && forall a :: a in actions[1..] ==> a in actions;
      match actions[0] {
        case First => FirstStepKeepsSafe(p.q, p.first, hs, n, limits);
        case Other(op) => ArriveKeepsSafe(p.q, op.id, op.created, limits, hs);
      }
      hide Safe, Advance, Step, Progress;
      StaysQueued(Next(p, actions[0], limits), actions[1..], limits, hs, if actions[0] == First then n + 1 else n);
    }
  }

  lemma DrainIsSafe(q: Queue, limits: Limits)
    requires q.Valid() && |q.pending.keys| <= limits.maxPending <= limits.cacheMax
    ensures Safe(q, Drain(q, {}), limits)
  {
    DrainedArePending(q);
    hide Drain;
  }

  // ---- the plain overlap ----

  lemma {:induction false} RunSplits(p: Pair, a: seq<Action>, b: seq<Action>, limits: Limits)
    requires p.q.Valid()
    ensures Run(p, a + b, limits) == Run(Run(p, a, limits), b, limits)
    decreases |a|
  {
    if a == [] {
      assert a + b == b;
    } else {
      assert (a + b)[1..] == a[1..] + b;
      RunSplits(Next(p, a[0], limits), a[1..], b, limits);
    }
  }

  /** Two calls that both drain before either goes on inject the same task, whenever one is idle. */
  lemma OverlappingCallsInjectTwice(q: Queue, limits: Limits)
    requires q.Valid() && AnyIdle(q)
    ensures var p := Run(Pair(q, NotCalled, NotCalled),
        [First, Second, First, First, First, Second, Second, Second], limits);
      p.first == p.second == Returned(Some(FrontTask(q)))
  {
    hide *;
    DrainFront(q);
    DrainFollows(q);
    var hs := Drain(q, {});
    var p := Pair(q, Drained(hs), Drained(hs));
    var three := [First, First, First];
    var rest := [Second, Second, Second];
    BothDrain(q, hs, limits);
    ThreeSteps(p, hs, limits);
    var m := Run(p, three, limits);
    ThreeMore(m, hs, limits);
    RunSplits(p, three, rest, limits);
    RunSplits(Pair(q, NotCalled, NotCalled), [First, Second], three + rest, limits);
    assert [First, Second] + (three + rest) == [First, Second, First, First, First, Second, Second, Second];
  }

  lemma BothDrain(q: Queue, hs: seq<nat>, limits: Limits)
    requires q.Valid() && hs == Drain(q, {}) && hs != []
    ensures Run(Pair(q, NotCalled, NotCalled), [First, Second], limits) == Pair(q, Drained(hs), Drained(hs))
  {
    hide Drain;
    var p := Pair(q, NotCalled, NotCalled);
    assert [First, Second][1..] == [Second] && [Second][1..] == [];
    var p1 := Next(p, First, limits);
    assert p1 == Pair(q, Drained(hs), NotCalled);
    assert Run(p, [First, Second], limits) == Run(p1, [Second], limits);
    assert Run(p1, [Second], limits) == Run(Next(p1, Second, limits), [], limits);
  }

  lemma ThreeSteps(p: Pair, hs: seq<nat>, limits: Limits)
    requires p.q.Valid() && p.first == Drained(hs) && hs != [] && Known(p.q, hs) && hs[0] !in hs[1..]
    requires Follows(p.q, hs[0], false)
    ensures var r := Run(p, [First, First, First], limits);
      r.first == Returned(Some(hs[0])) && r.second == p.second && Known(r.q, hs)
  {
    var three := [First, First, First];
    StepsOfThree();
    assert OthersOrdinary(three) && Second !in three;
    BetweenFollows(p, three, limits, hs, 0);
    KnownStays(p.q, Run(p, three, limits).q, hs);
    hide Run, Follows, SameIds;
  }

  lemma StepsOfThree()
    ensures Steps([First, First, First], First) == 3
  {
    assert [First, First, First][1..] == [First, First] && [First, First][1..] == [First] && [First][1..] == [];
    assert Steps([First], First) == 1;
    assert Steps([First, First], First) == 2;
  }

  /** The second call goes on to its end. */
  lemma ThreeMore(p: Pair, hs: seq<nat>, limits: Limits)
    requires p.q.Valid() && p.second == Drained(hs) && hs != [] && Known(p.q, hs)
    ensures var r := Run(p, [Second, Second, Second], limits);
      r.second == Returned(Some(hs[0])) && r.first == p.first
  {
    hide Transition, MarkProcessing, Requeue;
    var p1 := Next(p, Second, limits);
    SecondStep(p, Moved(hs), limits);
    var p2 := Next(p1, Second, limits);
    SecondStep(p1, Marked(hs), limits);
    var p3 := Next(p2, Second, limits);
    SecondStep(p2, Returned(Some(hs[0])), limits);
    hide Next;
    assert [Second, Second, Second][1..] == [Second, Second] && [Second, Second][1..] == [Second] && [Second][1..] == [];
    assert Run(p, [Second, Second, Second], limits) == Run(p1, [Second, Second], limits);
    assert Run(p1, [Second, Second], limits) == Run(p2, [Second], limits);
    assert Run(p2, [Second], limits) == Run(p3, [], limits);
  }

  lemma SecondStep(p: Pair, next: Call, limits: Limits)
    requires p.q.Valid() && Holds(p.q, p.second)
    requires match p.second
      case Drained(hs) => next == Moved(hs)
      case Moved(hs) => next == Marked(hs)
      case Marked(hs) => next == Returned(Some(hs[0]))
      case _ => false
    ensures var r := Next(p, Second, limits); r.first == p.first && r.second == next && |r.q.tasks| == |p.q.tasks|
  {
    hide Requeue;
  }
}
