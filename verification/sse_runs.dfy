/** What every run of the stream manager keeps: the indexes agree, each stream hands over its
    events once and in order, and idle cleanup removes exactly the idle streams. */
module SseRuns {
  import opened OrderedDicts
  import opened SseModel

  // ---- index consistency ----

  lemma OpenKeepsIndex(s: Streamer, id: string, task: string, now: real)
    requires s.Valid() && s.Indexed() && id !in s.streams.vals
    ensures OpenStream(s, id, task, now).Indexed()
  {
    var r := OpenStream(s, id, task, now);
    assert id !in Subscribed(s, task);
    forall t, x ensures x in Subscribed(r, t) <==> x in r.streams.vals && r.streams.vals[x].task == t {
      assert x in Subscribed(s, t) <==> x in s.streams.vals && s.streams.vals[x].task == t;
    }
  }

  lemma CloseKeepsIndex(s: Streamer, id: string)
    requires s.Valid() && s.Indexed()
    ensures CloseStream(s, id).Indexed()
  {
    if id in s.streams.vals {
      var task := s.streams.vals[id].task;
      assert id in Subscribed(s, task);
      WithoutMembers(s.byTask[task], id);
      var r := CloseStream(s, id);
      forall t, x ensures x in Subscribed(r, t) <==> x in r.streams.vals && r.streams.vals[x].task == t {
        assert x in Subscribed(s, t) <==> x in s.streams.vals && s.streams.vals[x].task == t;
      }
    }
  }

  /** A change inside one stream that keeps its task. */
  lemma UpdateKeepsIndex(s: Streamer, id: string, st: Stream)
    requires s.Valid() && s.Indexed() && id in s.streams.vals && st.task == s.streams.vals[id].task
    ensures s.(streams := s.streams.Put(id, st)).Indexed()
  {
    var r := s.(streams := s.streams.Put(id, st));
    forall t, x ensures x in Subscribed(r, t) <==> x in r.streams.vals && r.streams.vals[x].task == t {
      assert Subscribed(r, t) == Subscribed(s, t);
      assert x in Subscribed(s, t) <==> x in s.streams.vals && s.streams.vals[x].task == t;
    }
  }

  lemma {:induction false} CloseIdleKeepsIndex(s: Streamer, ids: seq<string>, timeout: real, now: real)
    requires s.Valid() && s.Indexed()
    ensures CloseIdle(s, ids, timeout, now).Indexed()
    decreases |ids|
  {
    if ids != [] {
      hide Streamer.Indexed, CloseStream;
      CloseKeepsIndex(s, ids[0]);
      CloseIdleKeepsIndex(CloseIfIdle(s, ids[0], timeout, now), ids[1..], timeout, now);
    }
  }

  lemma StepKeepsIndex(timeout: real, s: Streamer, op: Op)
    requires s.Valid() && s.Indexed() && (op.Open? ==> op.id !in s.streams.vals)
    ensures Step(timeout, s, op).Indexed()
  {
    hide Streamer.Indexed, OpenStream, CloseStream, CloseIdle;
    match op
    case Open(id, task, now) => OpenKeepsIndex(s, id, task, now);
    case Push(id, event, now) =>
      if id in s.streams.vals {
        UpdateKeepsIndex(s, id, PushEvent(s, id, event, now).s.streams.vals[id]);
      }
    case Poll(id) =>
      if id in s.streams.vals {
        UpdateKeepsIndex(s, id, s.streams.vals[id].(pending := []));
      }
    case Close(id) => CloseKeepsIndex(s, id);
    case CleanIdle(now) => CloseIdleKeepsIndex(s, s.streams.keys, timeout, now);
  }

  lemma {:induction false} RunKeepsIndex(timeout: real, ops: seq<Op>)
    requires Fresh(timeout, EmptyStreamer(), ops)
    ensures Run(timeout, EmptyStreamer(), ops).Indexed()
  {
    hide Streamer.Indexed, Step;
    if ops != [] {
      RunKeepsIndex(timeout, ops[..|ops| - 1]);
      StepKeepsIndex(timeout, Run(timeout, EmptyStreamer(), ops[..|ops| - 1]), ops[|ops| - 1]);
    }
  }

  /** After any run a task lists exactly its open streams, each once. */
  lemma IndexConsistency(timeout: real, ops: seq<Op>, task: string, id: string)
    requires Fresh(timeout, EmptyStreamer(), ops)
    ensures var s := Run(timeout, EmptyStreamer(), ops);
      && NoDuplicates(Subscribed(s, task))
      && (id in Subscribed(s, task) <==> id in s.streams.vals && s.streams.vals[id].task == task)
  {
    hide *;
    RunKeepsIndex(timeout, ops);
    Lists(Run(timeout, EmptyStreamer(), ops), task, id);
  }

  lemma Lists(s: Streamer, task: string, id: string)
    requires s.Valid() && s.Indexed()
    ensures NoDuplicates(Subscribed(s, task))
    ensures id in Subscribed(s, task) <==> id in s.streams.vals && s.streams.vals[id].task == task
  {
  }

  // ---- idle cleanup ----

  lemma {:induction false} CloseIdleEffect(s: Streamer, ids: seq<string>, timeout: real, now: real, id: string)
    requires s.Valid()
    ensures var r := CloseIdle(s, ids, timeout, now);
      && (id in r.streams.vals <==>
            id in s.streams.vals && !(id in ids && Idle(s.streams.vals[id], timeout, now)))
      && (id in r.streams.vals ==> r.streams.vals[id] == s.streams.vals[id])
    decreases |ids|
  {
    if ids != [] {
      hide Delisted, Idle;
      assert ids == [ids[0]] + ids[1..];
      CloseIdleEffect(CloseIfIdle(s, ids[0], timeout, now), ids[1..], timeout, now, id);
    }
  }

  // ---- each stream on its own ----

  /** One stream's own history, as an observer of that stream alone would keep it: `pushed`
      lists the events it took since it was opened, as they were handed in. */
  datatype View = View(open: bool, task: string, pushed: seq<Event>, active: real)

  function Observe(timeout: real, v: View, op: Op, id: string): View {
    match op
    case Open(i, task, now) => if i == id then View(true, task, [], now) else v
    case Push(i, e, now) => if i == id && v.open then v.(pushed := v.pushed + [e], active := now) else v
    case Poll(_) => v
    case Close(i) => if i == id then v.(open := false) else v
    case CleanIdle(now) => if v.open && now - v.active > timeout then v.(open := false) else v
  }

  function History(timeout: real, ops: seq<Op>, id: string): View {
    if ops == [] then View(false, "", [], 0.0)
    else Observe(timeout, History(timeout, ops[..|ops| - 1], id), ops[|ops| - 1], id)
  }

  function Anonymous(es: seq<Event>): nat {
    if es == [] then 0
    else Anonymous(es[..|es| - 1]) + if es[|es| - 1].id == None then 1 else 0
  }

  /** The lines the events make, in order: an event without an id gets the next number. */
  function Rendered(task: string, es: seq<Event>): (ls: seq<Line>)
    ensures |ls| == |es|
  {
    if es == [] then []
    else
      var e := es[|es| - 1];
      Rendered(task, es[..|es| - 1]) +
        [Line(if e.id == None then EventId(task, Anonymous(es)) else e.id.value, e.body)]
  }

  lemma RenderedAppend(task: string, es: seq<Event>, e: Event)
    ensures Anonymous(es + [e]) == Anonymous(es) + if e.id == None then 1 else 0
    ensures Rendered(task, es + [e]) == Rendered(task, es) +
      [Line(if e.id == None then EventId(task, Anonymous(es + [e])) else e.id.value, e.body)]
  {
    assert (es + [e])[..|es|] == es;
  }

  function LastId(ls: seq<Line>): Option<string> {
    if ls == [] then None else Some(ls[|ls| - 1].id)
  }

  /** The table agrees with the stream's own history; `polled` is what was handed over. */
  ghost predicate Agrees(s: Streamer, id: string, v: View, polled: seq<Line>) {
    && (id in s.streams.vals <==> v.open)
    && (v.open ==>
          var st := s.streams.vals[id];
          && st.task == v.task && st.lastActivity == v.active && st.counter == Anonymous(v.pushed)
          && st.lastId == LastId(Rendered(v.task, v.pushed))
          && polled + st.pending == Rendered(v.task, v.pushed))
    && polled <= Rendered(v.task, v.pushed)
  }

  /** What the polls have returned after one more operation. */
  function PolledStep(s: Streamer, op: Op, id: string, polled: seq<Line>): seq<Line> {
    if op.Open? && op.id == id then []
    else if op.Poll? && op.id == id then polled + Pending(s, id)
    else polled
  }

  lemma StepAgrees(timeout: real, s: Streamer, op: Op, id: string, v: View, polled: seq<Line>)
    requires s.Valid() && Agrees(s, id, v, polled)
    ensures Agrees(Step(timeout, s, op), id, Observe(timeout, v, op, id), PolledStep(s, op, id, polled))
  {
    hide Agrees, OpenStream, PushEvent, ClearPending, CloseStream, CloseIdle, Observe, PolledStep;
    match op
    case Open(i, task, now) => OpenAgrees(timeout, s, i, task, now, id, v, polled);
    case Push(i, event, now) => PushAgrees(timeout, s, i, event, now, id, v, polled);
    case Poll(i) => PollAgrees(timeout, s, i, id, v, polled);
    case Close(i) => CloseAgrees(timeout, s, i, id, v, polled);
    case CleanIdle(now) => CleanAgrees(timeout, s, now, id, v, polled);
  }

  lemma OpenAgrees(timeout: real, s: Streamer, i: string, task: string, now: real, id: string, v: View, polled: seq<Line>)
    requires s.Valid() && Agrees(s, id, v, polled)
    ensures var op := Open(i, task, now);
      Agrees(OpenStream(s, i, task, now), id, Observe(timeout, v, op, id), PolledStep(s, op, id, polled))
  {
    NothingRendered(task);
    hide Rendered, Anonymous;
  }

  lemma NothingRendered(task: string)
    ensures Rendered(task, []) == [] && Anonymous([]) == 0
  {
  }

  lemma PollAgrees(timeout: real, s: Streamer, i: string, id: string, v: View, polled: seq<Line>)
    requires s.Valid() && Agrees(s, id, v, polled)
    ensures var op := Poll(i);
      Agrees(ClearPending(s, i), id, Observe(timeout, v, op, id), PolledStep(s, op, id, polled))
  {
    hide Rendered, Anonymous;
    assert polled + Pending(s, id) + [] == polled + Pending(s, id);
  }

  lemma CloseAgrees(timeout: real, s: Streamer, i: string, id: string, v: View, polled: seq<Line>)
    requires s.Valid() && Agrees(s, id, v, polled)
    ensures var op := Close(i);
      Agrees(CloseStream(s, i), id, Observe(timeout, v, op, id), PolledStep(s, op, id, polled))
  {
    hide Rendered, Anonymous, Delisted;
  }

  lemma CleanAgrees(timeout: real, s: Streamer, now: real, id: string, v: View, polled: seq<Line>)
    requires s.Valid() && Agrees(s, id, v, polled)
    ensures var op := CleanIdle(now);
      Agrees(CloseIdle(s, s.streams.keys, timeout, now), id, Observe(timeout, v, op, id), PolledStep(s, op, id, polled))
  {
    CloseIdleEffect(s, s.streams.keys, timeout, now, id);
    assert id in s.streams.vals ==> id in s.streams.keys;
    hide Rendered, Anonymous, Delisted, CloseIdle;
  }

  lemma PushAgrees(timeout: real, s: Streamer, i: string, e: Event, now: real, id: string, v: View, polled: seq<Line>)
    requires s.Valid() && Agrees(s, id, v, polled)
    ensures var op := Push(i, e, now);
      Agrees(PushEvent(s, i, e, now).s, id, Observe(timeout, v, op, id), PolledStep(s, op, id, polled))
  {
    RenderedAppend(v.task, v.pushed, e);
    hide Rendered, Anonymous, EventId;
    if i == id && v.open {
      var st := s.streams.vals[id];
      var line := Line(AssignedId(st, e), e.body);
      assert polled + (st.pending + [line]) == (polled + st.pending) + [line];
      assert Rendered(v.task, v.pushed + [e]) == Rendered(v.task, v.pushed) + [line];
    }
  }

  lemma {:induction false} RunAgrees(timeout: real, ops: seq<Op>, id: string)
    ensures Agrees(Run(timeout, EmptyStreamer(), ops), id, History(timeout, ops, id),
                   Polled(timeout, EmptyStreamer(), ops, id))
  {
    if ops != [] {
      var before := ops[..|ops| - 1];
      RunAgrees(timeout, before, id);
      hide Agrees, Step;
      StepAgrees(timeout, Run(timeout, EmptyStreamer(), before), ops[|ops| - 1], id,
                 History(timeout, before, id), Polled(timeout, EmptyStreamer(), before, id));
    }
  }

  /** Exactly once, in order: what an open stream's polls returned, followed by its buffer, are
      the lines of the events pushed to it since it opened; once it is gone, what was returned
      stays a prefix of them.  The stream remembers the id of the last of them. */
  lemma ExactlyOnceFifo(timeout: real, ops: seq<Op>, id: string)
    ensures var s := Run(timeout, EmptyStreamer(), ops);
      var v := History(timeout, ops, id);
      var polled := Polled(timeout, EmptyStreamer(), ops, id);
      && (id in s.streams.vals <==> v.open)
      && (id in s.streams.vals ==>
            polled + Pending(s, id) == Rendered(v.task, v.pushed)
            && s.streams.vals[id].lastId == LastId(Rendered(v.task, v.pushed)))
      && polled <= Rendered(v.task, v.pushed)
  {
    RunAgrees(timeout, ops, id);
  }

  /** Once closed, a stream that is not opened again takes and returns nothing more. */
  lemma {:induction false} NothingAfterClose(timeout: real, ops: seq<Op>, more: seq<Op>, id: string)
    requires id !in Run(timeout, EmptyStreamer(), ops).streams.vals
    requires forall op :: op in more ==> !(op.Open? && op.id == id)
    ensures id !in Run(timeout, EmptyStreamer(), ops + more).streams.vals
    ensures History(timeout, ops + more, id) == History(timeout, ops, id)
    ensures Polled(timeout, EmptyStreamer(), ops + more, id) == Polled(timeout, EmptyStreamer(), ops, id)
  {
    hide *;
    if more == [] {
      assert ops + more == ops;
    } else {
      var before, all := more[..|more| - 1], ops + more;
      assert forall op :: op in before ==> op in more;
      NothingAfterClose(timeout, ops, before, id);
      LastOp(ops, more);
      RunAgrees(timeout, ops + before, id);
      RunAgrees(timeout, all, id);
      ClosedStays(timeout, all, id);
    }
  }

  lemma LastOp(ops: seq<Op>, more: seq<Op>)
    requires more != []
    ensures var all := ops + more;
      all[..|all| - 1] == ops + more[..|more| - 1] && all[|all| - 1] == more[|more| - 1] && more[|more| - 1] in more
  {
  }

  /** One operation that does not open a closed stream leaves it closed and takes nothing. */
  lemma ClosedStays(timeout: real, ops: seq<Op>, id: string)
    requires ops != [] && !(ops[|ops| - 1].Open? && ops[|ops| - 1].id == id)
    requires var before := ops[..|ops| - 1];
      && id !in Run(timeout, EmptyStreamer(), before).streams.vals
      && Agrees(Run(timeout, EmptyStreamer(), before), id, History(timeout, before, id),
                Polled(timeout, EmptyStreamer(), before, id))
    requires Agrees(Run(timeout, EmptyStreamer(), ops), id, History(timeout, ops, id),
                    Polled(timeout, EmptyStreamer(), ops, id))
    ensures var before := ops[..|ops| - 1];
      && id !in Run(timeout, EmptyStreamer(), ops).streams.vals
      && History(timeout, ops, id) == History(timeout, before, id)
      && Polled(timeout, EmptyStreamer(), ops, id) == Polled(timeout, EmptyStreamer(), before, id)
  {
    var p := Polled(timeout, EmptyStreamer(), ops[..|ops| - 1], id);
    assert p + [] == p;
    hide Run, Rendered;
  }

  /** The time of the last opening of `id` or push to it, among all the operations asked for. */
  function LastActivity(ops: seq<Op>, id: string): Option<real> {
    if ops == [] then None
    else
      var op := ops[|ops| - 1];
      if (op.Open? || op.Push?) && op.id == id then Some(op.now)
      else LastActivity(ops[..|ops| - 1], id)
  }

  lemma {:induction false} ActiveIsLast(timeout: real, ops: seq<Op>, id: string)
    ensures var v := History(timeout, ops, id); v.open ==> LastActivity(ops, id) == Some(v.active)
  {
    if ops != [] {
      ActiveIsLast(timeout, ops[..|ops| - 1], id);
    }
  }

  /** Idle cleanup removes exactly the open streams whose last push, or opening, is more than
      the timeout ago, however often they were polled, and leaves the others as they were. */
  lemma CleanupIsExact(timeout: real, ops: seq<Op>, now: real, id: string)
    ensures var s := Run(timeout, EmptyStreamer(), ops);
      var r := Run(timeout, EmptyStreamer(), ops + [CleanIdle(now)]);
      && (id in s.streams.vals ==> LastActivity(ops, id).Some?)
      && (id in r.streams.vals <==> id in s.streams.vals && now - LastActivity(ops, id).value <= timeout)
      && (id in r.streams.vals ==> r.streams.vals[id] == s.streams.vals[id])
  {
    var all := ops + [CleanIdle(now)];
    assert all[..|ops|] == ops;
    ActiveIsLast(timeout, ops, id);
    RunAgrees(timeout, ops, id);
    var s := Run(timeout, EmptyStreamer(), ops);
    CloseIdleEffect(s, s.streams.keys, timeout, now, id);
    assert id in s.streams.vals ==> id in s.streams.keys;
    hide CloseIdle, Rendered, Anonymous;
  }
}
