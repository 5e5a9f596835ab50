/** The loop that relays one stream to one client until the task ends, the client leaves, the
    stream is closed or time is up.  Other threads work on the stream manager between its steps;
    the clock, the task states, the client's connection and those threads are parameters. */
module SsePoll {
  import opened OrderedDicts
  import opened QueueModel
  import opened SseModel
  import opened SseRuns

  /** `is_terminal_state`, on the answer of `get_status`; `None` is "unknown". */
  predicate IsTerminal(state: Option<TaskState>) {
    state.Some? && state.value in {TaskState.Completed, Failed, Canceled, Rejected}
  }

  /** The terminal states are those no transition leaves. */
  lemma TerminalIffNoEdge(state: TaskState)
    ensures IsTerminal(Some(state)) <==> Transitions(state) == {}
    ensures !IsTerminal(None)
  {
    assert Working in Transitions(Submitted) && Completed in Transitions(Working);
    assert Rejected in Transitions(AuthRequired) && Working in Transitions(Authenticated);
  }

  /** An attempt to write to the client. */
  datatype Write = Relay(line: Line) | StatusId | StatusName(state: TaskState) | StatusData(state: TaskState) | TimeoutNotice

  datatype Exit = Disconnected | FoundClosed | Ended(state: TaskState) | TimedOut

  function Relayed(lines: seq<Line>): (ws: seq<Write>)
    ensures |ws| == |lines|
  {
    seq(|lines|, i requires 0 <= i < |lines| => Relay(lines[i]))
  }

  lemma RelayedAppend(lines: seq<Line>, line: Line)
    ensures Relayed(lines + [line]) == Relayed(lines) + [Relay(line)]
  {
  }

  /** `ops` leave stream `id` to its handler: they neither open nor poll it. */
  predicate Foreign(ops: seq<Op>, id: string) {
    forall op :: op in ops ==> !((op.Open? || op.Poll?) && op.id == id)
  }

  lemma {:induction false} RunMore(timeout: real, ops: seq<Op>, more: seq<Op>)
    ensures Run(timeout, EmptyStreamer(), ops + more) == Run(timeout, Run(timeout, EmptyStreamer(), ops), more)
  {
    hide *;
    var s := Run(timeout, EmptyStreamer(), ops);
    if more == [] {
      RunNothing(timeout, s);
      assert ops + more == ops;
    } else {
      var n := |more| - 1;
      RunMore(timeout, ops, more[..n]);
      RunLast(timeout, s, more);
      RunLast(timeout, EmptyStreamer(), ops + more);
      assert (ops + more)[..|ops + more| - 1] == ops + more[..n] && (ops + more)[|ops + more| - 1] == more[n];
    }
  }

  lemma {:induction false} RunForeign(timeout: real, ops: seq<Op>, more: seq<Op>, id: string)
    requires Foreign(more, id)
    ensures Run(timeout, EmptyStreamer(), ops + more) == Run(timeout, Run(timeout, EmptyStreamer(), ops), more)
    ensures Polled(timeout, EmptyStreamer(), ops + more, id) == Polled(timeout, EmptyStreamer(), ops, id)
    ensures id !in Run(timeout, EmptyStreamer(), ops).streams.vals ==>
      id !in Run(timeout, EmptyStreamer(), ops + more).streams.vals
  {
    hide *;
    RunMore(timeout, ops, more);
    if more == [] {
      assert ops + more == ops;
    } else {
      var n := |more| - 1;
      ForeignSplits(more, id);
      var s := Run(timeout, EmptyStreamer(), ops + more[..n]);
      RunForeign(timeout, ops, more[..n], id);
      RunOne(timeout, ops + more[..n], more[n], id);
      assert ops + more == ops + more[..n] + [more[n]];
      if id !in s.streams.vals {
        StaysAbsent(timeout, s, more[n], id);
      }
    }
  }

  lemma ForeignSplits(more: seq<Op>, id: string)
    requires Foreign(more, id) && more != []
    ensures Foreign(more[..|more| - 1], id)
    ensures var op := more[|more| - 1]; !((op.Open? || op.Poll?) && op.id == id)
  {
  }

  lemma RunNothing(timeout: real, s: Streamer)
    requires s.Valid()
    ensures Run(timeout, s, []) == s
  {
  }

  lemma RunLast(timeout: real, s: Streamer, ops: seq<Op>)
    requires s.Valid() && ops != []
    ensures Run(timeout, s, ops) == Step(timeout, Run(timeout, s, ops[..|ops| - 1]), ops[|ops| - 1])
  {
  }

  lemma StaysAbsent(timeout: real, s: Streamer, op: Op, id: string)
    requires s.Valid() && id !in s.streams.vals && !(op.Open? && op.id == id)
    ensures id !in Step(timeout, s, op).streams.vals
  {
    if op.CleanIdle? {
      CloseIdleEffect(s, s.streams.keys, timeout, op.now, id);
    }
  }

  lemma RunOne(timeout: real, ops: seq<Op>, op: Op, id: string)
    ensures Run(timeout, EmptyStreamer(), ops + [op]) == Step(timeout, Run(timeout, EmptyStreamer(), ops), op)
    ensures !((op.Open? || op.Poll?) && op.id == id) ==>
      Polled(timeout, EmptyStreamer(), ops + [op], id) == Polled(timeout, EmptyStreamer(), ops, id)
    ensures op == Poll(id) ==>
      Polled(timeout, EmptyStreamer(), ops + [op], id)
        == Polled(timeout, EmptyStreamer(), ops, id) + Pending(Run(timeout, EmptyStreamer(), ops), id)
  {
    assert (ops + [op])[..|ops|] == ops;
  }

  lemma Closed(s: Streamer, id: string)
    requires s.Valid()
    ensures id !in CloseStream(s, id).streams.vals
  {
  }

  /** How the writes of a finished loop look: `sent` lines, then what the exit demands; none but the
      last failed. */
  ghost predicate Finished(writes: seq<Write>, exit: Exit, sent: seq<Line>, polled: seq<Line>, delivers: nat -> bool) {
    (forall i :: 0 <= i < |writes| - 1 ==> delivers(i)) &&
    match exit
    case Disconnected => sent <= polled && writes == Relayed(sent) && sent != [] && !delivers(|sent| - 1)
    case FoundClosed => sent == polled && writes == Relayed(sent)
    case Ended(state) =>
      && sent == polled && IsTerminal(Some(state))
      && (|| writes == Relayed(sent) + [StatusName(state), StatusData(state)]
          || (!delivers(|sent|) && writes == Relayed(sent) + [StatusName(state)]))
    case TimedOut => sent == polled && writes == Relayed(sent) + [TimeoutNotice]
  }

  function HalfSeconds(t: real): int {
    (2.0 * t).Floor
  }

  lemma LessTime(clock: nat -> real, deadline: real, n: nat)
    requires HalfSecondApart(clock) && n > 0 && clock(n) < deadline
    ensures 0 <= HalfSeconds(deadline - clock(n))
    ensures HalfSeconds(deadline - clock(n + 1)) < HalfSeconds(deadline - clock(n))
  {
    assert 2.0 * (deadline - clock(n + 1)) <= 2.0 * (deadline - clock(n)) - 1.0;
  }

  /** Each reading after the first is at least a poll interval before the next. */
  ghost predicate HalfSecondApart(clock: nat -> real) {
    forall n: nat :: n > 0 ==> clock(n) + 0.5 <= clock(n + 1)
  }

  /** So many rounds are over: each took at least half a second, and the last began in time. */
  ghost predicate InTime(clock: nat -> real, wait: real, rounds: nat) {
    && clock(0) + 0.5 * rounds as real <= clock(rounds + 1)
    && (rounds > 0 ==> 0.5 * (rounds - 1) as real < wait)
  }

  lemma InTimeFirst(clock: nat -> real, wait: real)
    requires clock(0) <= clock(1)
    ensures InTime(clock, wait, 0)
  {
  }

  lemma InTimeNext(clock: nat -> real, wait: real, rounds: nat)
    requires InTime(clock, wait, rounds) && clock(rounds + 1) < clock(0) + wait && HalfSecondApart(clock)
    ensures InTime(clock, wait, rounds + 1)
  {
  }

  lemma InTimeBound(clock: nat -> real, wait: real, rounds: nat)
    requires InTime(clock, wait, rounds)
    ensures rounds > 0 ==> 0.5 * (rounds - 1) as real < wait
  {
  }

  // ---- what the rounds meet ----

  /** Everything that happened to the manager when round `k` begins, if no earlier one ended the
      loop: in a round other threads go first, then the poll, then other threads again. */
  ghost function OpsBefore(prior: seq<Op>, others: nat -> seq<Op>, id: string, k: nat): seq<Op> {
    if k == 0 then prior
    else OpsBefore(prior, others, id, k - 1) + others(3 * (k - 1)) + [Poll(id)] + others(3 * (k - 1) + 1)
  }

  /** The parameters of the loop, and what they say of each round.  `prior` is what happened to the
      manager before.  Reading 0 of the clock sets the deadline, reading `k + 1` guards round `k`;
      `status(k)` is what the queue answers in round `k`, `delivers(i)` whether write `i` succeeds,
      `others(3 * k)` and the two after it what other threads do in round `k`. */
  datatype Rounds = Rounds(
    idleTimeout: real, wait: real, clock: nat -> real, status: nat -> Option<TaskState>, delivers: nat -> bool,
    others: nat -> seq<Op>, prior: seq<Op>, id: string)
  {
    ghost function Manager(k: nat): (s: Streamer)
      ensures s.Valid()
    {
      Run(idleTimeout, EmptyStreamer(), OpsBefore(prior, others, id, k))
    }

    /** The lines of the rounds before `k`. */
    ghost function LinesBefore(k: nat): seq<Line> {
      Polled(idleTimeout, EmptyStreamer(), OpsBefore(prior, others, id, k), id)
    }

    ghost predicate Begins(k: nat) {
      clock(k + 1) < clock(0) + wait
    }

    /** All the lines of round `k` reach the client. */
    ghost predicate Relays(k: nat) {
      forall i: nat :: |LinesBefore(k)| <= i < |LinesBefore(k + 1)| ==> delivers(i)
    }

    ghost predicate StaysOpen(k: nat) {
      id in Manager(k + 1).streams.vals
    }

    /** Round `k` gives no reason to stop. */
    ghost predicate Quiet(k: nat) {
      Begins(k) && Relays(k) && StaysOpen(k) && !IsTerminal(status(k))
    }

    /** The loop ends with round `k` for the first reason there is, in the order of its checks. */
    ghost predicate EndsAt(k: nat, exit: Exit) {
      && (forall j: nat :: j < k ==> Quiet(j))
      && (exit == TimedOut <==> !Begins(k))
      && (exit == Disconnected <==> Begins(k) && !Relays(k))
      && (exit == FoundClosed <==> Begins(k) && Relays(k) && !StaysOpen(k))
      && (exit.Ended? <==> Begins(k) && Relays(k) && StaysOpen(k) && IsTerminal(status(k)))
      && (exit.Ended? ==> status(k) == Some(exit.state))
    }
  }

  /** At most one round and one reason meet that. */
  lemma EndsOnce(p: Rounds, k: nat, exit: Exit, k': nat, exit': Exit)
    requires p.EndsAt(k, exit) && p.EndsAt(k', exit')
    ensures k == k' && exit == exit'
  {
    NotQuiet(p, k, exit);
    NotQuiet(p, k', exit');
    hide Rounds.Quiet, Rounds.Begins, Rounds.Relays, Rounds.StaysOpen, IsTerminal;
  }

  lemma NotQuiet(p: Rounds, k: nat, exit: Exit)
    requires p.EndsAt(k, exit)
    ensures !p.Quiet(k)
  {
    hide Rounds.Begins, Rounds.Relays, Rounds.StaysOpen, IsTerminal;
  }

  /** So the first terminal status that is asked for is what the client is sent last: if nothing
      stops the rounds before it, nor its own round up to the question. */
  lemma TerminalStatusEnds(p: Rounds, k: nat, state: TaskState, rounds: nat, exit: Exit)
    requires p.EndsAt(rounds, exit)
    requires forall j: nat :: j < k ==> p.Quiet(j)
    requires p.Begins(k) && p.Relays(k) && p.StaysOpen(k)
    requires p.status(k) == Some(state) && Transitions(state) == {}
    ensures rounds == k && exit == Ended(state)
  {
    TerminalIffNoEdge(state);
    EndsOnce(p, k, Ended(state), rounds, exit);
  }

  /** Time runs out only on a task that no round saw in a terminal state. */
  lemma TimeoutSawNoEnd(p: Rounds, rounds: nat, k: nat)
    requires p.EndsAt(rounds, TimedOut) && k < rounds
    ensures p.status(k) == None || Transitions(p.status(k).value) != {}
  {
    assert p.Quiet(k);
    if p.status(k).Some? {
      TerminalIffNoEdge(p.status(k).value);
    }
  }

  /** `_sse_poll_until_terminal`, on a stream that has not been polled. */
  method PollUntilTerminal(start: Streamer, p: Rounds)
    returns (s: Streamer, writes: seq<Write>, exit: Exit, rounds: nat, ghost ops: seq<Op>, ghost sent: seq<Line>)
    requires start == Run(p.idleTimeout, EmptyStreamer(), p.prior)
    requires Polled(p.idleTimeout, EmptyStreamer(), p.prior, p.id) == []
    requires p.clock(0) <= p.clock(1) && HalfSecondApart(p.clock)
    requires forall k: nat :: Foreign(p.others(k), p.id)
    ensures p.prior <= ops && s == Run(p.idleTimeout, EmptyStreamer(), ops)
    ensures p.id !in s.streams.vals
    ensures Finished(writes, exit, sent, Polled(p.idleTimeout, EmptyStreamer(), ops, p.id), p.delivers)
    ensures sent <= Rendered(History(p.idleTimeout, ops, p.id).task, History(p.idleTimeout, ops, p.id).pushed)
    ensures p.EndsAt(rounds, exit)
    ensures Polled(p.idleTimeout, EmptyStreamer(), ops, p.id) ==
      p.LinesBefore(if exit == TimedOut then rounds else rounds + 1)
    ensures rounds > 0 ==> 0.5 * (rounds - 1) as real < p.wait
  {
    hide *;
    var deadline := p.clock(0) + p.wait;
    s, ops, rounds, writes := start, p.prior, 0, [];
    NothingRelayed();
    DeliveredAll(p.delivers, 0);
    InTimeFirst(p.clock, p.wait);
    RoundOps(p, 0);
    while p.clock(rounds + 1) < deadline
      invariant p.prior <= ops && ops == OpsBefore(p.prior, p.others, p.id, rounds)
      invariant s == p.Manager(rounds)
      invariant writes == Relayed(p.LinesBefore(rounds)) && AllDelivered(p.delivers, |writes|)
      invariant forall j: nat :: j < rounds ==> p.Quiet(j)
      invariant InTime(p.clock, p.wait, rounds)
      decreases HalfSeconds(deadline - p.clock(rounds + 1))
    {
      LessTime(p.clock, deadline, rounds + 1);
      InTimeBound(p.clock, p.wait, rounds);
      var connected;
      s, writes, connected, ops, sent := RelayRound(p, rounds, s, writes, ops);
      if !connected {
        exit := Disconnected;
        EndsIs(p, rounds, exit);
        return;
      }
      if p.id !in s.streams.vals {
        exit := FoundClosed;
        DeliveredBut(p.delivers, |writes|);
        FinishedIs(writes, exit, sent, sent, p.delivers);
        EndsIs(p, rounds, exit);
        return;
      }
      var state := p.status(rounds);
      if IsTerminal(state) {
        TerminalIsSome(state);
        exit := Ended(state.value);
        s, writes, ops := EndStatus(p, rounds, s, writes, state.value, ops);
        EndsIs(p, rounds, exit);
        return;
      }
      QuietIs(p, rounds);
      InTimeNext(p.clock, p.wait, rounds);
      RoundOps(p, rounds + 1);
      rounds := rounds + 1;
    }
    InTimeBound(p.clock, p.wait, rounds);
    RoundOps(p, rounds);
    sent := p.LinesBefore(rounds);
    writes := writes + [TimeoutNotice];
    s, ops := CloseAfter(p.idleTimeout, s, p.id, p.others(3 * rounds), ops);
    exit := TimedOut;
    FifoPrefix(p.idleTimeout, ops, p.id);
    DeliveredBut(p.delivers, |writes| - 1);
    FinishedIs(writes, exit, sent, sent, p.delivers);
    EndsIs(p, rounds, exit);
  }

  ghost predicate AllDelivered(delivers: nat -> bool, n: nat) {
    forall i :: 0 <= i < n ==> delivers(i)
  }

  /** A round up to its lines: the poll, and the lines to the client; the first write that fails
      closes the stream, otherwise other threads go on. */
  method RelayRound(p: Rounds, k: nat, before: Streamer, written: seq<Write>, ghost opsBefore: seq<Op>)
    returns (s: Streamer, writes: seq<Write>, connected: bool, ghost ops: seq<Op>, ghost sent: seq<Line>)
    requires forall k: nat :: Foreign(p.others(k), p.id)
    requires p.prior <= opsBefore && opsBefore == OpsBefore(p.prior, p.others, p.id, k) && before == p.Manager(k)
    requires written == Relayed(p.LinesBefore(k)) && AllDelivered(p.delivers, |written|)
    ensures p.prior <= ops && s == Run(p.idleTimeout, EmptyStreamer(), ops)
    ensures connected <==> p.Relays(k)
    ensures Polled(p.idleTimeout, EmptyStreamer(), ops, p.id) == p.LinesBefore(k + 1)
    ensures sent <= Rendered(History(p.idleTimeout, ops, p.id).task, History(p.idleTimeout, ops, p.id).pushed)
    ensures connected ==>
      && ops == OpsBefore(p.prior, p.others, p.id, k + 1) && s == p.Manager(k + 1)
      && sent == p.LinesBefore(k + 1) && writes == Relayed(sent) && AllDelivered(p.delivers, |writes|)
    ensures !connected ==>
      p.id !in s.streams.vals && Finished(writes, Disconnected, sent, p.LinesBefore(k + 1), p.delivers)
  {
    hide *;
    RoundOps(p, k);
    RoundOps(p, k + 1);
    ghost var earlier := p.LinesBefore(k);
    var lines, count;
    s, lines, ops := PollAfter(p.idleTimeout, before, p.id, p.others(3 * k), opsBefore);
    RoundLines(p, k, ops, earlier + lines);
    writes, count := SendLines(lines, written, p.delivers, earlier);
    assert lines[..|lines|] == lines;
    sent := earlier + lines[..count];
    DeliveredBut(p.delivers, |written|);
    connected := count == 0 || p.delivers(|writes| - 1);
    if connected {
      DeliveredAll(p.delivers, |writes|);
      s, ops := OthersRun(p.idleTimeout, s, p.id, p.others(3 * k + 1), ops);
    } else {
      s, ops := CloseAfter(p.idleTimeout, s, p.id, p.others(3 * k + 1), ops);
      FinishedIs(writes, Disconnected, sent, earlier + lines, p.delivers);
    }
    RelaysIff(p, k, |writes|);
    FifoPrefix(p.idleTimeout, ops, p.id);
  }

  /** The round ends in a terminal state: the status goes out, and the stream is closed. */
  method EndStatus(p: Rounds, k: nat, before: Streamer, written: seq<Write>, state: TaskState, ghost opsBefore: seq<Op>)
    returns (s: Streamer, writes: seq<Write>, ghost ops: seq<Op>)
    requires Foreign(p.others(3 * k + 2), p.id) && IsTerminal(Some(state))
    requires p.prior <= opsBefore && before == Run(p.idleTimeout, EmptyStreamer(), opsBefore)
    requires written == Relayed(Polled(p.idleTimeout, EmptyStreamer(), opsBefore, p.id))
    requires AllDelivered(p.delivers, |written|)
    ensures p.prior <= ops && s == Run(p.idleTimeout, EmptyStreamer(), ops) && p.id !in s.streams.vals
    ensures Polled(p.idleTimeout, EmptyStreamer(), ops, p.id) == Polled(p.idleTimeout, EmptyStreamer(), opsBefore, p.id)
    ensures var sent := Polled(p.idleTimeout, EmptyStreamer(), ops, p.id);
      && Finished(writes, Ended(state), sent, sent, p.delivers)
      && sent <= Rendered(History(p.idleTimeout, ops, p.id).task, History(p.idleTimeout, ops, p.id).pushed)
  {
    hide *;
    var emitted, _ := EmitStatus(state, false, |written|, p.delivers);
    StatusWrites(emitted, state);
    writes := written + emitted;
    DeliveredBut(p.delivers, |written|);
    s, ops := CloseAfter(p.idleTimeout, before, p.id, p.others(3 * k + 2), opsBefore);
    FifoPrefix(p.idleTimeout, ops, p.id);
    ghost var sent := Polled(p.idleTimeout, EmptyStreamer(), ops, p.id);
    FinishedIs(writes, Ended(state), sent, sent, p.delivers);
  }

  /** The manager and the lines when round `k` begins, and the operations of that round. */
  lemma RoundOps(p: Rounds, k: nat)
    ensures OpsBefore(p.prior, p.others, p.id, 0) == p.prior
    ensures var ops := OpsBefore(p.prior, p.others, p.id, k);
      && p.Manager(k) == Run(p.idleTimeout, EmptyStreamer(), ops)
      && p.LinesBefore(k) == Polled(p.idleTimeout, EmptyStreamer(), ops, p.id)
      && OpsBefore(p.prior, p.others, p.id, k + 1) ==
           ops + p.others(3 * k) + [Poll(p.id)] + p.others(3 * k + 1)
  {
  }

  /** The lines that round `k` has to relay, once it polled. */
  lemma RoundLines(p: Rounds, k: nat, polled: seq<Op>, lines: seq<Line>)
    requires polled == OpsBefore(p.prior, p.others, p.id, k) + p.others(3 * k) + [Poll(p.id)]
    requires lines == Polled(p.idleTimeout, EmptyStreamer(), polled, p.id) && Foreign(p.others(3 * k + 1), p.id)
    ensures p.LinesBefore(k + 1) == lines
    ensures p.Manager(k + 1) == Run(p.idleTimeout, EmptyStreamer(), polled + p.others(3 * k + 1))
  {
    hide *;
    RoundOps(p, k);
    RoundOps(p, k + 1);
    RunForeign(p.idleTimeout, polled, p.others(3 * k + 1), p.id);
  }

  lemma RelaysIff(p: Rounds, k: nat, n: nat)
    requires |p.LinesBefore(k)| <= n <= |p.LinesBefore(k + 1)|
    requires n == |p.LinesBefore(k + 1)| || (n > |p.LinesBefore(k)| && !p.delivers(n - 1))
    requires forall i :: 0 <= i < n - 1 ==> p.delivers(i)
    ensures p.Relays(k) <==> n <= |p.LinesBefore(k)| || p.delivers(n - 1)
  {
    hide Rounds.LinesBefore;
    var from, to := |p.LinesBefore(k)|, |p.LinesBefore(k + 1)|;
    if p.Relays(k) && n > from {
      assert p.delivers(n - 1);
    }
    if n <= from || p.delivers(n - 1) {
      forall i: nat | from <= i < to ensures p.delivers(i) {
      }
    }
  }

  lemma DeliveredBut(delivers: nat -> bool, n: nat)
    requires AllDelivered(delivers, n)
    ensures forall i :: 0 <= i < n ==> delivers(i)
  {
  }

  lemma DeliveredAll(delivers: nat -> bool, n: nat)
    requires (forall i :: 0 <= i < n - 1 ==> delivers(i)) && (n > 0 ==> delivers(n - 1))
    ensures AllDelivered(delivers, n)
  {
  }

  lemma EndsIs(p: Rounds, k: nat, exit: Exit)
    requires forall j: nat :: j < k ==> p.Quiet(j)
    requires exit == TimedOut <==> !(p.clock(k + 1) < p.clock(0) + p.wait)
    requires exit == TimedOut || (exit == Disconnected <==> !p.Relays(k))
    requires exit == FoundClosed ==> p.id !in p.Manager(k + 1).streams.vals
    requires exit.Ended? ==>
      p.id in p.Manager(k + 1).streams.vals && IsTerminal(p.status(k)) && p.status(k) == Some(exit.state)
    ensures p.EndsAt(k, exit)
  {
    hide Rounds.Quiet, Rounds.Relays;
  }

  lemma QuietIs(p: Rounds, k: nat)
    requires p.clock(k + 1) < p.clock(0) + p.wait && p.Relays(k)
    requires p.id in p.Manager(k + 1).streams.vals && !IsTerminal(p.status(k))
    ensures p.Quiet(k)
  {
  }

  /** `_sse_emit`: an id line if asked for, the name of the event, then its data; it stops at the
      first write, counted from `n`, that fails. */
  method EmitStatus(state: TaskState, withId: bool, n: nat, delivers: nat -> bool) returns (ws: seq<Write>, ok: bool)
    ensures var all := (if withId then [StatusId] else []) + [StatusName(state), StatusData(state)];
      && ws <= all && ws != []
      && (forall i: nat :: n <= i < n + |ws| - 1 ==> delivers(i))
      && (ok <==> ws == all && delivers(n + |ws| - 1))
      && (!ok ==> !delivers(n + |ws| - 1))
  {
    ws := [];
    if withId {
      ws := [StatusId];
      if !delivers(n) {
        return ws, false;
      }
    }
    ws := ws + [StatusName(state)];
    if !delivers(n + |ws| - 1) {
      return ws, false;
    }
    ws := ws + [StatusData(state)];
    ok := delivers(n + |ws| - 1);
  }

  /** The lines go to the client in order, up to the first write that fails. */
  method SendLines(lines: seq<Line>, before: seq<Write>, delivers: nat -> bool, ghost earlier: seq<Line>)
    returns (writes: seq<Write>, count: nat)
    requires before == Relayed(earlier) && AllDelivered(delivers, |before|)
    ensures count <= |lines| && writes == Relayed(earlier + lines[..count])
    ensures count == |lines| || (count > 0 && !delivers(|writes| - 1))
    ensures forall i :: 0 <= i < |writes| - 1 ==> delivers(i)
  {
    hide *;
    writes, count := before, 0;
    DeliveredBut(delivers, |before|);
    assert earlier + lines[..0] == earlier;
    while count < |lines|
      invariant count <= |lines| && writes == Relayed(earlier + lines[..count])
      invariant forall i :: 0 <= i < |writes| ==> delivers(i)
    {
      RelayedAppend(earlier + lines[..count], lines[count]);
      assert earlier + lines[..count] + [lines[count]] == earlier + lines[..count + 1];
      writes := writes + [Relay(lines[count])];
      count := count + 1;
      if !delivers(|writes| - 1) {
        return;
      }
    }
  }

  /** Other threads work on the manager. */
  method OthersRun(timeout: real, before: Streamer, id: string, others: seq<Op>, ghost opsBefore: seq<Op>)
    returns (s: Streamer, ghost ops: seq<Op>)
    requires Foreign(others, id) && before == Run(timeout, EmptyStreamer(), opsBefore)
    ensures ops == opsBefore + others && s == Run(timeout, EmptyStreamer(), ops)
    ensures Polled(timeout, EmptyStreamer(), ops, id) == Polled(timeout, EmptyStreamer(), opsBefore, id)
  {
    hide *;
    RunForeign(timeout, opsBefore, others, id);
    s, ops := Run(timeout, before, others), opsBefore + others;
  }

  /** `get_pending`, other threads going first. */
  method PollAfter(timeout: real, before: Streamer, id: string, others: seq<Op>, ghost opsBefore: seq<Op>)
    returns (s: Streamer, lines: seq<Line>, ghost ops: seq<Op>)
    requires Foreign(others, id) && before == Run(timeout, EmptyStreamer(), opsBefore)
    ensures ops == opsBefore + others + [Poll(id)] && s == Run(timeout, EmptyStreamer(), ops)
    ensures Polled(timeout, EmptyStreamer(), ops, id) == Polled(timeout, EmptyStreamer(), opsBefore, id) + lines
  {
    hide *;
    s, ops := OthersRun(timeout, before, id, others, opsBefore);
    RunOne(timeout, ops, Poll(id), id);
    StepIs(timeout, s, id);
    lines := Pending(s, id);
    s, ops := ClearPending(s, id), ops + [Poll(id)];
  }

  /** `close_stream`, other threads going first. */
  method CloseAfter(timeout: real, before: Streamer, id: string, others: seq<Op>, ghost opsBefore: seq<Op>)
    returns (s: Streamer, ghost ops: seq<Op>)
    requires Foreign(others, id) && before == Run(timeout, EmptyStreamer(), opsBefore)
    ensures opsBefore <= ops && s == Run(timeout, EmptyStreamer(), ops) && id !in s.streams.vals
    ensures Polled(timeout, EmptyStreamer(), ops, id) == Polled(timeout, EmptyStreamer(), opsBefore, id)
  {
    hide Run, Polled, Foreign, CloseStream, CloseIdle, EmptyStreamer;
    RunForeign(timeout, opsBefore, others, id);
    RunOne(timeout, opsBefore + others, Close(id), id);
    Closed(Run(timeout, before, others), id);
    s := CloseStream(Run(timeout, before, others), id);
    ops := opsBefore + others + [Close(id)];
  }

  /** Without an id line: the name, or the name and the data. */
  lemma StatusWrites(ws: seq<Write>, state: TaskState)
    requires ws <= [] + [StatusName(state), StatusData(state)] && ws != []
    ensures ws == [StatusName(state)] || ws == [StatusName(state), StatusData(state)]
  {
    assert |ws| == 1 || |ws| == 2;
  }

  lemma NothingRelayed()
    ensures Relayed([]) == []
  {
  }

  lemma StepIs(timeout: real, s: Streamer, id: string)
    requires s.Valid()
    ensures Step(timeout, s, Poll(id)) == ClearPending(s, id)
  {
  }

  lemma TerminalIsSome(state: Option<TaskState>)
    requires IsTerminal(state)
    ensures state.Some?
  {
  }

  lemma FifoPrefix(timeout: real, ops: seq<Op>, id: string)
    ensures var v := History(timeout, ops, id);
      Polled(timeout, EmptyStreamer(), ops, id) <= Rendered(v.task, v.pushed)
  {
    ExactlyOnceFifo(timeout, ops, id);
  }

  lemma FinishedIs(writes: seq<Write>, exit: Exit, sent: seq<Line>, polled: seq<Line>, delivers: nat -> bool)
    requires forall i :: 0 <= i < |writes| - 1 ==> delivers(i)
    requires exit.Disconnected? ==> sent <= polled && writes == Relayed(sent) && sent != [] && !delivers(|sent| - 1)
    requires exit.FoundClosed? ==> sent == polled && writes == Relayed(sent)
    requires exit.Ended? ==>
      && sent == polled && IsTerminal(Some(exit.state))
      && (|| writes == Relayed(sent) + [StatusName(exit.state), StatusData(exit.state)]
          || (!delivers(|sent|) && writes == Relayed(sent) + [StatusName(exit.state)]))
    requires exit.TimedOut? ==> sent == polled && writes == Relayed(sent) + [TimeoutNotice]
    ensures Finished(writes, exit, sent, polled, delivers)
  {
  }
}
