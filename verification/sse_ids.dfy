/** The ids of pushed events, and what broadcasting one shared event does to them. */
module SseIds {
  import opened OrderedDicts
  import opened Decimals
  import opened SseModel
  import opened SseRuns

  function IdsOf(ls: seq<Line>): (ids: seq<string>)
    ensures |ids| == |ls| && forall i :: 0 <= i < |ids| ==> ids[i] == ls[i].id
  {
    seq(|ls|, i requires 0 <= i < |ls| => ls[i].id)
  }

  /** The ids the events already had, in order. */
  function Given(es: seq<Event>): seq<string> {
    if es == [] then []
    else Given(es[..|es| - 1]) + if es[|es| - 1].id == None then [] else [es[|es| - 1].id.value]
  }

  lemma EventIdInjective(task: string, m: nat, n: nat)
    requires EventId(task, m) == EventId(task, n)
    ensures m == n
  {
    assert EventId(task, m)[|task| + 1..] == Decimal(m);
    assert EventId(task, n)[|task| + 1..] == Decimal(n);
    DecimalInjective(m, n);
  }

  /** Events pushed to one stream only, all without an id: the n-th line's id is numbered n. */
  lemma {:induction false} AnonymousIdsCount(task: string, es: seq<Event>)
    requires forall e :: e in es ==> e.id == None
    ensures Anonymous(es) == |es|
    ensures forall n :: 0 <= n < |es| ==> Rendered(task, es)[n] == Line(EventId(task, n + 1), es[n].body)
  {
    hide *;
    if es == [] {
      NothingRendered(task);
    } else {
      var before, e := es[..|es| - 1], es[|es| - 1];
      assert es == before + [e];
      AnonymousIdsCount(task, before);
      RenderedAppend(task, before, e);
    }
  }

  /** The ids in a stream's lines are the given ones and the numbers made up so far. */
  lemma {:induction false} IdIn(task: string, es: seq<Event>, id: string)
    ensures id in IdsOf(Rendered(task, es)) <==>
      id in Given(es) || exists k: nat :: 1 <= k <= Anonymous(es) && id == EventId(task, k)
  {
    if es != [] {
      var before, e := es[..|es| - 1], es[|es| - 1];
      assert es == before + [e];
      IdIn(task, before, id);
      RenderedAppend(task, before, e);
      hide Rendered, EventId;
      var line := Rendered(task, es)[|before|];
      assert IdsOf(Rendered(task, es)) == IdsOf(Rendered(task, before)) + [line.id];
      assert line.id == if e.id == None then EventId(task, Anonymous(es)) else e.id.value;
    }
  }

  lemma NoDuplicatesAppend(ids: seq<string>, id: string)
    ensures NoDuplicates(ids + [id]) <==> NoDuplicates(ids) && id !in ids
  {
    if NoDuplicates(ids + [id]) {
      assert forall i :: 0 <= i < |ids| ==> (ids + [id])[i] == ids[i];
      assert (ids + [id])[|ids|] == id;
    }
  }

  /** No given id is one of the numbers made up. */
  ghost predicate Apart(task: string, es: seq<Event>) {
    forall k: nat :: 1 <= k <= Anonymous(es) ==> EventId(task, k) !in Given(es)
  }

  /** The ids within one stream are unique exactly when the ids the events came with are, and
      none of them is a number this stream made up, earlier or later. */
  lemma {:induction false} UniqueIdsIff(task: string, es: seq<Event>)
    ensures NoDuplicates(IdsOf(Rendered(task, es))) <==> NoDuplicates(Given(es)) && Apart(task, es)
  {
    if es != [] {
      var before, e := es[..|es| - 1], es[|es| - 1];
      assert es == before + [e];
      UniqueIdsIff(task, before);
      RenderedAppend(task, before, e);
      var ids, id := IdsOf(Rendered(task, before)), Rendered(task, es)[|before|].id;
      assert IdsOf(Rendered(task, es)) == ids + [id];
      NoDuplicatesAppend(ids, id);
      IdIn(task, before, id);
      GivenAppend(before, e);
      hide Rendered, Anonymous, Given;
      if e.id == None {
        OnlyItsNumber(task, Anonymous(es));
        ApartWithNext(task, before, e);
      } else {
        NoDuplicatesAppend(Given(before), id);
        ApartWithGiven(task, before, e);
      }
    }
  }

  lemma GivenAppend(es: seq<Event>, e: Event)
    ensures Given(es + [e]) == Given(es) + if e.id == None then [] else [e.id.value]
  {
    assert (es + [e])[..|es|] == es;
  }

  lemma OnlyItsNumber(task: string, n: nat)
    ensures forall k: nat :: EventId(task, k) == EventId(task, n) ==> k == n
  {
    forall k: nat | EventId(task, k) == EventId(task, n) ensures k == n {
      EventIdInjective(task, k, n);
    }
  }

  lemma ApartWithNext(task: string, es: seq<Event>, e: Event)
    requires e.id == None
    ensures Given(es + [e]) == Given(es) && Anonymous(es + [e]) == Anonymous(es) + 1
    ensures Apart(task, es + [e]) <==> Apart(task, es) && EventId(task, Anonymous(es) + 1) !in Given(es)
  {
    RenderedAppend(task, es, e);
    GivenAppend(es, e);
    assert Given(es) + [] == Given(es);
  }

  lemma ApartWithGiven(task: string, es: seq<Event>, e: Event)
    requires e.id.Some?
    ensures Apart(task, es + [e]) <==>
      Apart(task, es) && !exists k: nat :: 1 <= k <= Anonymous(es) && e.id.value == EventId(task, k)
  {
    RenderedAppend(task, es, e);
    GivenAppend(es, e);
    hide EventId;
  }

  /** So over every run: the n-th line of an open stream that only took events without an id is
      numbered n, and no id repeats. */
  lemma NumberedLines(timeout: real, ops: seq<Op>, id: string)
    requires id in Run(timeout, EmptyStreamer(), ops).streams.vals
    requires forall e :: e in History(timeout, ops, id).pushed ==> e.id == None
    ensures var v := History(timeout, ops, id);
      var lines := Polled(timeout, EmptyStreamer(), ops, id) + Pending(Run(timeout, EmptyStreamer(), ops), id);
      && |lines| == |v.pushed| && NoDuplicates(IdsOf(lines))
      && forall n :: 0 <= n < |lines| ==> lines[n] == Line(v.task + "_" + Decimal(n + 1), v.pushed[n].body)
  {
    hide *;
    var v := History(timeout, ops, id);
    ExactlyOnceFifo(timeout, ops, id);
    AnonymousIdsCount(v.task, v.pushed);
    UniqueIdsIff(v.task, v.pushed);
    NoneGiven(v.task, v.pushed);
    EventIdIs(v.task);
  }

  lemma EventIdIs(task: string)
    ensures forall n: nat :: EventId(task, n) == task + "_" + Decimal(n)
  {
    hide Decimal;
  }

  lemma {:induction false} NoneGiven(task: string, es: seq<Event>)
    requires forall e :: e in es ==> e.id == None
    ensures Given(es) == [] && NoDuplicates(Given(es)) && Apart(task, es)
  {
    if es != [] {
      var before, e := es[..|es| - 1], es[|es| - 1];
      assert es == before + [e];
      NoneGiven(task, before);
      GivenAppend(before, e);
    }
  }

  // ---- broadcast ----

  /** `_push_sse`: one event object to every listed stream; the first that is open names it. */
  function Broadcast(s: Streamer, ids: seq<string>, e: Event, now: real): (r: Outcome)
    requires s.Valid()
    ensures r.s.Valid()
    decreases |ids|
  {
    if ids == [] then Outcome(s, e)
    else
      var first := PushEvent(s, ids[0], e, now);
      Broadcast(first.s, ids[1..], first.event, now)
  }

  /** A push touches one stream. */
  lemma PushEffect(s: Streamer, i: string, e: Event, now: real, id: string)
    requires s.Valid()
    ensures var r := PushEvent(s, i, e, now);
      && (id in r.s.streams.vals <==> id in s.streams.vals)
      && (id in s.streams.vals && id != i ==> r.s.streams.vals[id] == s.streams.vals[id])
      && (id in s.streams.vals && id == i ==>
            && r.event == e.(id := Some(AssignedId(s.streams.vals[id], e)))
            && r.s.streams.vals[id].pending == s.streams.vals[id].pending + [Line(r.event.id.value, e.body)])
      && (e.id.Some? ==> r.event == e)
  {
  }

  lemma {:induction false} BroadcastSets(s: Streamer, ids: seq<string>, e: Event, now: real, id: string)
    requires s.Valid() && e.id.Some? && NoDuplicates(ids)
    ensures var r := Broadcast(s, ids, e, now);
      && r.event == e
      && (id in r.s.streams.vals <==> id in s.streams.vals)
      && (id in s.streams.vals && id !in ids ==> r.s.streams.vals[id] == s.streams.vals[id])
      && (id in s.streams.vals && id in ids ==>
            r.s.streams.vals[id].pending == s.streams.vals[id].pending + [Line(e.id.value, e.body)])
    decreases |ids|
  {
    if ids != [] {
      assert ids == [ids[0]] + ids[1..];
      PushEffect(s, ids[0], e, now, id);
      hide PushEvent;
      BroadcastSets(PushEvent(s, ids[0], e, now).s, ids[1..], e, now, id);
    }
  }

  /** With the indexes in agreement, broadcasting a fresh event for a task gives each of the
      task's open streams exactly one line, the same for all and numbered by the first of them,
      and leaves every other stream alone. */
  lemma BroadcastReachesAll(s: Streamer, task: string, e: Event, now: real, id: string)
    requires s.Valid() && s.Indexed() && e.id == None
    ensures var ids := Subscribed(s, task); var r := Broadcast(s, ids, e, now);
      && (id in r.s.streams.vals <==> id in s.streams.vals)
      && (id in s.streams.vals && s.streams.vals[id].task != task ==> r.s.streams.vals[id] == s.streams.vals[id])
      && (id in s.streams.vals && s.streams.vals[id].task == task ==>
            && ids != [] && ids[0] in s.streams.vals
            && var line := Line(EventId(task, s.streams.vals[ids[0]].counter + 1), e.body);
               r.s.streams.vals[id].pending == s.streams.vals[id].pending + [line])
  {
    var ids := Subscribed(s, task);
    assert NoDuplicates(ids);
    assert id in ids <==> id in s.streams.vals && s.streams.vals[id].task == task;
    if ids != [] {
      assert ids == [ids[0]] + ids[1..];
      assert ids[0] in ids;
      PushEffect(s, ids[0], e, now, id);
      PushEffect(s, ids[0], e, now, ids[0]);
      hide PushEvent, Streamer.Indexed;
      var first := PushEvent(s, ids[0], e, now);
      BroadcastSets(first.s, ids[1..], first.event, now, id);
    }
  }

  lemma BroadcastOne(s: Streamer, id: string, e: Event, now: real)
    requires s.Valid()
    ensures Broadcast(s, [id], e, now).s == PushEvent(s, id, e, now).s
  {
    assert [id][1..] == [];
  }

  lemma BroadcastTwo(s: Streamer, i: string, j: string, e: Event, now: real)
    requires s.Valid()
    ensures Broadcast(s, [i, j], e, now).s ==
      PushEvent(PushEvent(s, i, e, now).s, j, PushEvent(s, i, e, now).event, now).s
  {
    var first := PushEvent(s, i, e, now);
    assert [i, j][1..] == [j];
    assert Broadcast(s, [i, j], e, now) == Broadcast(first.s, [j], first.event, now);
    BroadcastOne(first.s, j, first.event, now);
  }

  /** A streamer with streams "A" and "B" of one task. */
  ghost function Pair(task: string, a: Stream, b: Stream): (s: Streamer)
    ensures s.Valid()
  {
    Streamer(OrderedDict(["A", "B"], map["A" := a, "B" := b]), map[task := ["A", "B"]])
  }

  lemma OpenPair(task: string)
    ensures var blank := Stream(task, [], 0, None, 0.0);
      OpenStream(OpenStream(EmptyStreamer(), "A", task, 0.0), "B", task, 0.0) == Pair(task, blank, blank)
  {
    var blank := Stream(task, [], 0, None, 0.0);
    var one := OpenStream(EmptyStreamer(), "A", task, 0.0);
    assert one.streams.keys == ["A"] && one.streams.vals == map["A" := blank] && one.byTask == map[task := ["A"]];
    var two := OpenStream(one, "B", task, 0.0);
    assert two.streams.keys == ["A", "B"];
    assert two.streams.vals == map["A" := blank, "B" := blank];
    assert two.byTask == map[task := ["A", "B"]];
  }

  lemma PushPair(task: string, a: Stream, b: Stream, e: Event, now: real)
    ensures PushEvent(Pair(task, a, b), "A", e, now)
      == Outcome(Pair(task, Took(a, e, now), b), e.(id := Some(AssignedId(a, e))))
    ensures PushEvent(Pair(task, a, b), "B", e, now).s == Pair(task, a, Took(b, e, now))
  {
    hide AssignedId, Took;
    var s := Pair(task, a, b);
    assert PushEvent(s, "A", e, now).s.streams.vals == map["A" := Took(a, e, now), "B" := b];
    assert PushEvent(s, "B", e, now).s.streams.vals == map["A" := a, "B" := Took(b, e, now)];
  }

  /** The second stream of a pair, alone. */
  ghost function Single(task: string, b: Stream): (s: Streamer)
    ensures s.Valid()
  {
    Streamer(OrderedDict(["B"], map["B" := b]), map[task := ["B"]])
  }

  lemma WithoutHead(x: string, y: string)
    ensures Without([x, y], x) == [y]
  {
    assert IndexOf([x, y], x) == 0;
  }

  lemma ClosePair(task: string, a: Stream, b: Stream)
    requires a.task == task
    ensures CloseStream(Pair(task, a, b), "A") == Single(task, b)
  {
    var s := Pair(task, a, b);
    WithoutHead("A", "B");
    hide Without, IndexOf;
    assert s.streams.Pop("A").vals == map["B" := b];
    assert Delisted(s.byTask, task, "A") == map[task := ["B"]];
  }

  lemma PushSingle(task: string, b: Stream, e: Event, now: real)
    ensures Pending(Broadcast(Single(task, b), ["B"], e, now).s, "B") == Took(b, e, now).pending
  {
    BroadcastOne(Single(task, b), "B", e, now);
  }

  lemma PairLists(task: string, a: Stream, b: Stream)
    ensures Subscribed(Pair(task, a, b), task) == ["A", "B"] && Subscribed(Single(task, b), task) == ["B"]
  {
  }

  lemma TookIs(st: Stream, e: Event, now: real)
    ensures Took(st, e, now).task == st.task
    ensures Took(st, e, now).pending == st.pending + [Line(AssignedId(st, e), e.body)]
    ensures Took(st, e, now).counter == if e.id == None then st.counter + 1 else st.counter
    ensures AssignedId(st, e) == if e.id == None then EventId(st.task, st.counter + 1) else e.id.value
  {
  }

  /** Broadcast breaks the uniqueness of ids within a stream: two streams of one task, an event
      to both, the first closed, another event: the second stream sees one id twice. */
  lemma BroadcastRepeatsId(task: string, b1: string, b2: string)
    ensures
      var s0 := OpenStream(OpenStream(EmptyStreamer(), "A", task, 0.0), "B", task, 0.0);
      var s1 := Broadcast(s0, Subscribed(s0, task), Event(None, b1), 1.0).s;
      var s2 := CloseStream(s1, "A");
      var s3 := Broadcast(s2, Subscribed(s2, task), Event(None, b2), 2.0).s;
      Pending(s3, "B") == [Line(EventId(task, 1), b1), Line(EventId(task, 1), b2)]
  {
    hide *;
    var blank, e1, e2 := Stream(task, [], 0, None, 0.0), Event(None, b1), Event(None, b2);
    OpenPair(task);
    PairLists(task, blank, blank);
    BroadcastTwo(Pair(task, blank, blank), "A", "B", e1, 1.0);
    PushPair(task, blank, blank, e1, 1.0);
    var a, named := Took(blank, e1, 1.0), e1.(id := Some(AssignedId(blank, e1)));
    PushPair(task, a, blank, named, 1.0);
    var b := Took(blank, named, 1.0);
    TookIs(blank, e1, 1.0);
    TookIs(blank, named, 1.0);
    ClosePair(task, a, b);
    PairLists(task, a, b);
    PushSingle(task, b, e2, 2.0);
    TookIs(b, e2, 2.0);
    var l1, l2 := Line(EventId(task, 1), b1), Line(EventId(task, 1), b2);
    assert [] + [l1] + [l2] == [l1, l2];
  }
}
