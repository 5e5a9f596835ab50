/** Runs in which every event is broadcast, as the hook does: which numbers the events get, and
    when a stream sees one twice. */
module SseBroadcasts {
  import opened OrderedDicts
  import opened SseModel
  import opened SseRuns
  import opened SseIds

  /** The manager, and what each stream's polls returned since it was opened. */
  datatype World = World(s: Streamer, read: map<string, seq<Line>>)

  datatype Action =
    | Opens(id: string, task: string, now: real)
    | Closes(id: string)
    | Polls(id: string)
    | Cleans(now: real)
    | Broadcasts(task: string, body: string, now: real)

  function ReadSoFar(w: World, id: string): seq<Line> {
    if id in w.read then w.read[id] else []
  }

  /** The lines a stream took since it was opened. */
  function Lines(w: World, id: string): seq<Line> {
    ReadSoFar(w, id) + Pending(w.s, id)
  }

  function Act(timeout: real, w: World, a: Action): (r: World)
    requires w.s.Valid()
    ensures r.s.Valid()
  {
    match a
    case Opens(id, task, now) => World(OpenStream(w.s, id, task, now), w.read[id := []])
    case Closes(id) => World(CloseStream(w.s, id), w.read)
    case Polls(id) => World(ClearPending(w.s, id), w.read[id := Lines(w, id)])
    case Cleans(now) => World(CloseIdle(w.s, w.s.streams.keys, timeout, now), w.read)
    case Broadcasts(task, body, now) =>
      World(Broadcast(w.s, Subscribed(w.s, task), Event(None, body), now).s, w.read)
  }

  function RunAll(timeout: real, acts: seq<Action>): (w: World)
    ensures w.s.Valid()
  {
    if acts == [] then World(EmptyStreamer(), map[])
    else Act(timeout, RunAll(timeout, acts[..|acts| - 1]), acts[|acts| - 1])
  }

  /** No stream is opened under the id of an open one. */
  ghost predicate FreshIds(timeout: real, acts: seq<Action>) {
    acts != [] ==>
      && FreshIds(timeout, acts[..|acts| - 1])
      && (acts[|acts| - 1].Opens? ==> acts[|acts| - 1].id !in RunAll(timeout, acts[..|acts| - 1]).s.streams.vals)
  }

  /** The stream that names the task's events. */
  function First(s: Streamer, task: string): Option<string> {
    if Subscribed(s, task) == [] then None else Some(Subscribed(s, task)[0])
  }

  /** The broadcasts of the task since its current first stream became first. */
  function Count(timeout: real, acts: seq<Action>, task: string): nat {
    if acts == [] then 0
    else
      var before, a := acts[..|acts| - 1], acts[|acts| - 1];
      var s := RunAll(timeout, before).s;
      if First(RunAll(timeout, acts).s, task) != First(s, task) then 0
      else
        Count(timeout, before, task) +
          if a.Broadcasts? && a.task == task && First(s, task).Some? then 1 else 0
  }

  /** The numbers stream `id` took since it was opened, each one more than the count then. */
  function Taken(timeout: real, acts: seq<Action>, id: string): seq<nat> {
    if acts == [] then []
    else
      var before, a := acts[..|acts| - 1], acts[|acts| - 1];
      var s := RunAll(timeout, before).s;
      if a.Opens? && a.id == id then []
      else if a.Broadcasts? && id in s.streams.vals && s.streams.vals[id].task == a.task then
        Taken(timeout, before, id) + [Count(timeout, before, a.task) + 1]
      else Taken(timeout, before, id)
  }

  // ---- the first stream ----

  /** `r` is `s` after some streams left: the others are as they were, and a first stream that
      stayed is still first. */
  ghost predicate Thinned(s: Streamer, r: Streamer) {
    && (forall id :: id in r.streams.vals ==> id in s.streams.vals && r.streams.vals[id] == s.streams.vals[id])
    && (forall t :: First(s, t).Some? && First(s, t).value in r.streams.vals ==> First(r, t) == First(s, t))
  }

  lemma WithoutKeepsFirst(keys: seq<string>, k: string)
    requires keys != [] && keys[0] != k
    ensures Without(keys, k) != [] && Without(keys, k)[0] == keys[0]
  {
  }

  lemma CloseThins(s: Streamer, id: string)
    requires s.Valid() && s.Indexed()
    ensures Thinned(s, CloseStream(s, id))
  {
    var r := CloseStream(s, id);
    forall t | First(s, t).Some? && First(s, t).value in r.streams.vals ensures First(r, t) == First(s, t) {
      if id in s.streams.vals && t in s.byTask {
        WithoutKeepsFirst(s.byTask[t], id);
      }
    }
  }

  lemma ThinnedTrans(s: Streamer, m: Streamer, r: Streamer)
    requires Thinned(s, m) && Thinned(m, r)
    ensures Thinned(s, r)
  {
  }

  lemma {:induction false} CleanThins(s: Streamer, ids: seq<string>, timeout: real, now: real)
    requires s.Valid() && s.Indexed()
    ensures Thinned(s, CloseIdle(s, ids, timeout, now))
    decreases |ids|
  {
    hide Streamer.Indexed, Thinned, CloseStream;
    if ids == [] {
      ThinnedSelf(s);
    } else {
      CloseThins(s, ids[0]);
      CloseKeepsIndex(s, ids[0]);
      ThinnedSelf(s);
      var m := CloseIfIdle(s, ids[0], timeout, now);
      CleanThins(m, ids[1..], timeout, now);
      ThinnedTrans(s, m, CloseIdle(m, ids[1..], timeout, now));
    }
  }

  lemma ThinnedSelf(s: Streamer)
    ensures Thinned(s, s)
  {
  }

  // ---- what a broadcast does to the counters ----

  lemma PushCounts(s: Streamer, i: string, e: Event, now: real, id: string)
    requires s.Valid() && id in s.streams.vals
    ensures var r := PushEvent(s, i, e, now).s;
      && id in r.streams.vals && r.streams.vals[id].task == s.streams.vals[id].task
      && r.streams.vals[id].counter ==
           s.streams.vals[id].counter + if i == id && e.id == None then 1 else 0
    ensures PushEvent(s, i, e, now).s.byTask == s.byTask
    ensures i in s.streams.vals || e.id.Some? ==> PushEvent(s, i, e, now).event.id.Some?
  {
  }

  lemma {:induction false} NamedCounts(s: Streamer, ids: seq<string>, e: Event, now: real, id: string)
    requires s.Valid() && id in s.streams.vals && e.id.Some?
    ensures var r := Broadcast(s, ids, e, now).s;
      && id in r.streams.vals && r.streams.vals[id].task == s.streams.vals[id].task
      && r.streams.vals[id].counter == s.streams.vals[id].counter && r.byTask == s.byTask
    decreases |ids|
  {
    if ids != [] {
      PushCounts(s, ids[0], e, now, id);
      hide PushEvent;
      var first := PushEvent(s, ids[0], e, now);
      NamedCounts(first.s, ids[1..], first.event, now, id);
    }
  }

  /** Only the first stream counts a broadcast. */
  lemma BroadcastCounts(s: Streamer, task: string, body: string, now: real, id: string)
    requires s.Valid() && s.Indexed() && id in s.streams.vals
    ensures var r := Broadcast(s, Subscribed(s, task), Event(None, body), now).s;
      && id in r.streams.vals && r.streams.vals[id].task == s.streams.vals[id].task && r.byTask == s.byTask
      && r.streams.vals[id].counter == s.streams.vals[id].counter + if First(s, task) == Some(id) then 1 else 0
  {
    var ids, e := Subscribed(s, task), Event(None, body);
    if ids != [] {
      assert ids[0] in ids;
      PushCounts(s, ids[0], e, now, id);
      hide PushEvent, Streamer.Indexed;
      var first := PushEvent(s, ids[0], e, now);
      NamedCounts(first.s, ids[1..], first.event, now, id);
    }
  }

  // ---- the invariant ----

  ghost predicate Numbered(ls: seq<Line>, task: string, ns: seq<nat>) {
    |ls| == |ns| && forall i :: 0 <= i < |ls| ==> ls[i].id == EventId(task, ns[i])
  }

  /** Stream `id`, if open: its counter, if it is first, and its lines. */
  ghost predicate Sound(w: World, id: string, count: nat, taken: seq<nat>) {
    id in w.s.streams.vals ==>
      var st := w.s.streams.vals[id];
      && st.counter == (if First(w.s, st.task) == Some(id) then count else 0)
      && Numbered(Lines(w, id), st.task, taken)
  }

  /** The count of the task of stream `id`. */
  function CountFor(timeout: real, acts: seq<Action>, id: string): nat {
    var s := RunAll(timeout, acts).s;
    if id in s.streams.vals then Count(timeout, acts, s.streams.vals[id].task) else 0
  }

  ghost predicate AllSound(timeout: real, acts: seq<Action>) {
    var w := RunAll(timeout, acts);
    w.s.Indexed() && forall id :: Sound(w, id, CountFor(timeout, acts, id), Taken(timeout, acts, id))
  }

  lemma CountStep(timeout: real, acts: seq<Action>, task: string)
    requires acts != []
    ensures var before, a := acts[..|acts| - 1], acts[|acts| - 1];
      var s := RunAll(timeout, before).s;
      && RunAll(timeout, acts) == Act(timeout, RunAll(timeout, before), a)
      && Count(timeout, acts, task) ==
           if First(Act(timeout, RunAll(timeout, before), a).s, task) != First(s, task) then 0
           else Count(timeout, before, task) + if a.Broadcasts? && a.task == task && First(s, task).Some? then 1 else 0
  {
    hide Act;
  }

  lemma ThinnedSound(w: World, r: World, id: string, count: nat, count': nat, taken: seq<nat>)
    requires Sound(w, id, count, taken) && Thinned(w.s, r.s) && r.read == w.read
    requires id in r.s.streams.vals ==>
      var t := r.s.streams.vals[id].task;
      count' == if First(r.s, t) != First(w.s, t) then 0 else count
    ensures Sound(r, id, count', taken)
  {
    if id in r.s.streams.vals {
      var t := r.s.streams.vals[id].task;
      assert First(w.s, t) == Some(id) ==> First(r.s, t) == Some(id);
    }
  }

  lemma OpenSound(w: World, i: string, task: string, now: real, id: string, count: nat, count': nat, taken: seq<nat>)
    requires w.s.Valid() && w.s.Indexed() && i !in w.s.streams.vals && Sound(w, id, count, taken)
    requires var r := World(OpenStream(w.s, i, task, now), w.read[i := []]);
      id in r.s.streams.vals ==>
        var t := r.s.streams.vals[id].task;
        count' == if First(r.s, t) != First(w.s, t) then 0 else count
    ensures Sound(World(OpenStream(w.s, i, task, now), w.read[i := []]), id, count', if i == id then [] else taken)
  {
    var r := World(OpenStream(w.s, i, task, now), w.read[i := []]);
    assert i !in Subscribed(w.s, task);
    if id in w.s.streams.vals {
      assert id in Subscribed(w.s, w.s.streams.vals[id].task);
    }
    hide Streamer.Indexed, EventId;
  }

  lemma PollSound(w: World, i: string, id: string, count: nat, taken: seq<nat>)
    requires w.s.Valid() && Sound(w, id, count, taken)
    ensures Sound(World(ClearPending(w.s, i), w.read[i := Lines(w, i)]), id, count, taken)
  {
    assert Lines(w, id) + [] == Lines(w, id);
    hide EventId;
  }

  /** The manager after a broadcast of a fresh event. */
  function Sent(w: World, task: string, body: string, now: real): World
    requires w.s.Valid()
  {
    World(Broadcast(w.s, Subscribed(w.s, task), Event(None, body), now).s, w.read)
  }

  lemma NumberedAppend(ls: seq<Line>, task: string, ns: seq<nat>, n: nat, body: string)
    requires Numbered(ls, task, ns)
    ensures Numbered(ls + [Line(EventId(task, n), body)], task, ns + [n])
  {
    hide EventId;
  }

  lemma SameListsSameFirst(s: Streamer, r: Streamer)
    requires r.byTask == s.byTask
    ensures forall t :: First(r, t) == First(s, t)
  {
  }

  /** One line more, numbered one more than the first stream has counted. */
  lemma SentLines(w: World, task: string, body: string, now: real, id: string)
    requires w.s.Valid() && w.s.Indexed() && id in w.s.streams.vals && w.s.streams.vals[id].task == task
    ensures First(w.s, task).Some? && First(w.s, task).value in w.s.streams.vals
    ensures Lines(Sent(w, task, body, now), id) == Lines(w, id) +
      [Line(EventId(task, w.s.streams.vals[First(w.s, task).value].counter + 1), body)]
  {
    BroadcastReachesAll(w.s, task, Event(None, body), now, id);
    InList(w.s, id);
    hide Broadcast, Streamer.Indexed, EventId;
    var line := Line(EventId(task, w.s.streams.vals[First(w.s, task).value].counter + 1), body);
    assert ReadSoFar(w, id) + (Pending(w.s, id) + [line]) == Lines(w, id) + [line];
  }

  /** The task's streams take the line, and only the first one counts it. */
  lemma MineSound(w: World, task: string, body: string, now: real, id: string, count: nat, taken: seq<nat>)
    requires w.s.Valid() && w.s.Indexed() && Sound(w, id, count, taken)
    requires id in w.s.streams.vals && w.s.streams.vals[id].task == task
    requires First(w.s, task).Some? ==>
      First(w.s, task).value in w.s.streams.vals && w.s.streams.vals[First(w.s, task).value].counter == count
    ensures Sound(Sent(w, task, body, now), id, count + 1, taken + [count + 1])
  {
    BroadcastCounts(w.s, task, body, now, id);
    SentLines(w, task, body, now, id);
    SameListsSameFirst(w.s, Sent(w, task, body, now).s);
    NumberedAppend(Lines(w, id), task, taken, count + 1, body);
    hide Broadcast, Streamer.Indexed, EventId, Lines, First, Numbered, Subscribed, Sent;
  }

  /** Streams of other tasks are left alone. */
  lemma OtherSound(w: World, task: string, body: string, now: real, id: string, count: nat, taken: seq<nat>)
    requires w.s.Valid() && w.s.Indexed() && Sound(w, id, count, taken)
    requires id in w.s.streams.vals && w.s.streams.vals[id].task != task
    ensures Sound(Sent(w, task, body, now), id, count, taken)
  {
    BroadcastReachesAll(w.s, task, Event(None, body), now, id);
    BroadcastCounts(w.s, task, body, now, id);
    SameListsSameFirst(w.s, Sent(w, task, body, now).s);
    hide Broadcast, Streamer.Indexed, EventId, First, Numbered, Subscribed;
  }

  lemma InList(s: Streamer, id: string)
    requires s.Indexed() && id in s.streams.vals
    ensures First(s, s.streams.vals[id].task).Some?
  {
    assert id in Subscribed(s, s.streams.vals[id].task);
  }

  lemma FirstCounts(s: Streamer, task: string)
    requires s.Indexed() && First(s, task).Some?
    ensures First(s, task).value in s.streams.vals && s.streams.vals[First(s, task).value].task == task
  {
    assert Subscribed(s, task)[0] in Subscribed(s, task);
  }

  lemma ActKeepsIndex(timeout: real, w: World, a: Action)
    requires w.s.Valid() && w.s.Indexed() && (a.Opens? ==> a.id !in w.s.streams.vals)
    ensures Act(timeout, w, a).s.Indexed()
  {
    hide Streamer.Indexed, OpenStream, CloseStream, CloseIdle, Broadcast;
    match a
    case Opens(id, task, now) => OpenKeepsIndex(w.s, id, task, now);
    case Closes(id) => CloseKeepsIndex(w.s, id);
    case Polls(id) =>
      if id in w.s.streams.vals {
        UpdateKeepsIndex(w.s, id, w.s.streams.vals[id].(pending := []));
      }
    case Cleans(now) => CloseIdleKeepsIndex(w.s, w.s.streams.keys, timeout, now);
    case Broadcasts(task, body, now) => BroadcastKeepsIndex(w.s, Subscribed(w.s, task), Event(None, body), now);
  }

  lemma {:induction false} BroadcastKeepsIndex(s: Streamer, ids: seq<string>, e: Event, now: real)
    requires s.Valid() && s.Indexed()
    ensures Broadcast(s, ids, e, now).s.Indexed()
    decreases |ids|
  {
    hide Streamer.Indexed;
    if ids != [] {
      if ids[0] in s.streams.vals {
        UpdateKeepsIndex(s, ids[0], Took(s.streams.vals[ids[0]], e, now));
      }
      BroadcastKeepsIndex(PushEvent(s, ids[0], e, now).s, ids[1..], PushEvent(s, ids[0], e, now).event, now);
    }
  }

  lemma TakenStep(timeout: real, acts: seq<Action>, id: string)
    requires acts != []
    ensures var before, a := acts[..|acts| - 1], acts[|acts| - 1];
      var s := RunAll(timeout, before).s;
      Taken(timeout, acts, id) ==
        if a.Opens? && a.id == id then []
        else if a.Broadcasts? && id in s.streams.vals && s.streams.vals[id].task == a.task then
          Taken(timeout, before, id) + [Count(timeout, before, a.task) + 1]
        else Taken(timeout, before, id)
  {
    hide Act, RunAll, Count;
  }

  /** A stream that stays keeps its task. */
  lemma QuietTask(timeout: real, w: World, a: Action, id: string)
    requires w.s.Valid() && w.s.Indexed() && (a.Opens? ==> a.id !in w.s.streams.vals) && !a.Broadcasts?
    ensures var r := Act(timeout, w, a);
      id in w.s.streams.vals && id in r.s.streams.vals ==> r.s.streams.vals[id].task == w.s.streams.vals[id].task
  {
    hide *;
    ActIs(timeout, w, a);
    var r := Act(timeout, w, a);
    if id in w.s.streams.vals && id in r.s.streams.vals {
      match a
      case Opens(i, task, now) => OpenTask(w.s, i, task, now, id);
      case Polls(i) => PollTask(w.s, i, id);
      case Closes(i) =>
        CloseThins(w.s, i);
        ThinnedTask(w.s, r.s, id);
      case Cleans(now) =>
        CleanThins(w.s, w.s.streams.keys, timeout, now);
        ThinnedTask(w.s, r.s, id);
    }
  }

  /** Openings, polls, closings and cleanups take no line. */
  lemma QuietSound(timeout: real, w: World, a: Action, id: string, count: nat, taken: seq<nat>)
    requires w.s.Valid() && w.s.Indexed() && (a.Opens? ==> a.id !in w.s.streams.vals) && !a.Broadcasts?
    requires Sound(w, id, count, taken)
    ensures var r := Act(timeout, w, a);
      id in r.s.streams.vals ==>
        var t := r.s.streams.vals[id].task;
        Sound(r, id, if First(r.s, t) != First(w.s, t) then 0 else count, if a.Opens? && a.id == id then [] else taken)
  {
    hide *;
    ActIs(timeout, w, a);
    var r := Act(timeout, w, a);
    if id in r.s.streams.vals {
      var t := r.s.streams.vals[id].task;
      var count' := if First(r.s, t) != First(w.s, t) then 0 else count;
      match a
      case Opens(i, task, now) => OpenSound(w, i, task, now, id, count, count', taken);
      case Polls(i) =>
        PollTask(w.s, i, id);
        PollSound(w, i, id, count, taken);
      case Closes(i) =>
        CloseThins(w.s, i);
        ThinnedSound(w, r, id, count, count', taken);
      case Cleans(now) =>
        CleanThins(w.s, w.s.streams.keys, timeout, now);
        ThinnedSound(w, r, id, count, count', taken);
    }
  }

  lemma ActIs(timeout: real, w: World, a: Action)
    requires w.s.Valid()
    ensures a.Opens? ==>
      Act(timeout, w, a) == World(OpenStream(w.s, a.id, a.task, a.now), w.read[a.id := []])
    ensures a.Closes? ==> Act(timeout, w, a) == World(CloseStream(w.s, a.id), w.read)
    ensures a.Polls? ==> Act(timeout, w, a) == World(ClearPending(w.s, a.id), w.read[a.id := Lines(w, a.id)])
    ensures a.Cleans? ==> Act(timeout, w, a) == World(CloseIdle(w.s, w.s.streams.keys, timeout, a.now), w.read)
    ensures a.Broadcasts? ==> Act(timeout, w, a) == Sent(w, a.task, a.body, a.now)
  {
  }

  lemma OpenTask(s: Streamer, i: string, task: string, now: real, id: string)
    requires s.Valid()
    ensures id in s.streams.vals && id != i ==>
      var r := OpenStream(s, i, task, now);
      id in r.streams.vals && r.streams.vals[id] == s.streams.vals[id]
  {
  }

  lemma PollTask(s: Streamer, i: string, id: string)
    requires s.Valid()
    ensures var r := ClearPending(s, i);
      && (id in r.streams.vals <==> id in s.streams.vals)
      && (id in s.streams.vals ==> r.streams.vals[id].task == s.streams.vals[id].task)
      && (forall t :: First(r, t) == First(s, t))
  {
  }

  lemma ThinnedTask(s: Streamer, r: Streamer, id: string)
    requires Thinned(s, r) && id in r.streams.vals
    ensures id in s.streams.vals && r.streams.vals[id] == s.streams.vals[id]
  {
  }

  lemma KnownSound(timeout: real, acts: seq<Action>, id: string, task: string)
    requires AllSound(timeout, acts)
    requires var s := RunAll(timeout, acts).s; id in s.streams.vals ==> s.streams.vals[id].task == task
    ensures Sound(RunAll(timeout, acts), id, Count(timeout, acts, task), Taken(timeout, acts, id))
  {
    hide RunAll, Count, Taken, Streamer.Indexed, First, Numbered, Lines;
  }

  /** The first stream's counter is the count. */
  lemma FirstIsCount(timeout: real, acts: seq<Action>, task: string)
    requires AllSound(timeout, acts)
    ensures var s := RunAll(timeout, acts).s;
      var first := First(s, task);
      first.Some? ==>
        first.value in s.streams.vals && s.streams.vals[first.value].counter == Count(timeout, acts, task)
  {
    hide *;
    var w := RunAll(timeout, acts);
    KnownIndexed(timeout, acts);
    if First(w.s, task).Some? {
      FirstCounts(w.s, task);
      var id := First(w.s, task).value;
      KnownSound(timeout, acts, id, task);
      SoundCounter(w, id, Count(timeout, acts, task), Taken(timeout, acts, id));
    }
  }

  lemma KnownIndexed(timeout: real, acts: seq<Action>)
    requires AllSound(timeout, acts)
    ensures RunAll(timeout, acts).s.Indexed()
  {
  }

  lemma SoundCounter(w: World, id: string, count: nat, taken: seq<nat>)
    requires Sound(w, id, count, taken) && id in w.s.streams.vals
    ensures First(w.s, w.s.streams.vals[id].task) == Some(id) ==> w.s.streams.vals[id].counter == count
    ensures Numbered(Lines(w, id), w.s.streams.vals[id].task, taken)
  {
  }

  lemma SentStreams(w: World, task: string, body: string, now: real, id: string)
    requires w.s.Valid() && w.s.Indexed()
    ensures var s := Sent(w, task, body, now).s;
      && (id in s.streams.vals <==> id in w.s.streams.vals)
      && (id in s.streams.vals ==> s.streams.vals[id].task == w.s.streams.vals[id].task)
      && (id in s.streams.vals ==> forall t :: First(s, t) == First(w.s, t))
  {
    BroadcastReachesAll(w.s, task, Event(None, body), now, id);
    hide Broadcast, Streamer.Indexed, First;
    if id in w.s.streams.vals {
      BroadcastCounts(w.s, task, body, now, id);
      SameListsSameFirst(w.s, Sent(w, task, body, now).s);
    }
  }

  lemma BroadcastSound(timeout: real, before: seq<Action>, task: string, body: string, now: real, id: string)
    requires AllSound(timeout, before)
    ensures var w := RunAll(timeout, before);
      id in w.s.streams.vals ==>
        var mine := w.s.streams.vals[id].task == task;
        var count, taken := CountFor(timeout, before, id), Taken(timeout, before, id);
        Sound(Sent(w, task, body, now), id, if mine then count + 1 else count,
              if mine then taken + [count + 1] else taken)
  {
    hide *;
    var w := RunAll(timeout, before);
    KnownIndexed(timeout, before);
    if id in w.s.streams.vals {
      var t := w.s.streams.vals[id].task;
      CountForIs(timeout, before, id);
      KnownSound(timeout, before, id, t);
      if t == task {
        FirstIsCount(timeout, before, task);
        MineSound(w, task, body, now, id, Count(timeout, before, t), Taken(timeout, before, id));
      } else {
        OtherSound(w, task, body, now, id, Count(timeout, before, t), Taken(timeout, before, id));
      }
    }
  }

  lemma CountForIs(timeout: real, acts: seq<Action>, id: string)
    ensures var s := RunAll(timeout, acts).s;
      CountFor(timeout, acts, id) ==
        if id in s.streams.vals then Count(timeout, acts, s.streams.vals[id].task) else 0
  {
  }

  /** One action keeps every stream's lines and counter in step with the history. */
  lemma ActSound(timeout: real, acts: seq<Action>, id: string)
    requires acts != [] && FreshIds(timeout, acts) && AllSound(timeout, acts[..|acts| - 1])
    ensures Sound(RunAll(timeout, acts), id, CountFor(timeout, acts, id), Taken(timeout, acts, id))
  {
    hide *;
    var before, a := acts[..|acts| - 1], acts[|acts| - 1];
    var w, r := RunAll(timeout, before), RunAll(timeout, acts);
    var taken := Taken(timeout, acts, id);
    FreshStep(timeout, acts);
    KnownIndexed(timeout, before);
    CountForIs(timeout, acts, id);
    TakenStep(timeout, acts, id);
    CountStep(timeout, acts, if id in r.s.streams.vals then r.s.streams.vals[id].task else "");
    if id !in r.s.streams.vals {
      GoneSound(r, id, CountFor(timeout, acts, id), taken);
    } else if a.Broadcasts? {
      ActIs(timeout, w, a);
      SentStreams(w, a.task, a.body, a.now, id);
      CountForIs(timeout, before, id);
      InList(w.s, id);
      BroadcastSound(timeout, before, a.task, a.body, a.now, id);
    } else {
      var t := r.s.streams.vals[id].task;
      QuietTask(timeout, w, a, id);
      KnownSound(timeout, before, id, t);
      QuietSound(timeout, w, a, id, Count(timeout, before, t), Taken(timeout, before, id));
    }
  }

  lemma FreshStep(timeout: real, acts: seq<Action>)
    requires acts != [] && FreshIds(timeout, acts)
    ensures FreshIds(timeout, acts[..|acts| - 1])
    ensures acts[|acts| - 1].Opens? ==> acts[|acts| - 1].id !in RunAll(timeout, acts[..|acts| - 1]).s.streams.vals
  {
  }

  lemma GoneSound(w: World, id: string, count: nat, taken: seq<nat>)
    requires id !in w.s.streams.vals
    ensures Sound(w, id, count, taken)
  {
  }

  lemma {:induction false} RunSound(timeout: real, acts: seq<Action>)
    requires FreshIds(timeout, acts)
    ensures AllSound(timeout, acts)
  {
    if acts != [] {
      var before, a := acts[..|acts| - 1], acts[|acts| - 1];
      RunSound(timeout, before);
      ActKeepsIndex(timeout, RunAll(timeout, before), a);
      CountStep(timeout, acts, "");
      forall id ensures Sound(RunAll(timeout, acts), id, CountFor(timeout, acts, id), Taken(timeout, acts, id)) {
        ActSound(timeout, acts, id);
      }
      hide Act, RunAll, Count, Taken, Streamer.Indexed, Sound, CountFor;
    }
  }

  /** Whatever was opened, polled, closed, cleaned up and broadcast before: the next broadcast
      adds one line to each open stream of its task, numbered one more than the broadcasts since
      the task's first stream became first, and the stream sees an id twice exactly when it took
      that number already. */
  lemma BroadcastRepeatsIff(timeout: real, acts: seq<Action>, task: string, body: string, now: real, id: string)
    requires FreshIds(timeout, acts)
    requires var s := RunAll(timeout, acts).s; id in s.streams.vals && s.streams.vals[id].task == task
    ensures var n := Count(timeout, acts, task) + 1;
      var lines := Lines(RunAll(timeout, acts), id);
      && Lines(RunAll(timeout, acts + [Broadcasts(task, body, now)]), id) == lines + [Line(EventId(task, n), body)]
      && (EventId(task, n) in IdsOf(lines) <==> n in Taken(timeout, acts, id))
  {
    hide *;
    var w, n := RunAll(timeout, acts), Count(timeout, acts, task) + 1;
    RunSound(timeout, acts);
    KnownIndexed(timeout, acts);
    FirstIsCount(timeout, acts, task);
    SentLines(w, task, body, now, id);
    NextIsSent(timeout, acts, task, body, now);
    KnownSound(timeout, acts, id, task);
    SoundCounter(w, id, n - 1, Taken(timeout, acts, id));
    NumberedIds(Lines(w, id), task, Taken(timeout, acts, id), n);
  }

  lemma NextIsSent(timeout: real, acts: seq<Action>, task: string, body: string, now: real)
    ensures RunAll(timeout, acts + [Broadcasts(task, body, now)]) == Sent(RunAll(timeout, acts), task, body, now)
  {
    var all := acts + [Broadcasts(task, body, now)];
    assert all[..|all| - 1] == acts;
  }

  lemma NumberedIds(ls: seq<Line>, task: string, ns: seq<nat>, n: nat)
    requires Numbered(ls, task, ns)
    ensures EventId(task, n) in IdsOf(ls) <==> n in ns
  {
    OnlyItsNumber(task, n);
    hide EventId;
    var ids := IdsOf(ls);
    if n in ns {
      var i :| 0 <= i < |ns| && ns[i] == n;
      assert ids[i] == EventId(task, n);
    }
    if EventId(task, n) in ids {
      var i :| 0 <= i < |ids| && ids[i] == EventId(task, n);
      assert ns[i] == n;
    }
  }

  // ---- a broadcast with other operations between its pushes ----

  /** One push of a broadcast, after whatever ran since the listing or the push before. */
  datatype Turn = Turn(between: seq<Op>, id: string, now: real)

  /** The manager and the event object after the first `k` pushes. */
  function After(timeout: real, s: Streamer, turns: seq<Turn>, e: Event, k: nat): (r: Outcome)
    requires s.Valid() && k <= |turns|
    ensures r.s.Valid()
    decreases k, 0
  {
    if k == 0 then Outcome(s, e)
    else
      var m := Before(timeout, s, turns, e, k - 1);
      PushEvent(m.s, turns[k - 1].id, m.event, turns[k - 1].now)
  }

  /** The same when push `k` takes the lock. */
  function Before(timeout: real, s: Streamer, turns: seq<Turn>, e: Event, k: nat): (r: Outcome)
    requires s.Valid() && k < |turns|
    ensures r.s.Valid()
    decreases k, 1
  {
    var m := After(timeout, s, turns, e, k);
    Outcome(Run(timeout, m.s, turns[k].between), m.event)
  }

  /** The stream of turn `k` is open when its push takes the lock. */
  predicate OpenAt(timeout: real, s: Streamer, turns: seq<Turn>, e: Event, k: nat)
    requires s.Valid() && k < |turns|
  {
    turns[k].id in Before(timeout, s, turns, e, k).s.streams.vals
  }

  /** No stream is open at its turn before turn `j`. */
  ghost predicate FirstOpenAt(timeout: real, s: Streamer, turns: seq<Turn>, e: Event, j: nat)
    requires s.Valid() && j < |turns|
  {
    OpenAt(timeout, s, turns, e, j) && forall i :: 0 <= i < j ==> !OpenAt(timeout, s, turns, e, i)
  }

  /** The id the stream of turn `j` gives an event without one. */
  function NameAt(timeout: real, s: Streamer, turns: seq<Turn>, e: Event, j: nat): string
    requires s.Valid() && j < |turns| && OpenAt(timeout, s, turns, e, j)
  {
    var st := Before(timeout, s, turns, e, j).s.streams.vals[turns[j].id];
    EventId(st.task, st.counter + 1)
  }

  lemma {:induction false} NamedSoFar(timeout: real, s: Streamer, turns: seq<Turn>, e: Event, j: nat, k: nat)
    requires s.Valid() && e.id == None && j < |turns| && k <= |turns| && FirstOpenAt(timeout, s, turns, e, j)
    ensures After(timeout, s, turns, e, k).event ==
      if k <= j then e else e.(id := Some(NameAt(timeout, s, turns, e, j)))
  {
    if k > 0 {
      NamedSoFar(timeout, s, turns, e, j, k - 1);
      assert k - 1 < j ==> !OpenAt(timeout, s, turns, e, k - 1);
      hide EventId, Run;
    }
  }

  /** Whatever runs between the pushes: each listed stream that is open at its turn takes one
      line, the same for all of them and named by the first of them, and no push touches any
      other stream. */
  lemma BroadcastInTurns(timeout: real, s: Streamer, turns: seq<Turn>, e: Event, j: nat, k: nat, id: string)
    requires s.Valid() && e.id == None && j < |turns| && k < |turns| && FirstOpenAt(timeout, s, turns, e, j)
    ensures var m, r := Before(timeout, s, turns, e, k).s.streams.vals, After(timeout, s, turns, e, k + 1).s.streams.vals;
      && (id in r <==> id in m)
      && (id in m && id != turns[k].id ==> r[id] == m[id])
      && (id in m && id == turns[k].id ==>
            r[id].pending == m[id].pending + [Line(NameAt(timeout, s, turns, e, j), e.body)])
  {
    NamedSoFar(timeout, s, turns, e, j, k);
    var m := Before(timeout, s, turns, e, k);
    PushEffect(m.s, turns[k].id, m.event, turns[k].now, id);
    assert OpenAt(timeout, s, turns, e, k) ==> j <= k;
    hide PushEvent, Run, EventId;
  }

  /** With nothing in between, the turns are the broadcast. */
  lemma {:induction false} TurnsAreTheBroadcast(timeout: real, s: Streamer, turns: seq<Turn>, e: Event, now: real, k: nat)
    requires s.Valid() && k <= |turns|
    requires forall t :: t in turns ==> t.between == [] && t.now == now
    ensures var r := After(timeout, s, turns, e, k);
      Broadcast(s, TurnIds(turns), e, now) == Broadcast(r.s, TurnIds(turns)[k..], r.event, now)
  {
    var ids := TurnIds(turns);
    if k == 0 {
      assert ids[0..] == ids;
    } else {
      TurnsAreTheBroadcast(timeout, s, turns, e, now, k - 1);
      assert turns[k - 1] in turns;
      var m := After(timeout, s, turns, e, k - 1);
      assert Run(timeout, m.s, []) == m.s;
      assert ids[k - 1..][0] == ids[k - 1] && ids[k - 1..][1..] == ids[k..];
      hide PushEvent;
    }
  }

  function TurnIds(turns: seq<Turn>): (ids: seq<string>)
    ensures |ids| == |turns| && forall i :: 0 <= i < |ids| ==> ids[i] == turns[i].id
  {
    seq(|turns|, i requires 0 <= i < |turns| => turns[i].id)
  }
}
