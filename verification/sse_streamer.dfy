/** The stream manager as the program has it: stream objects and two indexes updated in place.
    Every method is proved to do to `State()` what the model's function of that name does. */
module SseStreamers {
  import opened OrderedDicts
  import opened SseModel
  import SseIds

  class SSEEvent {
    var id: Option<string>
    const body: string

    constructor (id: Option<string>, body: string)
      ensures Value() == Event(id, body)
    {
      this.id, this.body := id, body;
    }

    function Value(): Event
      reads this
    {
      Event(id, body)
    }
  }

  class StreamObject {
    const id: string
    const task: string
    var closed: bool
    var pending: seq<Line>
    var counter: nat
    var lastId: Option<string>
    var lastActivity: real

    constructor (id: string, task: string, now: real)
      ensures this.id == id && !closed && Value() == Stream(task, [], 0, None, now)
    {
      this.id, this.task, closed := id, task, false;
      pending, counter, lastId, lastActivity := [], 0, None, now;
    }

    function Value(): Stream
      reads `pending, `counter, `lastId, `lastActivity
    {
      Stream(task, pending, counter, lastId, lastActivity)
    }

    /** The part of `push_event` that happens inside one stream. */
    method Take(event: SSEEvent, now: real)
      modifies `pending, `counter, `lastId, `lastActivity, event`id
      ensures Value() == Took(old(Value()), old(event.Value()), now)
      ensures event.Value() == old(event.Value()).(id := Some(AssignedId(old(Value()), old(event.Value()))))
    {
      lastActivity := now;
      if event.id == None {
        counter := counter + 1;
        event.id := Some(EventId(task, counter));
      }
      lastId := event.id;
      pending := pending + [Line(event.id.value, event.body)];
    }
  }

  ghost function Objects(d: OrderedDict<StreamObject>): set<StreamObject> {
    set k | k in d.vals :: d.vals[k]
  }

  ghost function Streams(d: OrderedDict<StreamObject>): OrderedDict<Stream>
    reads Objects(d)`pending, Objects(d)`counter, Objects(d)`lastId, Objects(d)`lastActivity
  {
    OrderedDict(d.keys, map k | k in d.vals :: d.vals[k].Value())
  }

  lemma PutStreams(d: OrderedDict<StreamObject>, k: string, st: StreamObject)
    requires d.Valid()
    ensures Streams(d).Valid() && Streams(d.Put(k, st)) == Streams(d).Put(k, st.Value())
    ensures Objects(d.Put(k, st)) <= Objects(d) + {st}
  {
    assert Streams(d.Put(k, st)).vals == Streams(d).vals[k := st.Value()];
  }

  lemma StreamAt(d: OrderedDict<StreamObject>, k: string)
    ensures k in Streams(d).vals <==> k in d.vals
    ensures k in d.vals ==> Streams(d).vals[k] == d.vals[k].Value()
  {
  }

  lemma PopStreams(d: OrderedDict<StreamObject>, k: string)
    requires d.Valid()
    ensures Streams(d).Valid() && Streams(d.Pop(k)) == Streams(d).Pop(k)
    ensures Objects(d.Pop(k)) <= Objects(d)
  {
    hide Without, IndexOf, NoDuplicates;
    assert Streams(d.Pop(k)).vals == Streams(d).vals - {k};
  }

  class SSEStreamer {
    const idleTimeout: real
    var streams: OrderedDict<StreamObject>
    var byTask: map<string, seq<string>>

    /** A stream in the table is stored under its own id and is not closed. */
    ghost predicate Valid()
      reads this, Objects(streams)
    {
      && streams.Valid()
      && forall k :: k in streams.vals ==> streams.vals[k].id == k && !streams.vals[k].closed
    }

    ghost function State(): (s: Streamer)
      requires Valid()
      reads this, Objects(streams)
      ensures s.Valid()
    {
      Streamer(Streams(streams), byTask)
    }

    constructor (idleTimeout: real)
      ensures Valid() && State() == EmptyStreamer() && this.idleTimeout == idleTimeout
    {
      this.idleTimeout := idleTimeout;
      streams, byTask := Empty(), map[];
    }

    method OpenStream(id: string, task: string, now: real)
      requires Valid()
      modifies this
      ensures Valid() && State() == SseModel.OpenStream(old(State()), id, task, now)
      ensures fresh(Objects(streams) - old(Objects(streams)))
    {
      hide Streams, Without, IndexOf, NoDuplicates;
      var stream := new StreamObject(id, task, now);
      PutStreams(streams, id, stream);
      streams := streams.Put(id, stream);
      byTask := byTask[task := (if task in byTask then byTask[task] else []) + [id]];
    }

    method PushEvent(id: string, event: SSEEvent, now: real)
      requires Valid()
      modifies Objects(streams), event`id
      ensures Valid()
      ensures Outcome(State(), event.Value()) == SseModel.PushEvent(old(State()), id, old(event.Value()), now)
    {
      if id !in streams.vals || streams.vals[id].closed {
        return;
      }
      hide Without, IndexOf, NoDuplicates, Took;
      ghost var q := State();
      var stream := streams.vals[id];
      stream.Take(event, now);
      assert Streams(streams).vals == q.streams.vals[id := stream.Value()];
    }

    /** `get_pending`. */
    method GetPending(id: string) returns (lines: seq<Line>)
      requires Valid()
      modifies Objects(streams)
      ensures Valid() && lines == Pending(old(State()), id) && State() == ClearPending(old(State()), id)
    {
      if id !in streams.vals {
        return [];
      }
      ghost var q := State();
      var stream := streams.vals[id];
      lines := stream.pending;
      stream.pending := [];
      assert Streams(streams).vals == q.streams.vals[id := stream.Value()];
    }

    method IsClosed(id: string) returns (closed: bool)
      requires Valid()
      ensures closed <==> id !in State().streams.vals
    {
      return id !in streams.vals || streams.vals[id].closed;
    }

    method CloseStream(id: string)
      requires Valid()
      modifies this, Objects(streams)
      ensures Valid() && State() == SseModel.CloseStream(old(State()), id)
      ensures Objects(streams) <= old(Objects(streams))
    {
      if id !in streams.vals {
        return;
      }
      hide Streams, IndexOf, NoDuplicates, Without, OrderedDict.Pop;
      var stream := streams.vals[id];
      stream.closed := true;
      Remove(id, stream.task);
    }

    /** Take stream `id` of `task` out of both indexes. */
    method Remove(id: string, task: string)
      requires streams.Valid() && id in streams.vals && task == streams.vals[id].task
      requires forall k :: k in streams.vals ==> streams.vals[k].id == k && (streams.vals[k].closed ==> k == id)
      modifies this
      ensures Valid()
      ensures State() == SseModel.CloseStream(old(Streamer(Streams(streams), byTask)), id)
      ensures Objects(streams) <= old(Objects(streams)) && streams == old(streams).Pop(id)
    {
      hide Streams, IndexOf, NoDuplicates, Without;
      PopStreams(streams, id);
      StreamAt(streams, id);
      if task in byTask {
        byTask := byTask[task := Without(byTask[task], id)];
      }
      streams := streams.Pop(id);
    }

    /** `_close_idle_streams`. */
    method CloseIdleStreams(now: real)
      requires Valid()
      modifies this
      ensures Valid() && State() == CloseIdle(old(State()), old(State()).streams.keys, idleTimeout, now)
      ensures Objects(streams) <= old(Objects(streams))
    {
      var ids := streams.keys;
      ghost var q := State();
      assert ids[0..] == ids;
      for i := 0 to |ids|
        invariant Valid() && Objects(streams) <= old(Objects(streams))
        invariant CloseIdle(q, ids, idleTimeout, now) == CloseIdle(State(), ids[i..], idleTimeout, now)
      {
        IdleStep(State(), ids[i..], idleTimeout, now);
        assert ids[i..][1..] == ids[i + 1..] && ids[i..][0] == ids[i];
        CloseOneIfIdle(ids[i], now);
      }
      IdleDone(State(), idleTimeout, now);
    }

    method CloseOneIfIdle(id: string, now: real)
      requires Valid()
      modifies this
      ensures Valid() && State() == CloseIfIdle(old(State()), id, idleTimeout, now)
      ensures Objects(streams) <= old(Objects(streams))
    {
      if id !in streams.vals {
        return;
      }
      var stream := streams.vals[id];
      if stream.closed {
        return;
      }
      if now - stream.lastActivity > idleTimeout {
        Remove(id, stream.task);
      }
    }

    /** `_push_sse`: the one event object goes to every stream the task lists. */
    method PushSse(task: string, event: SSEEvent, now: real)
      requires Valid()
      modifies Objects(streams), event`id
      ensures Valid()
      ensures Outcome(State(), event.Value()) ==
        SseIds.Broadcast(old(State()), Subscribed(old(State()), task), old(event.Value()), now)
    {
      var ids := if task in byTask then byTask[task] else [];
      ghost var all := SseIds.Broadcast(State(), ids, event.Value(), now);
      assert ids[0..] == ids;
      for i := 0 to |ids|
        invariant Valid()
        invariant all == SseIds.Broadcast(State(), ids[i..], event.Value(), now)
      {
        BroadcastStep(State(), ids[i..], event.Value(), now);
        assert ids[i..][1..] == ids[i + 1..] && ids[i..][0] == ids[i];
        PushEvent(ids[i], event, now);
      }
      BroadcastDone(State(), event.Value(), now);
    }
  }

  lemma IdleStep(s: Streamer, ids: seq<string>, timeout: real, now: real)
    requires s.Valid() && ids != []
    ensures CloseIdle(s, ids, timeout, now) == CloseIdle(CloseIfIdle(s, ids[0], timeout, now), ids[1..], timeout, now)
  {
  }

  lemma IdleDone(s: Streamer, timeout: real, now: real)
    requires s.Valid()
    ensures CloseIdle(s, [], timeout, now) == s
  {
  }

  lemma BroadcastStep(s: Streamer, ids: seq<string>, e: Event, now: real)
    requires s.Valid() && ids != []
    ensures var first := SseModel.PushEvent(s, ids[0], e, now);
      SseIds.Broadcast(s, ids, e, now) == SseIds.Broadcast(first.s, ids[1..], first.event, now)
  {
  }

  lemma BroadcastDone(s: Streamer, e: Event, now: real)
    requires s.Valid()
    ensures SseIds.Broadcast(s, [], e, now) == Outcome(s, e)
  {
  }
}
