/** The SSE stream manager as a value: one atomic step per lock-held body of `SSEStreamer`.
    Stream ids are fresh when a stream opens.  A rendered line is the event id and the rest of
    the event, kept opaque. */
module SseModel {
  import opened OrderedDicts
  import opened Decimals

  /** `id` is assigned by the first stream the event is pushed to, unless it is set. */
  datatype Event = Event(id: Option<string>, body: string)

  datatype Line = Line(id: string, body: string)

  datatype Stream = Stream(
    task: string, pending: seq<Line>, counter: nat, lastId: Option<string>, lastActivity: real)

  datatype Streamer = Streamer(streams: OrderedDict<Stream>, byTask: map<string, seq<string>>) {
    ghost predicate Valid() {
      streams.Valid()
    }

    /** The two indexes agree: a task lists exactly its streams, each once. */
    ghost predicate Indexed() {
      && (forall t :: t in byTask ==> NoDuplicates(byTask[t]))
      && (forall t, id :: id in Subscribed(this, t) <==> id in streams.vals && streams.vals[id].task == t)
    }
  }

  function EmptyStreamer(): (s: Streamer)
    ensures s.Valid() && s.Indexed()
  {
    Streamer(Empty(), map[])
  }

  /** `get_stream_ids_for_task`. */
  function Subscribed(s: Streamer, task: string): seq<string> {
    if task in s.byTask then s.byTask[task] else []
  }

  function OpenStream(s: Streamer, id: string, task: string, now: real): (r: Streamer)
    requires s.Valid()
    ensures r.Valid()
  {
    Streamer(s.streams.Put(id, Stream(task, [], 0, None, now)),
             s.byTask[task := Subscribed(s, task) + [id]])
  }

  /** The id the stream manager makes up for the `n`-th event without one. */
  function EventId(task: string, n: nat): string {
    task + "_" + Decimal(n)
  }

  function AssignedId(st: Stream, e: Event): string {
    if e.id == None then EventId(st.task, st.counter + 1) else e.id.value
  }

  /** The stream once it took the event. */
  function Took(st: Stream, e: Event, now: real): Stream {
    var eventId := AssignedId(st, e);
    Stream(st.task, st.pending + [Line(eventId, e.body)],
           if e.id == None then st.counter + 1 else st.counter, Some(eventId), now)
  }

  datatype Outcome = Outcome(s: Streamer, event: Event)

  /** `push_event`, with what it leaves in the event object. */
  function PushEvent(s: Streamer, id: string, e: Event, now: real): (r: Outcome)
    requires s.Valid()
    ensures r.s.Valid()
  {
    if id !in s.streams.vals then Outcome(s, e)
    else
      var st := s.streams.vals[id];
      Outcome(s.(streams := s.streams.Put(id, Took(st, e, now))), e.(id := Some(AssignedId(st, e))))
  }

  function Delisted(byTask: map<string, seq<string>>, task: string, id: string): map<string, seq<string>> {
    if task in byTask then byTask[task := Without(byTask[task], id)] else byTask
  }

  /** `close_stream`, and the removal an idle stream gets. */
  function CloseStream(s: Streamer, id: string): (r: Streamer)
    requires s.Valid()
    ensures r.Valid()
  {
    if id !in s.streams.vals then s
    else Streamer(s.streams.Pop(id), Delisted(s.byTask, s.streams.vals[id].task, id))
  }

  /** The lines `get_pending` hands over. */
  function Pending(s: Streamer, id: string): seq<Line> {
    if id in s.streams.vals then s.streams.vals[id].pending else []
  }

  function ClearPending(s: Streamer, id: string): (r: Streamer)
    requires s.Valid()
    ensures r.Valid()
  {
    if id in s.streams.vals then s.(streams := s.streams.Put(id, s.streams.vals[id].(pending := []))) else s
  }

  predicate Idle(st: Stream, timeout: real, now: real) {
    now - st.lastActivity > timeout
  }

  /** One pass of the idle cleanup over the listed streams. */
  function CloseIdle(s: Streamer, ids: seq<string>, timeout: real, now: real): (r: Streamer)
    requires s.Valid()
    ensures r.Valid()
    decreases |ids|
  {
    if ids == [] then s
    else
      CloseIdle(CloseIfIdle(s, ids[0], timeout, now), ids[1..], timeout, now)
  }

  function CloseIfIdle(s: Streamer, id: string, timeout: real, now: real): (r: Streamer)
    requires s.Valid()
    ensures r.Valid()
  {
    if id in s.streams.vals && Idle(s.streams.vals[id], timeout, now) then CloseStream(s, id) else s
  }

  // ---- runs ----

  datatype Op =
    | Open(id: string, task: string, now: real)
    | Push(id: string, event: Event, now: real)
    | Poll(id: string)
    | Close(id: string)
    | CleanIdle(now: real)

  function Step(timeout: real, s: Streamer, op: Op): (r: Streamer)
    requires s.Valid()
    ensures r.Valid()
  {
    match op
    case Open(id, task, now) => OpenStream(s, id, task, now)
    case Push(id, event, now) => PushEvent(s, id, event, now).s
    case Poll(id) => ClearPending(s, id)
    case Close(id) => CloseStream(s, id)
    case CleanIdle(now) => CloseIdle(s, s.streams.keys, timeout, now)
  }

  function Run(timeout: real, s: Streamer, ops: seq<Op>): (r: Streamer)
    requires s.Valid()
    ensures r.Valid()
  {
    if ops == [] then s else Step(timeout, Run(timeout, s, ops[..|ops| - 1]), ops[|ops| - 1])
  }

  /** Stream ids are fresh: no stream is opened under the id of an open one. */
  ghost predicate Fresh(timeout: real, s: Streamer, ops: seq<Op>)
    requires s.Valid()
  {
    ops != [] ==>
      && Fresh(timeout, s, ops[..|ops| - 1])
      && (ops[|ops| - 1].Open? ==> ops[|ops| - 1].id !in Run(timeout, s, ops[..|ops| - 1]).streams.vals)
  }

  /** What the polls of stream `id` returned since it was last opened, concatenated. */
  function Polled(timeout: real, s: Streamer, ops: seq<Op>, id: string): seq<Line>
    requires s.Valid()
  {
    if ops == [] then []
    else
      var before, op := ops[..|ops| - 1], ops[|ops| - 1];
      if op.Open? && op.id == id then []
      else if op.Poll? && op.id == id then
        Polled(timeout, s, before, id) + Pending(Run(timeout, s, before), id)
      else Polled(timeout, s, before, id)
  }
}
