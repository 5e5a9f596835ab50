/** One pass of the orphan watchdog over a queue nobody else touches meanwhile. */
module WatchdogModel {
  import opened OrderedDicts
  import opened QueueModel
  import opened QueueRuns
  import opened TaskRuntime

  /** Is this task old and unanswered? */
  predicate Orphaned(t: Task, cutoff: real) {
    t.created < cutoff && t.response == None
  }

  /** The scan: answer every old unanswered task of the list. */
  function Scan(q: Queue, hs: seq<nat>, cutoff: real): (r: Locked)
    requires q.Valid() && Known(q, hs)
    ensures r.q.Valid()
    decreases |hs|
  {
    if hs == [] then Locked(q, [])
    else if Orphaned(q.tasks[hs[0]], cutoff) then
      var rest := Scan(Respond(q, hs[0], ORPHANED), hs[1..], cutoff);
      Locked(rest.q, [hs[0]] + rest.events)
    else Scan(q, hs[1..], cutoff)
  }

  /** One round of the scan, at position `i` of the list. */
  lemma ScanRound(q: Queue, hs: seq<nat>, i: nat, cutoff: real)
    requires q.Valid() && Known(q, hs) && i < |hs|
    ensures Known(q, hs[i..]) && Known(q, hs[i + 1..])
    ensures Scan(q, hs[i..], cutoff) ==
      if Orphaned(q.tasks[hs[i]], cutoff) then
        var rest := Scan(Respond(q, hs[i], ORPHANED), hs[i + 1..], cutoff);
        Locked(rest.q, [hs[i]] + rest.events)
      else Scan(q, hs[i + 1..], cutoff)
  {
    assert hs[i..][1..] == hs[i + 1..];
  }

  /** The scan of what is left of the list, with what was answered so far. */
  ghost predicate ScanSplit(start: Queue, q: Queue, hs: seq<nat>, i: nat, cutoff: real, events: seq<nat>)
    requires start.Valid() && q.Valid() && Known(start, hs)
  {
    && i <= |hs| && |q.tasks| == |start.tasks| && q.pending == start.pending && Known(q, hs[i..])
    && Scan(start, hs, cutoff) == Locked(Scan(q, hs[i..], cutoff).q, events + Scan(q, hs[i..], cutoff).events)
  }

  lemma ScanSplitStarts(q: Queue, hs: seq<nat>, cutoff: real)
    requires q.Valid() && Known(q, hs)
    ensures ScanSplit(q, q, hs, 0, cutoff, [])
  {
    assert hs[0..] == hs;
    assert [] + Scan(q, hs, cutoff).events == Scan(q, hs, cutoff).events;
  }

  lemma ScanSplitAdvances(start: Queue, q: Queue, hs: seq<nat>, i: nat, cutoff: real, events: seq<nat>)
    requires start.Valid() && q.Valid() && Known(start, hs) && i < |hs|
    requires ScanSplit(start, q, hs, i, cutoff, events)
    ensures hs[i] < |q.tasks|
    ensures if Orphaned(q.tasks[hs[i]], cutoff)
      then ScanSplit(start, Respond(q, hs[i], ORPHANED), hs, i + 1, cutoff, events + [hs[i]])
      else ScanSplit(start, q, hs, i + 1, cutoff, events)
  {
    assert Known(q, hs);
    ScanRound(q, hs, i, cutoff);
    hide Scan;
    ghost var rest := Scan(Respond(q, hs[i], ORPHANED), hs[i + 1..], cutoff).events;
    assert events + ([hs[i]] + rest) == events + [hs[i]] + rest;
  }

  lemma ScanSplitEnds(start: Queue, q: Queue, hs: seq<nat>, cutoff: real, events: seq<nat>)
    requires start.Valid() && q.Valid() && Known(start, hs)
    requires ScanSplit(start, q, hs, |hs|, cutoff, events)
    ensures Scan(start, hs, cutoff) == Locked(q, events)
  {
    assert events + [] == events;
  }

  lemma PendingKnown(q: Queue)
    requires q.Valid()
    ensures q.pending.Valid()
    ensures Known(q, Values(q.pending))
  {
    forall i | 0 <= i < |q.pending.keys| ensures Values(q.pending)[i] < |q.tasks| {
      assert q.pending.keys[i] in q.pending.keys;
    }
  }

  /** The pass without its early `continue`, and with it. */
  function FullPass(q: Queue, cutoff: real): (r: Locked)
    requires q.Valid()
    ensures r.q.Valid()
  {
    PendingKnown(q);
    Scan(q, Values(q.pending), cutoff)
  }

  function Pass(q: Queue, cutoff: real): (r: Locked)
    requires q.Valid()
    ensures r.q.Valid()
  {
    if Skips(q, cutoff) then Locked(q, []) else FullPass(q, cutoff)
  }

  /** What the scan answers: exactly the orphans on the list. */
  lemma {:induction false} ScanAnswers(q: Queue, hs: seq<nat>, cutoff: real)
    requires q.Valid() && Known(q, hs)
    ensures var r := Scan(q, hs, cutoff);
      && r.q == q.(tasks := r.q.tasks) && |r.q.tasks| == |q.tasks|
      && (forall h :: h in r.events ==> h in hs)
      && (forall h :: 0 <= h < |q.tasks| ==>
            if h in hs && q.tasks[h].created < cutoff && q.tasks[h].response == None
            then h in r.events && r.q.tasks[h] == q.tasks[h].(response := Some("(orphaned — no response)"))
            else h !in r.events && r.q.tasks[h] == q.tasks[h])
    decreases |hs|
  {
    if hs != [] {
      assert hs == [hs[0]] + hs[1..];
      ScanAnswers(if Orphaned(q.tasks[hs[0]], cutoff) then Respond(q, hs[0], ORPHANED) else q, hs[1..], cutoff);
    }
  }

  /** The fast path refines the scan: with an exact cached minimum (`CachedMinimumIsExact`) the
      early `continue` skips only scans that would have changed nothing. */
  lemma FastPathRefinesScan(q: Queue, cutoff: real)
    requires q.Valid() && OldestExact(q)
    ensures Pass(q, cutoff) == FullPass(q, cutoff)
  {
    if Skips(q, cutoff) {
      PendingKnown(q);
      var hs := Values(q.pending);
      forall i | 0 <= i < |hs| ensures !Orphaned(q.tasks[hs[i]], cutoff) {
        assert q.pending.keys[i] in q.pending.keys;
      }
      ScanOfYoung(q, hs, cutoff);
    }
  }

  lemma {:induction false} ScanOfYoung(q: Queue, hs: seq<nat>, cutoff: real)
    requires q.Valid() && Known(q, hs)
    requires forall i :: 0 <= i < |hs| ==> !Orphaned(q.tasks[hs[i]], cutoff)
    ensures Scan(q, hs, cutoff) == Locked(q, [])
    decreases |hs|
  {
    if hs != [] {
      ScanOfYoung(q, hs[1..], cutoff);
    }
  }

  /** Exactly when the early `continue` differs from the scan: it skips although some pending
      task is old and unanswered.  After a stale requeue that can be a task whose handler has
      already returned. */
  lemma FastPathDiffersIff(q: Queue, cutoff: real)
    requires q.Valid()
    ensures Pass(q, cutoff) != FullPass(q, cutoff) <==>
      Skips(q, cutoff) && exists id :: id in q.pending.vals && Orphaned(q.tasks[q.pending.vals[id]], cutoff)
  {
    PendingKnown(q);
    var hs := Values(q.pending);
    ScanAnswers(q, hs, cutoff);
    if Skips(q, cutoff) {
      if id :| id in q.pending.vals && Orphaned(q.tasks[q.pending.vals[id]], cutoff) {
        assert id in q.pending.keys;
        var i :| 0 <= i < |q.pending.keys| && q.pending.keys[i] == id;
        assert hs[i] in hs;
        assert hs[i] in FullPass(q, cutoff).events;
      } else {
        forall i | 0 <= i < |hs| ensures !Orphaned(q.tasks[hs[i]], cutoff) {
          assert q.pending.keys[i] in q.pending.keys;
        }
        ScanOfYoung(q, hs, cutoff);
      }
    }
  }

  /** With no answer in flight, nobody who has waited past the cutoff waits on after a pass. */
  lemma PassSettlesOld(q: Queue, cutoff: real, h: nat)
    requires q.Valid() && NoneForgotten(q) && h < |q.tasks|
    requires forall g :: 0 <= g < |q.tasks| ==> (q.tasks[g].response.Some? <==> q.tasks[g].ready)
    ensures var p := Pass(q, cutoff); var r := Publish(p.q, p.events);
      h < |r.tasks| && (r.tasks[h].ready || r.tasks[h].returned || r.tasks[h].created >= cutoff)
  {
    PendingKnown(q);
    ListCovers(q, cutoff);
    ScanAnswers(q, Values(q.pending), cutoff);
  }
}
