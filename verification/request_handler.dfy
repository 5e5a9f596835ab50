/** `_prepare_and_enqueue` over the store and the queue themselves. */
module RequestHandler {
  import opened OrderedDicts
  import opened IdempotencyModel
  import opened IdempotentRequests
  import opened TaskQueues

  method PrepareAndEnqueue(idempotency: IdempotencyStore, queue: TaskQueue, r: Request)
    returns (reply: Reply, task: PendingTask?)
    requires queue.Valid()
    modifies idempotency`store, queue, queue.issued
    ensures queue.Valid()
    ensures var o := Prepare(idempotency.hash, queue.limits, old(idempotency.store), old(queue.State()), r);
      && reply == o.reply && idempotency.store == o.store
      && queue.State() == Q.Publish(o.queue.q, o.queue.events)
    ensures task != null <==> reply == Started
    ensures task != null ==> fresh(task) && queue.issued == old(queue.issued) + [task]
    ensures task == null ==> queue.State() == old(queue.State())
  {
    hide *;
    ghost var q, s := queue.State(), idempotency.store;
    PrepareIs(idempotency.hash, queue.limits, s, q, r);
    Q.PublishNothing(q);
    if r.key != "" {
      var conflict, _ := idempotency.CheckConflict(r.key, r.payload, r.checked);
      if conflict {
        return KeyConflict, null;
      }
      var cached := idempotency.Get(r.key, r.looked);
      if cached != None {
        return Replay(cached.value.1), null;
      }
    }
    var known := queue.FindTaskById(r.id);
    if known != null {
      return IdInUse, null;
    }
    task := queue.Enqueue(r.id, r.created);
    reply := if task == null then Busy else Started;
    if task == null {
      NothingEnqueued(q, r, queue.limits);
    }
  }

  lemma NothingEnqueued(q: Q.Queue, r: Request, limits: Q.Limits)
    requires q.Valid() && !Q.Accepts(q, r.id, limits)
    ensures Q.Enqueue(q, r.id, r.created, limits) == Q.Locked(q, [])
  {
  }

  /** `Prepare` in the steps of the method. */
  lemma PrepareIs(hash: string -> string, limits: Q.Limits, s: Store, q: Q.Queue, r: Request)
    requires q.Valid()
    ensures var keyed := r.key != "";
      var s1 := if keyed then Pruned(s, r.key, r.checked) else s;
      var s2 := if keyed then Pruned(s1, r.key, r.looked) else s;
      var o := Prepare(hash, limits, s, q, r);
      if keyed && Conflict(hash, s, r.key, r.payload, r.checked).0 then o == Outcome(KeyConflict, s1, Q.Locked(q, []))
      else if keyed && Found(s1, r.key, r.looked).Some? then
        o == Outcome(Replay(Found(s1, r.key, r.looked).value.1), s2, Q.Locked(q, []))
      else if Q.Find(q, r.id).Some? then o == Outcome(IdInUse, s2, Q.Locked(q, []))
      else if Q.Accepts(q, r.id, limits) then o == Outcome(Started, s2, Q.Enqueue(q, r.id, r.created, limits))
      else o == Outcome(Busy, s2, Q.Locked(q, []))
  {
    hide Q.Enqueue;
  }
}
