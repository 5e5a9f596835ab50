/** Push-notification subscriptions: a table, an index by task, and a cleanup that only runs
    when a subscription is added to a table of more than ten.  Subscription ids are fresh. */
module SubscriptionStores {
  import opened OrderedDicts

  datatype Subscription = Subscription(task: string, url: string, key: string, created: real)

  datatype Store = Store(subs: map<string, Subscription>, byTask: map<string, set<string>>) {
    /** A task indexes exactly its subscriptions. */
    ghost predicate Indexed() {
      forall t, id :: id in Listed(this, t) <==> id in subs && subs[id].task == t
    }
  }

  function Listed(s: Store, task: string): set<string> {
    if task in s.byTask then s.byTask[task] else {}
  }

  predicate Expired(sub: Subscription, maxAge: real, now: real) {
    now - sub.created > maxAge
  }

  /** `_by_task.get(task, set()).discard(id)`. */
  function Unlisted(byTask: map<string, set<string>>, task: string, id: string): map<string, set<string>> {
    if task in byTask then byTask[task := byTask[task] - {id}] else byTask
  }

  function Removed(s: Store, id: string): Store {
    if id in s.subs then Store(s.subs - {id}, Unlisted(s.byTask, s.subs[id].task, id)) else s
  }

  /** The cleanup: expired subscriptions leave both tables. */
  ghost function Cleaned(s: Store, maxAge: real, now: real): Store {
    var gone := set id | id in s.subs && Expired(s.subs[id], maxAge, now);
    Store(s.subs - gone, map t | t in s.byTask :: s.byTask[t] - gone)
  }

  ghost function Added(s: Store, id: string, sub: Subscription, maxAge: real, now: real): Store {
    var c := if |s.subs| > 10 then Cleaned(s, maxAge, now) else s;
    Store(c.subs[id := sub], c.byTask[sub.task := Listed(c, sub.task) + {id}])
  }

  /** The subscriptions `get` returns, by id; the program lists them in no particular order. */
  function Got(s: Store, task: string): map<string, Subscription> {
    map id | id in Listed(s, task) && id in s.subs :: s.subs[id]
  }

  // ---- the object ----

  class SubscriptionStore {
    const maxAge: real
    var subs: map<string, Subscription>
    var byTask: map<string, set<string>>

    ghost function State(): Store
      reads this
    {
      Store(subs, byTask)
    }

    constructor (maxAge: real)
      ensures State() == Store(map[], map[]) && this.maxAge == maxAge
    {
      this.maxAge, subs, byTask := maxAge, map[], map[];
    }

    /** `cleaned` and `created` are the clock readings of the cleanup and of the subscription. */
    method Add(id: string, task: string, url: string, key: string, cleaned: real, created: real)
      requires State().Indexed() && id !in subs
      modifies this
      ensures State().Indexed() && State() == Added(old(State()), id, Subscription(task, url, key, created), maxAge, cleaned)
    {
      if |subs| > 10 {
        var _ := CleanupExpired(cleaned);
      }
      AddKeepsIndex(State(), id, Subscription(task, url, key, created));
      subs := subs[id := Subscription(task, url, key, created)];
      byTask := byTask[task := (if task in byTask then byTask[task] else {}) + {id}];
    }

    method CleanupExpired(now: real) returns (count: nat)
      requires State().Indexed()
      modifies this
      ensures State().Indexed() && State() == Cleaned(old(State()), maxAge, now)
      ensures count == |set id | id in old(subs) && Expired(old(subs)[id], maxAge, now)|
      ensures forall id :: id in subs <==> id in old(subs) && now - old(subs)[id].created <= maxAge
    {
      var expired := set id | id in subs && Expired(subs[id], maxAge, now);
      count := |expired|;
      ghost var all := expired;
      while expired != {}
        invariant expired <= all && forall id :: id in expired ==> id in subs
        invariant subs == old(subs) - (all - expired)
        invariant byTask.Keys == old(byTask).Keys
        invariant forall t :: t in byTask ==> byTask[t] == old(byTask)[t] - (all - expired)
        decreases |expired|
      {
        var id :| id in expired;
        OnlyOwnTask(old(State()), id, subs[id].task);
        byTask := Unlisted(byTask, subs[id].task, id);
        subs := subs - {id};
        expired := expired - {id};
      }
      assert all - expired == all;
      CleanedKeepsIndex(old(State()), maxAge, now);
      ghost var cleaned := Cleaned(old(State()), maxAge, now);
      assert subs == cleaned.subs && byTask == cleaned.byTask;
    }

    method Remove(id: string) returns (found: bool)
      requires State().Indexed()
      modifies this
      ensures State().Indexed() && State() == Removed(old(State()), id) && found == (id in old(subs))
    {
      RemoveKeepsIndex(State(), id);
      if id !in subs {
        return false;
      }
      byTask := Unlisted(byTask, subs[id].task, id);
      subs := subs - {id};
      return true;
    }

    method Get(task: string) returns (found: map<string, Subscription>)
      ensures found == Got(State(), task)
    {
      var ids := if task in byTask then byTask[task] else {};
      found := map id | id in ids && id in subs :: subs[id];
    }
  }

  lemma OnlyOwnTask(s: Store, id: string, task: string)
    requires s.Indexed() && id in s.subs && s.subs[id].task == task
    ensures task in s.byTask && forall t :: t in s.byTask && t != task ==> id !in s.byTask[t]
  {
    assert id in Listed(s, task);
    forall t | t in s.byTask && t != task ensures id !in s.byTask[t] {
      assert id !in Listed(s, t);
    }
  }

  // ---- runs ----

  datatype Op =
    | Add(id: string, sub: Subscription, now: real)
    | Remove(id: string)
    | Cleanup(now: real)

  ghost function Step(maxAge: real, s: Store, op: Op): Store {
    match op
    case Add(id, sub, now) => Added(s, id, sub, maxAge, now)
    case Remove(id) => Removed(s, id)
    case Cleanup(now) => Cleaned(s, maxAge, now)
  }

  /** What a store without lazy cleanup would hold: everything added and not removed. */
  function Kept(all: map<string, Subscription>, op: Op): map<string, Subscription> {
    match op
    case Add(id, sub, _) => all[id := sub]
    case Remove(id) => all - {id}
    case Cleanup(_) => all
  }

  ghost function Run(maxAge: real, ops: seq<Op>): Store {
    if ops == [] then Store(map[], map[])
    else Step(maxAge, Run(maxAge, ops[..|ops| - 1]), ops[|ops| - 1])
  }

  function AllKept(ops: seq<Op>): map<string, Subscription> {
    if ops == [] then map[] else Kept(AllKept(ops[..|ops| - 1]), ops[|ops| - 1])
  }

  /** No id is used for two additions. */
  ghost predicate DistinctIds(ops: seq<Op>) {
    forall i, j :: 0 <= i < j < |ops| && ops[i].Add? && ops[j].Add? ==> ops[i].id != ops[j].id
  }

  /** Ids are fresh, and no clock reading is after `now`. */
  ghost predicate Timely(ops: seq<Op>, now: real) {
    (forall i :: 0 <= i < |ops| && !ops[i].Remove? ==> ops[i].now <= now) && DistinctIds(ops)
  }

  lemma CleanedKeepsIndex(s: Store, maxAge: real, now: real)
    requires s.Indexed()
    ensures Cleaned(s, maxAge, now).Indexed()
  {
    var r := Cleaned(s, maxAge, now);
    hide Expired;
    forall t, id ensures id in Listed(r, t) <==> id in r.subs && r.subs[id].task == t {
      assert id in Listed(s, t) <==> id in s.subs && s.subs[id].task == t;
    }
  }

  lemma AddKeepsIndex(c: Store, id: string, sub: Subscription)
    requires c.Indexed() && (id in c.subs ==> c.subs[id].task == sub.task)
    ensures Store(c.subs[id := sub], c.byTask[sub.task := Listed(c, sub.task) + {id}]).Indexed()
  {
    var r := Store(c.subs[id := sub], c.byTask[sub.task := Listed(c, sub.task) + {id}]);
    forall t, x ensures x in Listed(r, t) <==> x in r.subs && r.subs[x].task == t {
      assert x in Listed(c, t) <==> x in c.subs && c.subs[x].task == t;
    }
  }

  lemma RemoveKeepsIndex(s: Store, id: string)
    requires s.Indexed()
    ensures Removed(s, id).Indexed()
  {
    var r := Removed(s, id);
    forall t, x ensures x in Listed(r, t) <==> x in r.subs && r.subs[x].task == t {
      assert x in Listed(s, t) <==> x in s.subs && s.subs[x].task == t;
    }
  }

  /** The lazy store holds nothing but what was added and not removed. */
  ghost predicate Within(s: Store, all: map<string, Subscription>) {
    forall id :: id in s.subs ==> id in all && all[id] == s.subs[id]
  }

  /** ... and of that, everything not expired. */
  ghost predicate Covers(s: Store, all: map<string, Subscription>, maxAge: real, now: real) {
    forall id :: id in all && !Expired(all[id], maxAge, now) ==> id in s.subs
  }

  lemma {:induction false} AddedIds(ops: seq<Op>, id: string) returns (i: nat)
    requires id in AllKept(ops)
    ensures i < |ops| && ops[i].Add? && ops[i].id == id
  {
    var n := |ops| - 1;
    if ops[n].Add? && ops[n].id == id {
      i := n;
    } else {
      i := AddedIds(ops[..n], id);
    }
  }

  ghost predicate Refines(maxAge: real, s: Store, all: map<string, Subscription>, now: real) {
    s.Indexed() && Within(s, all) && Covers(s, all, maxAge, now)
  }

  lemma CleanedRefines(maxAge: real, s: Store, all: map<string, Subscription>, t: real, now: real)
    requires s.Indexed() && Within(s, all) && Covers(s, all, maxAge, now) && t <= now
    ensures var c := Cleaned(s, maxAge, t); c.Indexed() && Within(c, all) && Covers(c, all, maxAge, now)
  {
    CleanedKeepsIndex(s, maxAge, t);
    hide Store.Indexed;
  }

  lemma AddRefines(maxAge: real, c: Store, all: map<string, Subscription>, id: string, sub: Subscription, now: real)
    requires c.Indexed() && Within(c, all) && Covers(c, all, maxAge, now) && id !in all
    ensures var r := Store(c.subs[id := sub], c.byTask[sub.task := Listed(c, sub.task) + {id}]);
      r.Indexed() && Within(r, all[id := sub]) && Covers(r, all[id := sub], maxAge, now)
  {
    AddKeepsIndex(c, id, sub);
    hide Store.Indexed, Expired;
  }

  lemma RemoveRefines(maxAge: real, s: Store, all: map<string, Subscription>, id: string, now: real)
    requires s.Indexed() && Within(s, all) && Covers(s, all, maxAge, now)
    ensures var r := Removed(s, id); r.Indexed() && Within(r, all - {id}) && Covers(r, all - {id}, maxAge, now)
  {
    RemoveKeepsIndex(s, id);
    hide Store.Indexed, Expired;
  }

  lemma StepRefines(maxAge: real, s: Store, all: map<string, Subscription>, op: Op, now: real)
    requires Refines(maxAge, s, all, now)
    requires (op.Add? ==> op.id !in all) && (!op.Remove? ==> op.now <= now)
    ensures Refines(maxAge, Step(maxAge, s, op), Kept(all, op), now)
  {
    hide Store.Indexed, Within, Covers, Cleaned, Removed, Listed;
    match op
    case Add(id, sub, t) =>
      var c := if |s.subs| > 10 then Cleaned(s, maxAge, t) else s;
      CleanedRefines(maxAge, s, all, t, now);
      AddRefines(maxAge, c, all, id, sub, now);
    case Remove(id) => RemoveRefines(maxAge, s, all, id, now);
    case Cleanup(t) => CleanedRefines(maxAge, s, all, t, now);
  }

  lemma NothingRefines(maxAge: real, now: real)
    ensures Refines(maxAge, Run(maxAge, []), AllKept([]), now)
  {
  }

  lemma RunStep(maxAge: real, ops: seq<Op>)
    requires ops != []
    ensures Run(maxAge, ops) == Step(maxAge, Run(maxAge, ops[..|ops| - 1]), ops[|ops| - 1])
    ensures AllKept(ops) == Kept(AllKept(ops[..|ops| - 1]), ops[|ops| - 1])
  {
    hide Step, Kept;
  }

  lemma TimelyBefore(ops: seq<Op>, now: real)
    requires Timely(ops, now) && ops != []
    ensures Timely(ops[..|ops| - 1], now) && DistinctIds(ops)
    ensures !ops[|ops| - 1].Remove? ==> ops[|ops| - 1].now <= now
  {
    DistinctBefore(ops);
    assert forall i :: 0 <= i < |ops| - 1 ==> ops[i] == ops[..|ops| - 1][i];
  }

  lemma {:induction false} RunRefines(maxAge: real, ops: seq<Op>, now: real)
    requires Timely(ops, now)
    ensures Refines(maxAge, Run(maxAge, ops), AllKept(ops), now)
  {
    hide *;
    if ops == [] {
      NothingRefines(maxAge, now);
    } else {
      var before, op := ops[..|ops| - 1], ops[|ops| - 1];
      TimelyBefore(ops, now);
      RunStep(maxAge, ops);
      RunRefines(maxAge, before, now);
      if op.Add? {
        FreshId(ops);
      }
      StepRefines(maxAge, Run(maxAge, before), AllKept(before), op, now);
    }
  }

  /** Index against scan, lazy against eager: `get` returns subscriptions of its task that were
      added and not removed, all of them that have not expired, and possibly expired ones. */
  lemma GetIsScan(maxAge: real, ops: seq<Op>, now: real, task: string, id: string)
    requires Timely(ops, now)
    ensures var got, all := Got(Run(maxAge, ops), task), AllKept(ops);
      && (id in got ==> id in all && got[id] == all[id] && all[id].task == task)
      && (id in all && all[id].task == task && !Expired(all[id], maxAge, now) ==> id in got)
  {
    RunRefines(maxAge, ops, now);
    var s := Run(maxAge, ops);
    hide Run, AllKept, Timely, Expired;
    assert id in Listed(s, task) <==> id in s.subs && s.subs[id].task == task;
  }

  /** When the cleanup ran that an operation brought, if it brought one: on its own, or with an
      addition to a table of more than ten. */
  function CleanupAt(s: Store, op: Op): Option<real> {
    match op
    case Add(_, _, now) => if |s.subs| > 10 then Some(now) else None
    case Remove(_) => None
    case Cleanup(now) => Some(now)
  }

  /** Some cleanup since subscription `id` was added found it expired. */
  ghost predicate FoundExpired(maxAge: real, ops: seq<Op>, id: string) {
    ops != [] &&
    var n := |ops| - 1;
    var before, op := ops[..n], ops[n];
    !(op.Add? && op.id == id) &&
      (|| FoundExpired(maxAge, before, id)
       || (id in AllKept(before) && CleanupAt(Run(maxAge, before), op).Some?
           && Expired(AllKept(before)[id], maxAge, CleanupAt(Run(maxAge, before), op).value)))
  }

  /** The table: what was kept and never found expired. */
  ghost predicate Exact(s: Store, all: map<string, Subscription>, found: bool, id: string) {
    && s.Indexed()
    && (id in s.subs <==> id in all && !found)
    && (id in s.subs ==> s.subs[id] == all[id])
  }

  lemma StepIndexed(maxAge: real, s: Store, op: Op)
    requires s.Indexed() && (op.Add? ==> op.id !in s.subs)
    ensures Step(maxAge, s, op).Indexed()
  {
    hide Store.Indexed, Cleaned, Removed;
    match op
    case Add(id, sub, now) =>
      CleanedKeepsIndex(s, maxAge, now);
      var c := if |s.subs| > 10 then Cleaned(s, maxAge, now) else s;
      CleanedRemoves(s, maxAge, now, id);
      AddKeepsIndex(c, id, sub);
    case Remove(id) => RemoveKeepsIndex(s, id);
    case Cleanup(now) => CleanedKeepsIndex(s, maxAge, now);
  }

  lemma CleanedRemoves(s: Store, maxAge: real, now: real, id: string)
    ensures var c := Cleaned(s, maxAge, now);
      && (id in c.subs <==> id in s.subs && !Expired(s.subs[id], maxAge, now))
      && (id in c.subs ==> c.subs[id] == s.subs[id])
  {
    hide Expired;
  }

  /** What a step leaves of a subscription that it does not add. */
  lemma StepTable(maxAge: real, s: Store, op: Op, id: string)
    requires !(op.Add? && op.id == id)
    ensures var r := Step(maxAge, s, op); var at := CleanupAt(s, op);
      && (id in r.subs <==>
            id in s.subs && !(op.Remove? && op.id == id) && (at.Some? ==> !Expired(s.subs[id], maxAge, at.value)))
      && (id in r.subs ==> r.subs[id] == s.subs[id])
  {
    if !op.Remove? {
      CleanedRemoves(s, maxAge, op.now, id);
    }
    hide Expired, Cleaned;
  }

  lemma FreshId(ops: seq<Op>)
    requires DistinctIds(ops) && ops != [] && ops[|ops| - 1].Add?
    ensures ops[|ops| - 1].id !in AllKept(ops[..|ops| - 1])
  {
    var before := ops[..|ops| - 1];
    assert forall i :: 0 <= i < |before| ==> ops[i] == before[i];
    if ops[|ops| - 1].id in AllKept(before) {
      var i := AddedIds(before, ops[|ops| - 1].id);
    }
  }

  /** Whether the next operation, too, leaves `id` found expired. */
  ghost predicate FoundNext(maxAge: real, s: Store, all: map<string, Subscription>, found: bool, op: Op, id: string) {
    var at := CleanupAt(s, op);
    !(op.Add? && op.id == id) && (found || (id in all && at.Some? && Expired(all[id], maxAge, at.value)))
  }

  lemma StepExact(maxAge: real, s: Store, all: map<string, Subscription>, found: bool, op: Op, id: string)
    requires Exact(s, all, found, id) && (op.Add? ==> op.id !in s.subs)
    ensures Exact(Step(maxAge, s, op), Kept(all, op), FoundNext(maxAge, s, all, found, op, id), id)
  {
    StepIndexed(maxAge, s, op);
    if op.Add? && op.id == id {
      hide Store.Indexed, Expired, Cleaned;
    } else {
      StepTable(maxAge, s, op, id);
      hide Store.Indexed, Expired, Step, CleanupAt;
    }
  }

  lemma RunUnfolds(maxAge: real, ops: seq<Op>, id: string)
    requires ops != []
    ensures var before, op := ops[..|ops| - 1], ops[|ops| - 1];
      && Run(maxAge, ops) == Step(maxAge, Run(maxAge, before), op)
      && AllKept(ops) == Kept(AllKept(before), op)
      && FoundExpired(maxAge, ops, id) ==
           FoundNext(maxAge, Run(maxAge, before), AllKept(before), FoundExpired(maxAge, before, id), op, id)
  {
    hide Step, Kept, CleanupAt, Expired;
  }

  lemma ExactTable(s: Store, all: map<string, Subscription>, found: bool, id: string)
    requires Exact(s, all, found, id) && id !in all
    ensures id !in s.subs
  {
  }

  lemma DistinctBefore(ops: seq<Op>)
    requires DistinctIds(ops) && ops != []
    ensures DistinctIds(ops[..|ops| - 1])
  {
  }

  lemma NothingExact(maxAge: real, id: string)
    ensures Exact(Run(maxAge, []), AllKept([]), FoundExpired(maxAge, [], id), id)
  {
  }

  lemma {:induction false} RunExact(maxAge: real, ops: seq<Op>, id: string)
    requires DistinctIds(ops)
    ensures Exact(Run(maxAge, ops), AllKept(ops), FoundExpired(maxAge, ops, id), id)
    decreases |ops|
  {
    hide *;
    if ops == [] {
      NothingExact(maxAge, id);
    } else {
      var before, op := ops[..|ops| - 1], ops[|ops| - 1];
      RunUnfolds(maxAge, ops, id);
      DistinctBefore(ops);
      RunExact(maxAge, before, id);
      if op.Add? {
        RunExact(maxAge, before, op.id);
        FreshId(ops);
        ExactTable(Run(maxAge, before), AllKept(before), FoundExpired(maxAge, before, op.id), op.id);
      }
      StepExact(maxAge, Run(maxAge, before), AllKept(before), FoundExpired(maxAge, before, id), op, id);
    }
  }

  /** Exactly: `get` returns a subscription of its task that was added and not removed if and only
      if no cleanup that ran since found it expired, whatever the clock does. */
  lemma GetIsExact(maxAge: real, ops: seq<Op>, task: string, id: string)
    requires DistinctIds(ops)
    ensures var got, all := Got(Run(maxAge, ops), task), AllKept(ops);
      && (id in got <==> id in all && all[id].task == task && !FoundExpired(maxAge, ops, id))
      && (id in got ==> got[id] == all[id])
  {
    RunExact(maxAge, ops, id);
    var s := Run(maxAge, ops);
    hide Run, AllKept, FoundExpired, DistinctIds;
    assert id in Listed(s, task) <==> id in s.subs && s.subs[id].task == task;
  }

  /** The cleanup an addition may trigger: afterwards the table has at most eleven entries, or
      none but the new one was expired when it ran. */
  lemma AddBoundsExpired(s: Store, id: string, sub: Subscription, maxAge: real, now: real)
    ensures var r := Added(s, id, sub, maxAge, now);
      |r.subs| <= 11 || forall x :: x in r.subs && x != id ==> !Expired(r.subs[x], maxAge, now)
  {
    if |s.subs| <= 10 {
      var r := Added(s, id, sub, maxAge, now);
      assert r.subs.Keys == s.subs.Keys + {id};
      assert |r.subs| == |r.subs.Keys| && |s.subs| == |s.subs.Keys|;
    }
  }
}
