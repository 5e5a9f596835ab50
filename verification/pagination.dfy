/** Paginated task lists: the snapshot sorted by creation time, latest first, cut into pages by
    a cursor that encodes an offset. */
module Pagination {
  import opened OrderedDicts
  import opened Decimals
  import Base64
  import Q = QueueModel

  /** One row of `snapshot`; the task is a handle, `None` the state "unknown". */
  datatype Item = Item(created: real, task: nat, state: Option<Q.TaskState>)

  function Row(q: Q.Queue, h: nat): Item
    requires h < |q.tasks|
  {
    var t := q.tasks[h];
    Item(t.created, h, if t.id in q.states then Some(q.states[t.id]) else None)
  }

  function Rows(q: Q.Queue, hs: seq<nat>): (items: seq<Item>)
    requires forall i :: 0 <= i < |hs| ==> hs[i] < |q.tasks|
    ensures |items| == |hs|
    ensures forall i :: 0 <= i < |items| ==> items[i] == Row(q, hs[i])
  {
    seq(|hs|, i requires 0 <= i < |hs| => Row(q, hs[i]))
  }

  lemma ValuesInRange(q: Q.Queue)
    requires q.Valid()
    ensures var hs := Values(q.pending) + Values(q.completed); forall i :: 0 <= i < |hs| ==> hs[i] < |q.tasks|
  {
    assert forall i :: 0 <= i < |q.pending.keys| ==> q.pending.keys[i] in q.pending.keys;
    assert forall i :: 0 <= i < |q.completed.keys| ==> q.completed.keys[i] in q.completed.keys;
  }

  /** `snapshot`: the pending tasks, then the completed ones. */
  function Snapshot(q: Q.Queue): seq<Item>
    requires q.Valid()
  {
    ValuesInRange(q);
    Rows(q, Values(q.pending) + Values(q.completed))
  }

  lemma SnapshotAt(q: Q.Queue, i: nat)
    requires q.Valid() && i < |Values(q.pending) + Values(q.completed)|
    ensures var h := (Values(q.pending) + Values(q.completed))[i];
      h < |q.tasks| && i < |Snapshot(q)| && Snapshot(q)[i] == Row(q, h)
  {
    ValuesInRange(q);
  }

  lemma RowIs(q: Q.Queue, h: nat)
    requires h < |q.tasks|
    ensures var t := q.tasks[h];
      Row(q, h) == Item(t.created, h, if t.id in q.states then Some(q.states[t.id]) else None)
  {
  }

  // ---- the sort ----

  /** Put `x` in front of the first item that is not later. */
  function Insert(x: Item, ys: seq<Item>): seq<Item> {
    if ys == [] || x.created >= ys[0].created then [x] + ys else [ys[0]] + Insert(x, ys[1..])
  }

  /** Descending and stable, as the library's reversed sort is. */
  function Latest(xs: seq<Item>): seq<Item> {
    if xs == [] then [] else Insert(xs[0], Latest(xs[1..]))
  }

  ghost predicate Descending(xs: seq<Item>) {
    forall i, j :: 0 <= i < j < |xs| ==> xs[i].created >= xs[j].created
  }

  /** The items created at `t`, in order. */
  function CreatedAt(xs: seq<Item>, t: real): seq<Item> {
    if xs == [] then []
    else OneAt(xs[0], t) + CreatedAt(xs[1..], t)
  }

  lemma {:induction false} InsertKeeps(x: Item, ys: seq<Item>)
    ensures multiset(Insert(x, ys)) == multiset{x} + multiset(ys)
  {
    if ys != [] && x.created < ys[0].created {
      InsertKeeps(x, ys[1..]);
      assert ys == [ys[0]] + ys[1..];
    }
  }

  lemma {:induction false} InsertKeepsAge(x: Item, ys: seq<Item>, t: real)
    ensures CreatedAt(Insert(x, ys), t) == OneAt(x, t) + CreatedAt(ys, t)
  {
    InsertIs(x, ys);
    if ys == [] || x.created >= ys[0].created {
      CreatedAtCons(x, ys, t);
    } else {
      var y, tail := ys[0], ys[1..];
      InsertKeepsAge(x, tail, t);
      CreatedAtCons(y, Insert(x, tail), t);
      CreatedAtCons(y, tail, t);
      hide Insert, CreatedAt;
      assert [y] + tail == ys;
      var rest := CreatedAt(tail, t);
      assert OneAt(y, t) + (OneAt(x, t) + rest) == OneAt(x, t) + (OneAt(y, t) + rest);
    }
  }

  /** The item itself, if it was created at `t`. */
  function OneAt(x: Item, t: real): seq<Item> {
    if x.created == t then [x] else []
  }

  lemma CreatedAtCons(y: Item, ys: seq<Item>, t: real)
    ensures CreatedAt([y] + ys, t) == OneAt(y, t) + CreatedAt(ys, t)
  {
    assert ([y] + ys)[1..] == ys;
  }

  lemma InsertIs(x: Item, ys: seq<Item>)
    ensures Insert(x, ys) ==
      if ys == [] || x.created >= ys[0].created then [x] + ys else [ys[0]] + Insert(x, ys[1..])
  {
  }

  lemma {:induction false} InsertSorts(x: Item, ys: seq<Item>)
    requires Descending(ys)
    ensures Descending(Insert(x, ys))
  {
    if ys == [] || x.created >= ys[0].created {
      HeadDescends(x, ys);
    } else {
      var tail := ys[1..];
      InsertSorts(x, tail);
      InsertKeeps(x, tail);
      forall y | y in Insert(x, tail) ensures ys[0].created >= y.created {
        assert y in multiset(Insert(x, tail));
        if y in tail {
          var i :| 0 <= i < |tail| && tail[i] == y;
          assert ys[i + 1] == y;
        }
      }
      HeadDescends(ys[0], Insert(x, tail));
    }
  }

  lemma HeadDescends(x: Item, ys: seq<Item>)
    requires Descending(ys) && forall y :: y in ys ==> x.created >= y.created
    ensures Descending([x] + ys)
  {
    var r := [x] + ys;
    forall i, j | 0 <= i < j < |r| ensures r[i].created >= r[j].created {
      assert r[j] == ys[j - 1] && ys[j - 1] in ys;
      if i > 0 {
        assert r[i] == ys[i - 1];
      }
    }
  }

  /** The sort is descending, keeps the items, and keeps the order of items of one time. */
  lemma {:induction false} LatestSorts(xs: seq<Item>, t: real)
    ensures Descending(Latest(xs)) && multiset(Latest(xs)) == multiset(xs)
    ensures CreatedAt(Latest(xs), t) == CreatedAt(xs, t)
  {
    if xs != [] {
      LatestSorts(xs[1..], t);
      InsertSorts(xs[0], Latest(xs[1..]));
      InsertKeeps(xs[0], Latest(xs[1..]));
      InsertKeepsAge(xs[0], Latest(xs[1..]), t);
      hide Insert;
      assert xs == [xs[0]] + xs[1..];
    }
  }

  lemma {:induction false} CreatedAtFirst(xs: seq<Item>, i: nat)
    requires i < |xs| && Descending(xs)
    ensures xs[0].created >= xs[i].created
    ensures |CreatedAt(xs, xs[i].created)| > 0
  {
    if i > 0 {
      assert xs[1..][i - 1] == xs[i];
      CreatedAtFirst(xs[1..], i - 1);
    }
  }

  lemma {:induction false} CreatedAtHas(xs: seq<Item>, t: real)
    requires CreatedAt(xs, t) != []
    ensures exists i :: 0 <= i < |xs| && xs[i].created == t
  {
    if xs[0].created != t {
      CreatedAtHas(xs[1..], t);
      var i :| 0 <= i < |xs[1..]| && xs[1..][i].created == t;
      assert xs[i + 1].created == t;
    }
  }

  lemma NotLater(ys: seq<Item>, zs: seq<Item>)
    requires Descending(zs) && ys != [] && CreatedAt(ys, ys[0].created) == CreatedAt(zs, ys[0].created)
    ensures zs != [] && zs[0].created >= ys[0].created
  {
    CreatedAtHas(zs, ys[0].created);
    var i :| 0 <= i < |zs| && zs[i].created == ys[0].created;
    CreatedAtFirst(zs, i);
  }

  lemma HeadsAgree(ys: seq<Item>, zs: seq<Item>)
    requires Descending(ys) && Descending(zs) && ys != [] && forall t :: CreatedAt(ys, t) == CreatedAt(zs, t)
    ensures zs != [] && ys[0] == zs[0]
  {
    NotLater(ys, zs);
    NotLater(zs, ys);
    var t := ys[0].created;
    assert CreatedAt(ys, t) == CreatedAt(zs, t);
    assert CreatedAt(ys, t)[0] == ys[0] && CreatedAt(zs, t)[0] == zs[0];
    hide Descending;
  }

  lemma TailsAgree(ys: seq<Item>, zs: seq<Item>, t: real)
    requires ys != [] && zs != [] && ys[0] == zs[0] && CreatedAt(ys, t) == CreatedAt(zs, t)
    ensures CreatedAt(ys[1..], t) == CreatedAt(zs[1..], t)
  {
    var head, a, b := if ys[0].created == t then [ys[0]] else [], CreatedAt(ys[1..], t), CreatedAt(zs[1..], t);
    assert head + a == head + b;
    hide CreatedAt;
    assert (head + a)[|head|..] == a && (head + b)[|head|..] == b;
  }

  lemma TailDescends(ys: seq<Item>)
    requires Descending(ys) && ys != []
    ensures Descending(ys[1..])
  {
  }

  lemma SameAges(ys: seq<Item>, zs: seq<Item>)
    requires ys != [] && zs != [] && ys[0] == zs[0] && forall t :: CreatedAt(ys, t) == CreatedAt(zs, t)
    ensures forall t :: CreatedAt(ys[1..], t) == CreatedAt(zs[1..], t)
  {
    hide *;
    forall t ensures CreatedAt(ys[1..], t) == CreatedAt(zs[1..], t) {
      assert CreatedAt(ys, t) == CreatedAt(zs, t);
      TailsAgree(ys, zs, t);
    }
  }

  /** Those properties determine the sorted list. */
  lemma {:induction false} DescendingStableUnique(ys: seq<Item>, zs: seq<Item>)
    requires Descending(ys) && Descending(zs) && forall t :: CreatedAt(ys, t) == CreatedAt(zs, t)
    ensures ys == zs
  {
    hide *;
    if ys != [] {
      HeadsAgree(ys, zs);
      TailDescends(ys);
      TailDescends(zs);
      SameAges(ys, zs);
      DescendingStableUnique(ys[1..], zs[1..]);
      assert ys == [ys[0]] + ys[1..] && zs == [zs[0]] + zs[1..];
    } else if zs != [] {
      HeadsAgree(zs, ys);
    }
  }

  // ---- the cursor ----

  function ToByte(c: char): (b: Base64.Byte)
    requires c as nat < 128
    ensures b == c as nat
  {
    c as nat
  }

  predicate IsAscii(s: string) {
    forall i :: 0 <= i < |s| ==> s[i] as nat < 128
  }

  function Bytes(s: string): (bs: seq<Base64.Byte>)
    requires IsAscii(s)
    ensures |bs| == |s| && forall i :: 0 <= i < |bs| ==> bs[i] == s[i] as nat
  {
    seq(|s|, i requires 0 <= i < |s| => ToByte(s[i]))
  }

  /** The text of a byte string, when all of it is ASCII. */
  function Text(bs: seq<Base64.Byte>): (s: Option<string>)
    ensures s.Some? <==> forall i :: 0 <= i < |bs| ==> bs[i] < 128
    ensures s.Some? ==> |s.value| == |bs| && forall i :: 0 <= i < |bs| ==> s.value[i] == bs[i] as char
  {
    if forall i :: 0 <= i < |bs| ==> bs[i] < 128 then
      Some(seq(|bs|, i requires 0 <= i < |bs| => bs[i] as char))
    else None
  }

  lemma TextOfBytes(s: string)
    requires IsAscii(s)
    ensures Text(Bytes(s)) == Some(s)
  {
    assert Text(Bytes(s)).value == s;
  }

  lemma DecimalIsAscii(n: nat)
    ensures IsAscii(Decimal(n))
  {
    assert forall i :: 0 <= i < |Decimal(n)| ==> Decimal(n)[i] in Decimal(n);
    hide Decimal;
  }

  function Token(offset: nat): (s: string)
    ensures s != ""
  {
    DecimalIsAscii(offset);
    Base64.Encode(Bytes(Decimal(offset)))
  }

  /** The offset a token asks for: 0 when it is empty, undecodable, or negative. */
  function Offset(token: string): nat {
    if token == "" then 0
    else
      match Base64.Decode(token)
      case None => 0
      case Some(bs) =>
        match Text(bs)
        case None => 0
        case Some(s) =>
          match ParseInt(s)
          case None => 0
          case Some(v) => if v < 0 then 0 else v
  }

  /** A token that is no offset starts over: an empty or undecodable one, or one whose text is not
      ASCII, is no number or is a negative one. */
  lemma TokenStartsOver(token: string)
    requires token == "" || Base64.Decode(token) == None
      || Text(Base64.Decode(token).value) == None
      || (var v := ParseInt(Text(Base64.Decode(token).value).value); v == None || v.value <= 0)
    ensures Offset(token) == 0
  {
    hide Base64.Decode, Text, ParseInt;
  }

  predicate Readable(offset: nat) {
    |Decimal(offset)| <= MAX_DIGITS
  }

  /** The cursor round trip. */
  lemma CursorRoundTrip(offset: nat)
    ensures Offset(Token(offset)) == offset <==> Readable(offset)
  {
    var s := Decimal(offset);
    DecimalIsAscii(offset);
    Base64.Base64RoundTrip(Bytes(s));
    ParseDecimal(offset);
    TextOfBytes(s);
    assert |Decimal(0)| == 1;
    hide Decimal, ParseInt, Base64.Encode, Base64.Decode, Bytes, Text, IsAscii;
  }

  lemma SmallerIsReadable(m: nat, n: nat)
    requires m <= n && Readable(n)
    ensures Readable(m)
  {
    MoreDigits(m, n);
  }

  // ---- pages ----

  datatype Page = Page(items: seq<Item>, pageSize: nat, totalSize: nat, nextPageToken: string)

  function Slice(xs: seq<Item>, from: nat, to: nat): seq<Item>
    requires from <= to
  {
    if from >= |xs| then [] else if to >= |xs| then xs[from..] else xs[from..to]
  }

  /** `_build_paginated_task_list`; its callers clamp the page size to at least 1. */
  function BuildPage(q: Q.Queue, pageSize: nat, token: string): Page
    requires q.Valid() && pageSize >= 1
  {
    var all := Latest(Snapshot(q));
    var offset := Offset(token);
    Page(Slice(all, offset, offset + pageSize), pageSize, |all|,
         if |all| > offset + pageSize then Token(offset + pageSize) else "")
  }

  /** How many items lie at the token's offset and after it. */
  ghost function Remaining(q: Q.Queue, token: string): int
    requires q.Valid()
  {
    |Latest(Snapshot(q))| - Offset(token)
  }

  /** The number of tasks has few enough digits. */
  ghost predicate Countable(q: Q.Queue)
    requires q.Valid()
  {
    Readable(|Latest(Snapshot(q))|)
  }

  lemma NextPageIsCloser(q: Q.Queue, pageSize: nat, token: string)
    requires q.Valid() && Countable(q) && pageSize >= 1
    ensures var next := BuildPage(q, pageSize, token).nextPageToken;
      next != "" ==> 0 < Remaining(q, next) < Remaining(q, token)
  {
    hide Latest, Snapshot, Token, Offset, Readable;
    var page := BuildPage(q, pageSize, token);
    if page.nextPageToken != "" {
      NextOffset(q, Offset(token) + pageSize);
    }
  }

  lemma NextOffset(q: Q.Queue, offset: nat)
    requires q.Valid() && Countable(q) && offset <= |Latest(Snapshot(q))|
    ensures Offset(Token(offset)) == offset
  {
    SmallerIsReadable(offset, |Latest(Snapshot(q))|);
    CursorRoundTrip(offset);
  }

  /** The items a client collects that follows `nextPageToken` from `token` until it is empty. */
  ghost function Walk(q: Q.Queue, pageSize: nat, token: string): seq<Item>
    requires q.Valid() && Countable(q) && pageSize >= 1
    decreases Remaining(q, token)
  {
    var page := BuildPage(q, pageSize, token);
    NextPageIsCloser(q, pageSize, token);
    if page.nextPageToken == "" then page.items else page.items + Walk(q, pageSize, page.nextPageToken)
  }

  lemma {:induction false} WalkFrom(q: Q.Queue, pageSize: nat, token: string)
    requires q.Valid() && Countable(q) && pageSize >= 1
    ensures var all := Latest(Snapshot(q));
      Walk(q, pageSize, token) == if Offset(token) >= |all| then [] else all[Offset(token)..]
    decreases Remaining(q, token)
  {
    hide Latest, Snapshot, Token, Offset, Readable;
    var all, from := Latest(Snapshot(q)), Offset(token);
    var page := BuildPage(q, pageSize, token);
    if page.nextPageToken != "" {
      NextOffset(q, from + pageSize);
      WalkFrom(q, pageSize, page.nextPageToken);
      assert all[from..] == all[from..from + pageSize] + all[from + pageSize..];
    }
  }

  /** From the first page the walk visits exactly the snapshot, latest first: descending, each
      item as often as it is there, items of one time in snapshot order.  A token that cannot be
      decoded starts over. */
  lemma PageWalk(q: Q.Queue, pageSize: nat, token: string, t: real)
    requires q.Valid() && Countable(q) && pageSize >= 1 && Offset(token) == 0
    ensures var w := Walk(q, pageSize, token);
      && w == Walk(q, pageSize, "")
      && Descending(w) && multiset(w) == multiset(Snapshot(q))
      && CreatedAt(w, t) == CreatedAt(Snapshot(q), t)
  {
    hide Latest, Snapshot, Walk, Readable;
    WalkFrom(q, pageSize, token);
    WalkFrom(q, pageSize, "");
    var all := Latest(Snapshot(q));
    assert |all| > 0 ==> all[0..] == all;
    LatestSorts(Snapshot(q), t);
  }

  // ---- what is listed ----

  /** Some id stores task `h` in the table. */
  ghost predicate Holds(d: OrderedDict<nat>, h: nat) {
    exists id :: id in d.vals && d.vals[id] == h
  }

  /** The tasks of a table created at `t`, in queue order, as a client sees them. */
  ghost function Aged(q: Q.Queue, d: OrderedDict<nat>, keys: seq<string>, t: real): seq<Item> {
    if keys == [] then []
    else if keys[0] in d.vals && d.vals[keys[0]] < |q.tasks| && q.tasks[d.vals[keys[0]]].created == t then
      var h := d.vals[keys[0]];
      [Item(t, h, if keys[0] in q.states then Some(q.states[keys[0]]) else None)] + Aged(q, d, keys[1..], t)
    else Aged(q, d, keys[1..], t)
  }

  ghost predicate HeldBy(d: OrderedDict<nat>, keys: seq<string>, h: nat)
    requires forall k :: k in keys ==> k in d.vals
  {
    exists k :: k in keys && d.vals[k] == h
  }

  /** No two ids store the same task. */
  ghost predicate OneIdEach(d: OrderedDict<nat>) {
    forall j, k :: j in d.vals && k in d.vals && d.vals[j] == d.vals[k] ==> j == k
  }

  lemma HeadOnce(keys: seq<string>)
    requires keys != [] && NoDuplicates(keys)
    ensures NoDuplicates(keys[1..]) && keys[0] !in keys[1..]
    ensures forall k :: k in keys <==> k == keys[0] || k in keys[1..]
  {
    assert keys == [keys[0]] + keys[1..];
  }

  lemma ValuesOfCons(d: OrderedDict<nat>, keys: seq<string>)
    requires keys != [] && keys[0] in d.vals
    requires (forall k :: k in keys ==> k in d.vals) && forall k :: k in keys[1..] ==> k in d.vals
    ensures ValuesOf(d, keys) == [d.vals[keys[0]]] + ValuesOf(d, keys[1..])
  {
  }

  lemma HeldByCons(d: OrderedDict<nat>, keys: seq<string>, h: nat)
    requires keys != [] && OneIdEach(d) && forall k :: k in keys ==> k in d.vals
    requires keys[0] !in keys[1..] && forall k :: k in keys <==> k == keys[0] || k in keys[1..]
    ensures keys[0] in d.vals && forall k :: k in keys[1..] ==> k in d.vals
    ensures HeldBy(d, keys, h) <==> d.vals[keys[0]] == h || HeldBy(d, keys[1..], h)
    ensures !(d.vals[keys[0]] == h && HeldBy(d, keys[1..], h))
  {
  }

  lemma {:induction false} KeyedOnce(d: OrderedDict<nat>, keys: seq<string>, h: nat)
    requires NoDuplicates(keys) && OneIdEach(d) && forall k :: k in keys ==> k in d.vals
    ensures multiset(ValuesOf(d, keys))[h] == if HeldBy(d, keys, h) then 1 else 0
  {
    if keys == [] {
      assert ValuesOf(d, keys) == [];
    } else {
      hide *;
      HeadOnce(keys);
      HeldByCons(d, keys, h);
      ValuesOfCons(d, keys);
      KeyedOnce(d, keys[1..], h);
      CountCons(d.vals[keys[0]], ValuesOf(d, keys[1..]), h);
    }
  }

  lemma CountCons<T>(x: T, xs: seq<T>, y: T)
    ensures multiset([x] + xs)[y] == multiset(xs)[y] + if x == y then 1 else 0
  {
  }

  function ValuesOf(d: OrderedDict<nat>, keys: seq<string>): (hs: seq<nat>)
    requires forall k :: k in keys ==> k in d.vals
    ensures |hs| == |keys| && forall i :: 0 <= i < |hs| ==> hs[i] == d.vals[keys[i]]
  {
    seq(|keys|, i requires 0 <= i < |keys| => d.vals[keys[i]])
  }

  lemma TableCount(q: Q.Queue, d: OrderedDict<nat>, h: nat)
    requires d.Valid() && forall id :: id in d.vals ==> q.Stores(d.vals[id], id)
    ensures multiset(Values(d))[h] == if Holds(d, h) then 1 else 0
  {
    assert OneIdEach(d) && forall k :: k in d.keys ==> k in d.vals;
    KeyedOnce(d, d.keys, h);
    hide NoDuplicates;
    assert Holds(d, h) <==> HeldBy(d, d.keys, h);
    assert ValuesOf(d, d.keys) == Values(d);
  }

  lemma {:induction false} RowCount(q: Q.Queue, hs: seq<nat>, h: nat)
    requires h < |q.tasks| && forall i :: 0 <= i < |hs| ==> hs[i] < |q.tasks|
    ensures multiset(Rows(q, hs))[Row(q, h)] == multiset(hs)[h]
  {
    if hs != [] {
      var rest := hs[1..];
      RowCount(q, rest, h);
      RowsCons(q, hs);
      CountCons(hs[0], rest, h);
      CountCons(Row(q, hs[0]), Rows(q, rest), Row(q, h));
      RowOfTask(q, hs[0], h);
      hide *;
      assert hs == [hs[0]] + rest;
    }
  }

  lemma RowsCons(q: Q.Queue, hs: seq<nat>)
    requires hs != [] && forall i :: 0 <= i < |hs| ==> hs[i] < |q.tasks|
    ensures Rows(q, hs) == [Row(q, hs[0])] + Rows(q, hs[1..])
  {
    hide Row;
  }

  lemma RowsJoin(q: Q.Queue, hs: seq<nat>, gs: seq<nat>)
    requires forall i :: 0 <= i < |hs| ==> hs[i] < |q.tasks|
    requires forall i :: 0 <= i < |gs| ==> gs[i] < |q.tasks|
    ensures forall i :: 0 <= i < |hs + gs| ==> (hs + gs)[i] < |q.tasks|
    ensures Rows(q, hs + gs) == Rows(q, hs) + Rows(q, gs)
  {
    hide Row;
  }

  lemma RowOfTask(q: Q.Queue, g: nat, h: nat)
    requires g < |q.tasks| && h < |q.tasks|
    ensures Row(q, g) == Row(q, h) <==> g == h
  {
  }

  lemma SnapshotCount(q: Q.Queue, h: nat)
    requires q.Valid() && h < |q.tasks|
    ensures multiset(Snapshot(q))[Row(q, h)] ==
      (if Holds(q.pending, h) then 1 else 0) + if Holds(q.completed, h) then 1 else 0
  {
    ValuesInRange(q);
    TableCount(q, q.pending, h);
    TableCount(q, q.completed, h);
    RowCount(q, Values(q.pending) + Values(q.completed), h);
    hide Holds, Values, Row;
  }

  lemma {:induction false} CreatedAtJoin(xs: seq<Item>, ys: seq<Item>, t: real)
    ensures CreatedAt(xs + ys, t) == CreatedAt(xs, t) + CreatedAt(ys, t)
  {
    if xs == [] {
      assert xs + ys == ys;
    } else {
      assert (xs + ys)[1..] == xs[1..] + ys;
      CreatedAtJoin(xs[1..], ys, t);
    }
  }

  lemma {:induction false} AgedRows(q: Q.Queue, d: OrderedDict<nat>, keys: seq<string>, t: real)
    requires forall k :: k in keys ==> k in d.vals && q.Stores(d.vals[k], k)
    ensures forall i :: 0 <= i < |keys| ==> ValuesOf(d, keys)[i] < |q.tasks|
    ensures CreatedAt(Rows(q, ValuesOf(d, keys)), t) == Aged(q, d, keys, t)
  {
    assert forall i :: 0 <= i < |keys| ==> keys[i] in keys;
    if keys != [] {
      var hs := ValuesOf(d, keys);
      AgedRows(q, d, keys[1..], t);
      assert hs[1..] == ValuesOf(d, keys[1..]);
      assert Rows(q, hs) == [Row(q, hs[0])] + Rows(q, hs[1..]);
      CreatedAtCons(Row(q, hs[0]), Rows(q, hs[1..]), t);
      hide CreatedAt, Rows;
    }
  }

  lemma TableAged(q: Q.Queue, d: OrderedDict<nat>, t: real)
    requires d.Valid() && forall id :: id in d.vals ==> q.Stores(d.vals[id], id)
    ensures forall i :: 0 <= i < |Values(d)| ==> Values(d)[i] < |q.tasks|
    ensures CreatedAt(Rows(q, Values(d)), t) == Aged(q, d, d.keys, t)
  {
    AgedRows(q, d, d.keys, t);
    hide CreatedAt, Aged, Rows, NoDuplicates;
    assert Values(d) == ValuesOf(d, d.keys);
  }

  lemma SnapshotTies(q: Q.Queue, t: real)
    requires q.Valid()
    ensures CreatedAt(Snapshot(q), t) == Aged(q, q.pending, q.pending.keys, t) + Aged(q, q.completed, q.completed.keys, t)
  {
    TableAged(q, q.pending, t);
    TableAged(q, q.completed, t);
    hide CreatedAt, Aged, Rows, Values, Q.Queue.Valid;
    var a, b := Values(q.pending), Values(q.completed);
    RowsJoin(q, a, b);
    CreatedAtJoin(Rows(q, a), Rows(q, b), t);
  }

  /** The walk lists the tasks of both tables: each as often as an id stores it, pending or
      completed, with its creation time and the recorded state of its id, and nothing else. */
  lemma WalkListsBothTables(q: Q.Queue, pageSize: nat, token: string, h: nat)
    requires q.Valid() && Countable(q) && pageSize >= 1 && Offset(token) == 0
    ensures var w := Walk(q, pageSize, token);
      && (forall x :: x in w ==>
            && x.task < |q.tasks| && (Holds(q.pending, x.task) || Holds(q.completed, x.task))
            && x.created == q.tasks[x.task].created
            && var id := q.tasks[x.task].id; x.state == if id in q.states then Some(q.states[id]) else None)
      && (h < |q.tasks| ==>
            var id := q.tasks[h].id;
            multiset(w)[Item(q.tasks[h].created, h, if id in q.states then Some(q.states[id]) else None)] ==
              (if Holds(q.pending, h) then 1 else 0) + if Holds(q.completed, h) then 1 else 0)
  {
    PageWalk(q, pageSize, token, 0.0);
    var w := Walk(q, pageSize, token);
    if h < |q.tasks| {
      SnapshotCount(q, h);
    }
    hide Walk, Countable, Offset;
    forall x | x in w
      ensures x.task < |q.tasks| && x == Row(q, x.task) && (Holds(q.pending, x.task) || Holds(q.completed, x.task))
    {
      assert x in multiset(w);
      RowListed(q, x);
      SnapshotCount(q, x.task);
    }
    hide Holds, Snapshot;
  }

  lemma RowListed(q: Q.Queue, x: Item)
    requires q.Valid() && x in multiset(Snapshot(q))
    ensures x.task < |q.tasks| && x == Row(q, x.task)
  {
    ValuesInRange(q);
    var hs := Values(q.pending) + Values(q.completed);
    assert x in Rows(q, hs);
  }

  /** Tasks of one time come pending first, then completed, each in the order of its table. */
  lemma WalkTies(q: Q.Queue, pageSize: nat, token: string, t: real)
    requires q.Valid() && Countable(q) && pageSize >= 1 && Offset(token) == 0
    ensures CreatedAt(Walk(q, pageSize, token), t) ==
      Aged(q, q.pending, q.pending.keys, t) + Aged(q, q.completed, q.completed.keys, t)
  {
    hide *;
    PageWalk(q, pageSize, token, t);
    SnapshotTies(q, t);
  }

  /** The sizes on every page, and how many tasks it shows. */
  lemma PageCounts(q: Q.Queue, pageSize: nat, token: string)
    requires q.Valid() && pageSize >= 1
    ensures var page, total := BuildPage(q, pageSize, token), |q.pending.keys| + |q.completed.keys|;
      var left := if Offset(token) >= total then 0 else total - Offset(token);
      && page.totalSize == total && page.pageSize == pageSize
      && |page.items| == (if left < pageSize then left else pageSize)
      && (page.nextPageToken == "" <==> left <= pageSize)
  {
    LatestSorts(Snapshot(q), 0.0);
    var all := Latest(Snapshot(q));
    assert |all| == |multiset(all)|;
    assert |Snapshot(q)| == |multiset(Snapshot(q))|;
    SnapshotSize(q);
    hide Latest, Snapshot, Token, Offset;
  }

  lemma SnapshotSize(q: Q.Queue)
    requires q.Valid()
    ensures |Snapshot(q)| == |q.pending.keys| + |q.completed.keys|
  {
  }

  /** The page count of a walk. */
  ghost function Pages(q: Q.Queue, pageSize: nat, token: string): nat
    requires q.Valid() && Countable(q) && pageSize >= 1
    decreases Remaining(q, token)
  {
    var page := BuildPage(q, pageSize, token);
    NextPageIsCloser(q, pageSize, token);
    1 + if page.nextPageToken == "" then 0 else Pages(q, pageSize, page.nextPageToken)
  }

  /** A walk asks for no page it does not need. */
  lemma {:induction false} PagesSuffice(q: Q.Queue, pageSize: nat, token: string)
    requires q.Valid() && Countable(q) && pageSize >= 1
    ensures var left := |Latest(Snapshot(q))| - Offset(token); var n := Pages(q, pageSize, token);
      if left <= 0 then n == 1 else (n - 1) * pageSize < left <= n * pageSize
    decreases Remaining(q, token)
  {
    hide Latest, Snapshot, Token, Offset, Readable;
    var page := BuildPage(q, pageSize, token);
    if page.nextPageToken != "" {
      NextOffset(q, Offset(token) + pageSize);
      PagesSuffice(q, pageSize, page.nextPageToken);
    }
  }
}
