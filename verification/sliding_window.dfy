/** The outbound call limit: a deque of the times of accepted calls, trimmed at its front.
    `maxCalls` and `window` are parameters; the program fixes them. */
module SlidingWindows {

  // ---- the deque as a value ----

  /** The deque once the calls before `cutoff` left its front. */
  function Trimmed(calls: seq<real>, cutoff: real): seq<real> {
    if calls != [] && calls[0] < cutoff then Trimmed(calls[1..], cutoff) else calls
  }

  predicate Accepts(maxCalls: int, window: real, calls: seq<real>, now: real) {
    |Trimmed(calls, now - window)| < maxCalls
  }

  function Consumed(maxCalls: int, window: real, calls: seq<real>, now: real): seq<real> {
    var kept := Trimmed(calls, now - window);
    if |kept| < maxCalls then kept + [now] else kept
  }

  /** The deque after calls at the given times, in lock order. */
  function Run(maxCalls: int, window: real, times: seq<real>): seq<real> {
    if times == [] then []
    else
      var n := |times| - 1;
      Consumed(maxCalls, window, Run(maxCalls, window, times[..n]), times[n])
  }

  /** The times of the calls that were accepted, in lock order. */
  function Accepted(maxCalls: int, window: real, times: seq<real>): seq<real> {
    if times == [] then []
    else
      var n := |times| - 1;
      var before := Accepted(maxCalls, window, times[..n]);
      if Accepts(maxCalls, window, Run(maxCalls, window, times[..n]), times[n]) then before + [times[n]] else before
  }

  // ---- the object ----

  class SlidingWindow {
    const maxCalls: int
    const window: real
    var calls: seq<real>

    constructor (maxCalls: int, window: real)
      ensures this.maxCalls == maxCalls && this.window == window
      ensures calls == Run(maxCalls, window, [])
    {
      this.maxCalls, this.window, this.calls := maxCalls, window, [];
    }

    method Consume(now: real) returns (ok: bool)
      modifies `calls
      ensures ok == Accepts(maxCalls, window, old(calls), now)
      ensures calls == Consumed(maxCalls, window, old(calls), now)
    {
      while calls != [] && calls[0] < now - window
        invariant Trimmed(calls, now - window) == Trimmed(old(calls), now - window)
        decreases |calls|
      {
        calls := calls[1..];
      }
      if |calls| >= maxCalls {
        return false;
      }
      calls := calls + [now];
      return true;
    }
  }

  // ---- what the deque means ----

  ghost predicate Sorted(ts: seq<real>) {
    forall i, j :: 0 <= i <= j < |ts| ==> ts[i] <= ts[j]
  }

  /** How many of `ts` lie in the closed interval from `a` to `b`. */
  function CountIn(ts: seq<real>, a: real, b: real): nat {
    if ts == [] then 0
    else CountIn(ts[..|ts| - 1], a, b) + if a <= ts[|ts| - 1] <= b then 1 else 0
  }

  ghost predicate Before(ts: seq<real>, t: real) {
    forall i :: 0 <= i < |ts| ==> ts[i] < t
  }

  ghost predicate UpTo(ts: seq<real>, t: real) {
    forall i :: 0 <= i < |ts| ==> ts[i] <= t
  }

  lemma {:induction false} TrimmedSplits(calls: seq<real>, cutoff: real) returns (front: seq<real>)
    ensures calls == front + Trimmed(calls, cutoff) && Before(front, cutoff)
    ensures Trimmed(calls, cutoff) != [] ==> Trimmed(calls, cutoff)[0] >= cutoff
  {
    if calls != [] && calls[0] < cutoff {
      var rest := TrimmedSplits(calls[1..], cutoff);
      front := [calls[0]] + rest;
    } else {
      front := [];
    }
  }

  /** The deque is the tail of the accepted calls; what left it is before the window's start. */
  ghost predicate Follows(gone: seq<real>, deque: seq<real>, accepted: seq<real>, cutoff: real) {
    accepted == gone + deque && Sorted(accepted) && Before(gone, cutoff)
  }

  lemma BeforeBoth(xs: seq<real>, ys: seq<real>, s: real, t: real)
    requires Before(xs, s) && s <= t && Before(ys, t)
    ensures Before(xs + ys, t)
  {
  }

  lemma SortedAppend(ts: seq<real>, t: real)
    requires Sorted(ts) && UpTo(ts, t)
    ensures Sorted(ts + [t]) && UpTo(ts + [t], t)
  {
  }

  lemma Later(ts: seq<real>, s: real, t: real)
    requires UpTo(ts, s) && s <= t
    ensures UpTo(ts, t)
  {
  }

  lemma LastStep(maxCalls: int, window: real, before: seq<real>, now: real)
    ensures var deque, accepted := Run(maxCalls, window, before), Accepted(maxCalls, window, before);
      && Run(maxCalls, window, before + [now]) == Consumed(maxCalls, window, deque, now)
      && Accepted(maxCalls, window, before + [now])
        == if Accepts(maxCalls, window, deque, now) then accepted + [now] else accepted
  {
    var times := before + [now];
    assert times[..|times| - 1] == before;
  }

  lemma ConsumedIs(maxCalls: int, window: real, deque: seq<real>, now: real)
    ensures Consumed(maxCalls, window, deque, now) == Trimmed(deque, now - window)
      + if Accepts(maxCalls, window, deque, now) then [now] else []
  {
  }

  /** One more call, at `now`. */
  lemma StepFollows(maxCalls: int, window: real, gone: seq<real>, deque: seq<real>, accepted: seq<real>,
                    cutoff: real, now: real)
    returns (left: seq<real>)
    requires Follows(gone, deque, accepted, cutoff) && cutoff <= now - window && UpTo(accepted, now)
    ensures var after := if Accepts(maxCalls, window, deque, now) then accepted + [now] else accepted;
      Follows(left, Consumed(maxCalls, window, deque, now), after, now - window) && UpTo(after, now)
  {
    hide Sorted, UpTo, Before, Trimmed, Consumed, Accepts;
    ConsumedIs(maxCalls, window, deque, now);
    var front := TrimmedSplits(deque, now - window);
    var kept := Trimmed(deque, now - window);
    BeforeBoth(gone, front, cutoff, now - window);
    SortedAppend(accepted, now);
    assert gone + (front + kept) == (gone + front) + kept;
    assert (gone + front + kept) + [now] == (gone + front) + (kept + [now]);
    assert kept + [] == kept;
    left := gone + front;
  }

  lemma {:induction false} DequeFollows(maxCalls: int, window: real, times: seq<real>) returns (gone: seq<real>)
    requires Sorted(times) && times != []
    ensures Follows(gone, Run(maxCalls, window, times), Accepted(maxCalls, window, times), times[|times| - 1] - window)
    ensures UpTo(Accepted(maxCalls, window, times), times[|times| - 1])
    decreases |times|
  {
    hide *;
    var n := |times| - 1;
    var before, now := times[..n], times[n];
    assert times == before + [now];
    PrefixSorted(before, now);
    var deque, accepted := Run(maxCalls, window, before), Accepted(maxCalls, window, before);
    LastStep(maxCalls, window, before, now);
    if n > 0 {
      gone := DequeFollows(maxCalls, window, before);
      Later(accepted, before[n - 1], now);
      gone := StepFollows(maxCalls, window, gone, deque, accepted, before[n - 1] - window, now);
    } else {
      NothingFollows(maxCalls, window, now);
      gone := StepFollows(maxCalls, window, [], deque, accepted, now - window, now);
    }
  }

  lemma NothingFollows(maxCalls: int, window: real, now: real)
    ensures Follows([], Run(maxCalls, window, []), Accepted(maxCalls, window, []), now - window)
    ensures UpTo(Accepted(maxCalls, window, []), now)
  {
  }

  lemma {:induction false} CountNone(ts: seq<real>, a: real, b: real)
    requires Before(ts, a)
    ensures CountIn(ts, a, b) == 0
  {
    if ts != [] {
      CountNone(ts[..|ts| - 1], a, b);
    }
  }

  lemma {:induction false} CountAll(ts: seq<real>, a: real, b: real)
    requires forall i :: 0 <= i < |ts| ==> a <= ts[i] <= b
    ensures CountIn(ts, a, b) == |ts|
  {
    if ts != [] {
      CountAll(ts[..|ts| - 1], a, b);
    }
  }

  lemma {:induction false} CountSplits(xs: seq<real>, ys: seq<real>, a: real, b: real)
    ensures CountIn(xs + ys, a, b) == CountIn(xs, a, b) + CountIn(ys, a, b)
  {
    if ys == [] {
      assert xs + ys == xs;
    } else {
      CountSplits(xs, ys[..|ys| - 1], a, b);
      assert (xs + ys)[..|xs + ys| - 1] == xs + ys[..|ys| - 1];
    }
  }

  /** Trimmed at `now`, the deque holds exactly the accepted calls of the closed window. */
  lemma TrimmedIsWindow(window: real, gone: seq<real>, deque: seq<real>, accepted: seq<real>, cutoff: real, now: real)
    requires Follows(gone, deque, accepted, cutoff) && cutoff <= now - window && UpTo(accepted, now)
    ensures |Trimmed(deque, now - window)| == CountIn(accepted, now - window, now)
  {
    var front := TrimmedSplits(deque, now - window);
    var kept := Trimmed(deque, now - window);
    BeforeBoth(gone, front, cutoff, now - window);
    var out := gone + front;
    assert gone + (front + kept) == out + kept;
    hide Before, Trimmed, CountIn;
    KeptInWindow(out, kept, now - window, now);
    CountNone(out, now - window, now);
    CountAll(kept, now - window, now);
    CountSplits(out, kept, now - window, now);
  }

  lemma KeptInWindow(out: seq<real>, kept: seq<real>, a: real, b: real)
    requires Sorted(out + kept) && UpTo(out + kept, b) && (kept != [] ==> kept[0] >= a)
    ensures forall i :: 0 <= i < |kept| ==> a <= kept[i] <= b
  {
    forall i | 0 <= i < |kept| ensures a <= kept[i] <= b {
      assert kept[0] == (out + kept)[|out|] && kept[i] == (out + kept)[|out| + i];
    }
  }

  /** With nondecreasing times a call is accepted exactly when fewer than `maxCalls` accepted
      calls lie in the closed window that ends at it. */
  lemma AcceptsIffRoomInWindow(maxCalls: int, window: real, times: seq<real>, now: real)
    requires Sorted(times + [now])
    ensures Accepts(maxCalls, window, Run(maxCalls, window, times), now)
      <==> CountIn(Accepted(maxCalls, window, times), now - window, now) < maxCalls
  {
    if times != [] {
      PrefixSorted(times, now);
      var gone := DequeFollows(maxCalls, window, times);
      var accepted, last := Accepted(maxCalls, window, times), times[|times| - 1];
      hide Run, Accepted, Trimmed, CountIn, Sorted;
      Later(accepted, last, now);
      TrimmedIsWindow(window, gone, Run(maxCalls, window, times), accepted, last - window, now);
    }
  }

  lemma PrefixSorted(times: seq<real>, now: real)
    requires Sorted(times + [now])
    ensures Sorted(times)
    ensures forall i :: 0 <= i < |times| ==> times[i] <= now
  {
    assert forall i :: 0 <= i < |times| ==> (times + [now])[i] == times[i];
    assert (times + [now])[|times|] == now;
  }

  lemma {:induction false} CountMono(ts: seq<real>, a: real, b: real, c: real, d: real)
    requires forall i :: 0 <= i < |ts| && a <= ts[i] <= b ==> c <= ts[i] <= d
    ensures CountIn(ts, a, b) <= CountIn(ts, c, d)
  {
    if ts != [] {
      CountMono(ts[..|ts| - 1], a, b, c, d);
    }
  }

  /** An accepted call finds room in every interval of the window's length that reaches it. */
  lemma RoomInInterval(maxCalls: nat, window: real, times: seq<real>, now: real, start: real)
    requires Sorted(times + [now]) && Accepts(maxCalls, window, Run(maxCalls, window, times), now)
    requires now <= start + window
    ensures CountIn(Accepted(maxCalls, window, times), start, start + window) < maxCalls
  {
    hide Run, Accepted, Accepts, CountIn, Sorted;
    AcceptsIffRoomInWindow(maxCalls, window, times, now);
    AcceptedUpTo(maxCalls, window, times, now);
    CountMono(Accepted(maxCalls, window, times), start, start + window, now - window, now);
  }

  /** No closed interval of the window's length ever holds more than `maxCalls` accepted calls. */
  lemma {:induction false} WindowBound(maxCalls: nat, window: real, times: seq<real>, start: real)
    requires Sorted(times)
    ensures CountIn(Accepted(maxCalls, window, times), start, start + window) <= maxCalls
  {
    hide *;
    if times == [] {
      NoCalls(maxCalls, window);
      CountNothing(start, start + window);
    } else {
      var n := |times| - 1;
      var before, now := times[..n], times[n];
      assert before + [now] == times;
      PrefixSorted(before, now);
      WindowBound(maxCalls, window, before, start);
      LastStep(maxCalls, window, before, now);
      CountAppend(Accepted(maxCalls, window, before), now, start, start + window);
      if Accepts(maxCalls, window, Run(maxCalls, window, before), now) && now <= start + window {
        RoomInInterval(maxCalls, window, before, now, start);
      }
    }
  }

  lemma NoCalls(maxCalls: int, window: real)
    ensures Run(maxCalls, window, []) == [] && Accepted(maxCalls, window, []) == []
  {
  }

  lemma CountNothing(a: real, b: real)
    ensures CountIn([], a, b) == 0
  {
  }

  lemma CountAppend(ts: seq<real>, t: real, a: real, b: real)
    ensures CountIn(ts + [t], a, b) == CountIn(ts, a, b) + if a <= t <= b then 1 else 0
  {
    assert (ts + [t])[..|ts|] == ts;
  }

  lemma AcceptedUpTo(maxCalls: int, window: real, times: seq<real>, now: real)
    requires Sorted(times + [now])
    ensures UpTo(Accepted(maxCalls, window, times), now)
  {
    if times != [] {
      PrefixSorted(times, now);
      var _ := DequeFollows(maxCalls, window, times);
    }
  }

  /** The deque never outgrows the limit, whatever the clock does; with nondecreasing times it
      is the sorted tail of the accepted calls. */
  lemma {:induction false} DequeWithinLimit(maxCalls: nat, window: real, times: seq<real>)
    ensures |Run(maxCalls, window, times)| <= maxCalls
    ensures Sorted(times) ==> exists gone ::
      Accepted(maxCalls, window, times) == gone + Run(maxCalls, window, times) && Sorted(gone + Run(maxCalls, window, times))
  {
    DequeSize(maxCalls, window, times);
    if times == [] {
      NoCalls(maxCalls, window);
      assert Accepted(maxCalls, window, times) == [] + Run(maxCalls, window, times);
    } else if Sorted(times) {
      var gone := DequeFollows(maxCalls, window, times);
      hide Run, Accepted, Sorted, Before;
      assert Accepted(maxCalls, window, times) == gone + Run(maxCalls, window, times);
    }
  }

  lemma {:induction false} DequeSize(maxCalls: nat, window: real, times: seq<real>)
    ensures |Run(maxCalls, window, times)| <= maxCalls
  {
    if times == [] {
      NoCalls(maxCalls, window);
    } else {
      var before, now := times[..|times| - 1], times[|times| - 1];
      assert times == before + [now];
      DequeSize(maxCalls, window, before);
      LastStep(maxCalls, window, before, now);
      var _ := TrimmedSplits(Run(maxCalls, window, before), now - window);
      hide Run, Trimmed;
    }
  }

  /** The bound needs the clock readings in lock order: a late reading slips a third call into
      an interval that already held two, with a limit of two. */
  lemma LateReadingBreaksBound()
    ensures CountIn(Accepted(2, 10.0, [20.0, 20.0, 31.0, 20.0]), 20.0, 30.0) == 3
  {
    var t1, t2, t3, t4 := [20.0], [20.0, 20.0], [20.0, 20.0, 31.0], [20.0, 20.0, 31.0, 20.0];
    assert t1[..0] == [] && t2[..1] == t1 && t3[..2] == t2 && t4[..3] == t3;
    assert Run(2, 10.0, t1) == [20.0];
    assert Run(2, 10.0, t2) == [20.0, 20.0];
    assert [20.0, 20.0][1..] == [20.0] && [20.0][1..] == [];
    assert Trimmed([20.0], 21.0) == [];
    assert Trimmed([20.0, 20.0], 21.0) == [];
    assert Run(2, 10.0, t3) == [31.0];
    assert Accepted(2, 10.0, t2) == [20.0, 20.0];
    assert Accepted(2, 10.0, t3) == t3;
    assert Accepted(2, 10.0, t4) == t4;
    assert CountIn(t1, 20.0, 30.0) == 1;
    assert CountIn(t2, 20.0, 30.0) == 2;
    assert CountIn(t3, 20.0, 30.0) == 2;
  }

  // ---- late readings ----

  /** No reading is more than `eps` before one that was used earlier. */
  ghost predicate LateAtMost(times: seq<real>, eps: real) {
    forall i, j :: 0 <= i < j < |times| ==> times[i] <= times[j] + eps
  }

  predicate WithinBound(maxCalls: nat, window: real, times: seq<real>, start: real) {
    CountIn(Accepted(maxCalls, window, times), start, start + window) <= maxCalls
  }

  /** The bound holds over every run whose readings are late by at most `eps`. */
  ghost predicate BoundSurvives(maxCalls: nat, window: real, eps: real) {
    forall times, start :: LateAtMost(times, eps) ==> WithinBound(maxCalls, window, times, start)
  }

  /** Accepted calls more than a window apart, each after the one before. */
  ghost predicate Spread(ts: seq<real>, window: real) {
    forall i, j :: 0 <= i < j < |ts| ==> ts[i] < ts[j] - window
  }

  lemma TrimmedOne(a: real, cutoff: real)
    ensures Trimmed([a], cutoff) == if a < cutoff then [] else [a]
  {
    assert [a][1..] == [];
  }

  /** With one slot the deque holds the last accepted call, or nothing before the first. */
  ghost predicate LastOnly(deque: seq<real>, accepted: seq<real>) {
    deque == if accepted == [] then [] else [accepted[|accepted| - 1]]
  }

  lemma OneSlotStep(window: real, deque: seq<real>, accepted: seq<real>, now: real)
    requires window >= 0.0 && Spread(accepted, window) && LastOnly(deque, accepted)
    ensures var after := if Accepts(1, window, deque, now) then accepted + [now] else accepted;
      Spread(after, window) && LastOnly(Consumed(1, window, deque, now), after)
  {
    if deque != [] {
      TrimmedOne(deque[0], now - window);
    } else {
      assert Trimmed(deque, now - window) == [];
    }
    hide Trimmed;
  }

  /** So accepted calls are more than a window apart, whatever the clock does. */
  lemma {:induction false} OneSlot(window: real, times: seq<real>)
    requires window >= 0.0
    ensures LastOnly(Run(1, window, times), Accepted(1, window, times)) && Spread(Accepted(1, window, times), window)
  {
    if times == [] {
      NoCalls(1, window);
    } else {
      hide *;
      var before, now := times[..|times| - 1], times[|times| - 1];
      assert times == before + [now];
      OneSlot(window, before);
      LastStep(1, window, before, now);
      OneSlotStep(window, Run(1, window, before), Accepted(1, window, before), now);
    }
  }

  lemma {:induction false} SpreadCounts(ts: seq<real>, window: real, start: real)
    requires Spread(ts, window) && window >= 0.0
    ensures CountIn(ts, start, start + window) <= 1
  {
    if ts != [] {
      var n := |ts| - 1;
      assert ts == ts[..n] + [ts[n]];
      SpreadCounts(ts[..n], window, start);
      if start <= ts[n] <= start + window {
        assert Before(ts[..n], start);
        CountNone(ts[..n], start, start + window);
      }
    }
  }

  lemma {:induction false} NoSlot(window: real, times: seq<real>)
    ensures Accepted(0, window, times) == []
  {
    if times != [] {
      NoSlot(window, times[..|times| - 1]);
    }
  }

  /** `n` calls at one time, all accepted while there are slots. */
  function Zeros(n: nat): (ts: seq<real>)
    ensures |ts| == n && forall i :: 0 <= i < n ==> ts[i] == 0.0
  {
    seq(n, i => 0.0)
  }

  lemma {:induction false} ZerosAccepted(maxCalls: nat, window: real, n: nat)
    requires n <= maxCalls && window >= 0.0
    ensures Run(maxCalls, window, Zeros(n)) == Zeros(n) && Accepted(maxCalls, window, Zeros(n)) == Zeros(n)
  {
    if n > 0 {
      ZerosAccepted(maxCalls, window, n - 1);
      assert Zeros(n) == Zeros(n - 1) + [0.0];
      LastStep(maxCalls, window, Zeros(n - 1), 0.0);
      assert Trimmed(Zeros(n - 1), 0.0 - window) == Zeros(n - 1);
      hide Run, Accepted;
    }
  }

  lemma {:induction false} TrimmedZeros(n: nat, cutoff: real)
    requires cutoff > 0.0
    ensures Trimmed(Zeros(n), cutoff) == []
  {
    if n > 0 {
      assert Zeros(n)[1..] == Zeros(n - 1);
      TrimmedZeros(n - 1, cutoff);
    }
  }

  /** A full deque, a call just past its window, and a late call back inside it. */
  function LateRun(maxCalls: nat, window: real, eps: real): seq<real> {
    Zeros(maxCalls) + [window + eps / 2.0] + [LateReading(window, eps)]
  }

  function LateReading(window: real, eps: real): real {
    if window >= eps / 2.0 then window - eps / 2.0 else 0.0
  }

  /** An accepted call joins what is kept. */
  lemma TakenCall(maxCalls: int, window: real, before: seq<real>, now: real, kept: seq<real>)
    requires Trimmed(Run(maxCalls, window, before), now - window) == kept && |kept| < maxCalls
    ensures Run(maxCalls, window, before + [now]) == kept + [now]
    ensures Accepted(maxCalls, window, before + [now]) == Accepted(maxCalls, window, before) + [now]
  {
    LastStep(maxCalls, window, before, now);
    hide Run, Accepted, Trimmed;
  }

  lemma PastTaken(maxCalls: nat, window: real, past: real)
    requires maxCalls >= 2 && 0.0 <= window < past
    ensures Run(maxCalls, window, Zeros(maxCalls) + [past]) == [past]
    ensures Accepted(maxCalls, window, Zeros(maxCalls) + [past]) == Zeros(maxCalls) + [past]
  {
    hide *;
    ZerosAccepted(maxCalls, window, maxCalls);
    TrimmedZeros(maxCalls, past - window);
    TakenCall(maxCalls, window, Zeros(maxCalls), past, []);
    assert [] + [past] == [past];
  }

  lemma LateTaken(maxCalls: nat, window: real, past: real, late: real)
    requires maxCalls >= 2 && 0.0 <= window < past && late <= window
    ensures var times := Zeros(maxCalls) + [past] + [late]; Accepted(maxCalls, window, times) == times
  {
    hide *;
    PastTaken(maxCalls, window, past);
    TrimmedOne(past, late - window);
    TakenCall(maxCalls, window, Zeros(maxCalls) + [past], late, [past]);
  }

  lemma LateRunAccepted(maxCalls: nat, window: real, eps: real)
    requires maxCalls >= 2 && window >= 0.0 && eps > 0.0
    ensures Accepted(maxCalls, window, LateRun(maxCalls, window, eps)) == LateRun(maxCalls, window, eps)
  {
    LateRunIs(maxCalls, window, eps);
    LateTaken(maxCalls, window, window + eps / 2.0, LateReading(window, eps));
  }

  lemma LateRunIs(maxCalls: nat, window: real, eps: real)
    requires window >= 0.0 && eps > 0.0
    ensures LateRun(maxCalls, window, eps) == Zeros(maxCalls) + [window + eps / 2.0] + [LateReading(window, eps)]
    ensures 0.0 <= LateReading(window, eps) <= window <= LateReading(window, eps) + eps / 2.0
  {
  }

  lemma LateRunBreaks(maxCalls: nat, window: real, eps: real)
    requires maxCalls >= 2 && window >= 0.0 && eps > 0.0
    ensures LateAtMost(LateRun(maxCalls, window, eps), eps)
    ensures !WithinBound(maxCalls, window, LateRun(maxCalls, window, eps), 0.0)
  {
    LateRunAccepted(maxCalls, window, eps);
    var zeros, past, late := Zeros(maxCalls), window + eps / 2.0, LateReading(window, eps);
    hide Run, Accepted, Trimmed, CountIn, Zeros;
    CountAppend(zeros + [past], late, 0.0, window);
    CountAppend(zeros, past, 0.0, window);
    CountAll(zeros, 0.0, window);
  }

  lemma NotLateIsSorted(times: seq<real>, eps: real)
    requires LateAtMost(times, eps) && eps <= 0.0
    ensures Sorted(times)
  {
  }

  /** The bound survives late readings if and only if there is at most one slot, or no reading is
      late at all. */
  lemma BoundSurvivesIff(maxCalls: nat, window: real, eps: real)
    requires window >= 0.0
    ensures BoundSurvives(maxCalls, window, eps) <==> maxCalls <= 1 || eps <= 0.0
  {
    hide Run, Accepted, CountIn, Trimmed, LateRun;
    if maxCalls <= 1 || eps <= 0.0 {
      forall times, start | LateAtMost(times, eps) ensures WithinBound(maxCalls, window, times, start) {
        if maxCalls == 0 {
          NoSlot(window, times);
          CountNone([], start, start + window);
        } else if maxCalls == 1 {
          OneSlot(window, times);
          SpreadCounts(Accepted(1, window, times), window, start);
        } else {
          NotLateIsSorted(times, eps);
          WindowBound(maxCalls, window, times, start);
        }
      }
    } else {
      LateRunBreaks(maxCalls, window, eps);
    }
  }
}
