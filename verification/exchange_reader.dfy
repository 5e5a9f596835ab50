/** What the entries of the log say: a reader who cuts an entry at its labels gets the two texts of
    the exchange back; and what `update_exchange` does to the entry of an inbound exchange. */
module ExchangeReader {
  import opened OrderedDicts
  import opened Texts
  import opened ExchangeLog
  import opened ExchangeRoundTrip

  /** The blank line and the rule that end an entry. */
  const FINISH := "\n\n---\n"

  /** The text between the two labels, and the text between the second one and the end of the entry:
      at each step the first occurrence counts. */
  function CutOut(text: string, first: string, second: string): Option<(string, string)> {
    match Find(text, first, 0)
    case None => None
    case Some(i) => CutSecond(text, i + |first|, second)
  }

  function CutSecond(text: string, from: nat, second: string): Option<(string, string)> {
    match Find(text, second, from)
    case None => None
    case Some(j) => CutEnd(text, from, j, j + |second|)
  }

  function CutEnd(text: string, from: nat, to: nat, next: nat): Option<(string, string)>
    requires from <= to <= next <= |text|
  {
    match Find(text, FINISH, next)
    case None => None
    case Some(k) => Some((text[from..to], text[next..k]))
  }

  /** A blank line and the start of the line after it. */
  predicate IsLabel(l: string) {
    |l| > 2 && l[0] == l[1] == '\n' && forall k :: 2 <= k < |l| ==> l[k] != '\n'
  }

  // ---- first occurrences ----

  lemma AtIn(s: string, x: string, rest: string, p: string, j: nat)
    requires s == x + rest && j + |p| <= |x|
    ensures At(s, p, j) <==> At(x, p, j)
  {
    assert s[..|x|] == x;
    AtSlice(s, p, 0, |x|, j);
  }

  lemma AtShift(p: string, s: string, l: string, j: nat)
    ensures At(p + s, l, |p| + j) <==> At(s, l, j)
  {
    if j + |l| <= |s| {
      assert (p + s)[|p| + j..|p| + j + |l|] == s[j..j + |l|];
    }
  }

  lemma FindShift(p: string, s: string, l: string)
    requires Find(s, l, 0).Some?
    ensures Find(p + s, l, |p|) == Some(|p| + Find(s, l, 0).value)
  {
    hide At;
    var i := Find(s, l, 0).value;
    AtShift(p, s, l, i);
    forall j: nat | |p| <= j < |p| + i ensures !At(p + s, l, j) {
      AtShift(p, s, l, j - |p|);
    }
    FindIs(p + s, l, |p|, |p| + i);
  }

  /** No label begins inside another. */
  lemma NoOverlap(s: string, l: string, j: nat, at: nat)
    requires IsLabel(l) && At(s, l, j) && At(s, l, at) && j < at
    ensures j + |l| <= at
  {
    if at < j + |l| {
      AtChar(s, l, at, 0);
      AtChar(s, l, j, at - j);
      AtChar(s, l, at, 1);
      if at == j + 1 {
        AtChar(s, l, j, 2);
      }
    }
  }

  lemma FirstLabel(x: string, l: string, rest: string)
    requires IsLabel(l)
    ensures Find(x + l + rest, l, 0).Some? && Find(x + l + rest, l, 0).value <= |x|
    ensures Find(x + l + rest, l, 0) == Some(|x|) <==> !Contains(x, l)
  {
    var s := x + l + rest;
    assert s == x + (l + rest);
    assert At(s, l, |x|);
    hide At, IsLabel;
    forall j: nat | j < |x| ensures At(s, l, j) <==> At(x, l, j) {
      if At(s, l, j) {
        NoOverlap(s, l, j, |x|);
        AtIn(s, x, l + rest, l, j);
      } else if At(x, l, j) {
        AtFits(x, l, j);
        AtIn(s, x, l + rest, l, j);
      }
    }
    if !Contains(x, l) {
      FindIs(s, l, 0, |x|);
    } else {
      var j: nat :| At(x, l, j);
      AtFits(x, l, j);
      LabelNotEmpty(l);
      assert j < |x|;
    }
  }

  lemma AtFits(s: string, p: string, j: nat)
    requires At(s, p, j)
    ensures j + |p| <= |s|
  {
  }

  lemma LabelNotEmpty(l: string)
    requires IsLabel(l)
    ensures |l| > 2
  {
  }

  lemma FinishChars(s: string, j: nat)
    requires At(s, FINISH, j)
    ensures j + 6 <= |s| && s[j] == s[j + 1] == '\n' && s[j + 2] == s[j + 3] == s[j + 4] == '-' && s[j + 5] == '\n'
  {
    AtChar(s, FINISH, j, 0);
    AtChar(s, FINISH, j, 1);
    AtChar(s, FINISH, j, 2);
    AtChar(s, FINISH, j, 3);
    AtChar(s, FINISH, j, 4);
    AtChar(s, FINISH, j, 5);
  }

  /** The end of an entry may begin inside another one by its last newline only. */
  lemma FinishOverlap(s: string, j: nat, at: nat)
    requires At(s, FINISH, j) && At(s, FINISH, at) && j < at
    ensures j + 5 <= at
  {
    FinishChars(s, j);
    FinishChars(s, at);
    hide At;
  }

  lemma FirstFinish(x: string, rest: string)
    ensures Find(x + FINISH + rest, FINISH, 0).Some? && Find(x + FINISH + rest, FINISH, 0).value <= |x|
    ensures Find(x + FINISH + rest, FINISH, 0) == Some(|x|) <==> !Contains(x + "\n", FINISH)
  {
    var s := x + FINISH + rest;
    var y, more := x + "\n", FINISH[1..] + rest;
    assert s == y + more;
    assert At(s, FINISH, |x|);
    hide At;
    forall j: nat | j < |x| ensures At(s, FINISH, j) <==> At(y, FINISH, j) {
      if At(s, FINISH, j) {
        FinishOverlap(s, j, |x|);
        AtIn(s, y, more, FINISH, j);
      } else if At(y, FINISH, j) {
        AtFits(y, FINISH, j);
        AtIn(s, y, more, FINISH, j);
      }
    }
    if !Contains(y, FINISH) {
      FindIs(s, FINISH, 0, |x|);
    } else {
      var j: nat :| At(y, FINISH, j);
      AtFits(y, FINISH, j);
      assert j < |x|;
    }
  }

  // ---- reading an entry ----

  lemma CutOutStarts(text: string, first: string, second: string)
    requires Find(text, first, 0).Some?
    ensures CutOut(text, first, second) == CutSecond(text, Find(text, first, 0).value + |first|, second)
  {
    hide Find, CutSecond, At;
  }

  lemma CutSecondIs(text: string, from: nat, second: string)
    requires Find(text, second, from).Some?
    ensures var j := Find(text, second, from).value;
      from <= j && j + |second| <= |text| && CutSecond(text, from, second) == CutEnd(text, from, j, j + |second|)
  {
    hide Find, CutEnd;
  }

  lemma CutEndIs(text: string, from: nat, to: nat, next: nat, k: nat)
    requires from <= to <= next <= |text| && Find(text, FINISH, next) == Some(k)
    ensures next <= k <= |text| && CutEnd(text, from, to, next) == Some((text[from..to], text[next..k]))
  {
    hide Find;
  }

  lemma CutEndFirst(text: string, from: nat, to: nat, next: nat)
    requires from <= to <= next <= |text|
    ensures var r := CutEnd(text, from, to, next); r.Some? ==> |r.value.0| == to - from
  {
    hide Find;
  }

  lemma SliceOf(front: string, x: string, rest: string, k: nat)
    requires k <= |x|
    ensures (front + (x + rest))[|front|..|front| + k] == x[..k]
  {
  }

  /** The reader gets both texts back exactly when the second label is not in the first text and the
      end of the entry is not in the second, the newline after it included. */
  lemma CutOutIff(line: string, first: string, a: string, second: string, b: string, after: string)
    requires IsLabel(first) && IsLabel(second) && '\n' !in line
    ensures CutOut(line + first + (a + second + (b + FINISH + after)), first, second) == Some((a, b))
      <==> !Contains(a, second) && !Contains(b + "\n", FINISH)
  {
    hide *;
    var tail := b + FINISH + after;
    var rest := a + second + tail;
    var head, text := line + first, line + first + rest;
    LineHoldsNoLabel(line, first);
    FirstLabel(line, first, rest);
    FirstLabel(a, second, tail);
    FindShift(head, rest, second);
    var j := Find(rest, second, 0).value;
    CutOutStarts(text, first, second);
    CutSecondIs(text, |head|, second);
    if j == |a| {
      var front := head + a + second;
      FirstFinish(b, after);
      FindShift(front, tail, FINISH);
      assert front + tail == text;
      var k := Find(tail, FINISH, 0).value;
      CutEndIs(text, |head|, |head| + |a|, |front|, |front| + k);
      SliceOf(head, a, second + tail, |a|);
      assert a + (second + tail) == rest && a[..|a|] == a;
      SliceOf(front, b, FINISH + after, k);
      assert b + (FINISH + after) == tail && (b[..k] == b <==> k == |b|);
    } else {
      CutEndFirst(text, |head|, |head| + j, |head| + j + |second|);
    }
  }

  lemma LineHoldsNoLabel(line: string, l: string)
    requires IsLabel(l) && '\n' !in line
    ensures !Contains(line, l)
  {
    forall j: nat ensures !At(line, l, j) {
      if j + |l| <= |line| {
        assert line[j] in line && line[j..j + |l|][0] == line[j];
      }
    }
  }

  // ---- the entries ----

  function HeadLine(h: Header): string {
    "## " + h.timestamp + " | task:" + h.task
      + (if h.intent == "" then "" else " | " + h.intent)
      + (if h.replyTo == "" then "" else " | reply_to:" + h.replyTo)
  }

  const ME := "\n\n**\U{2192} me:** "
  const ANSWER := "\n\n**\U{2192} reply:** "

  function Peer(name: string): string {
    "\n\n**\U{2190} " + name + ":** "
  }

  lemma Labels(name: string)
    requires '\n' !in name
    ensures IsLabel(ME) && IsLabel(ANSWER) && IsLabel(Peer(name))
  {
    var l := Peer(name);
    forall k | 2 <= k < |l| ensures l[k] != '\n' {
      if 6 <= k < 6 + |name| {
        assert l[k] == name[k - 6];
      }
    }
  }

  lemma LabelIs(name: string, text: string)
    ensures "\n\n" + Reply(name, text) == Peer(name) + text
    ensures "\n\n" + LABEL == ME && "\n\n" + "**\U{2192} reply:** " == ANSWER && "\n" + SEPARATOR == FINISH
  {
  }

  lemma InboundIs(h: Header, name: string, inbound: string, outbound: string)
    ensures InboundEntry(h, name, inbound, outbound) ==
      HeadLine(h) + ("\n\n" + Reply(name, inbound)) + ("\n\n" + "**\U{2192} reply:** ") + outbound + ("\n" + SEPARATOR)
  {
    HeadLineIs(h);
    hide HeadLine, Lead, Tail, Reply;
  }

  /** The parts of an inbound entry: its header line, what the peer sent, the reply to it. */
  lemma InboundParts(h: Header, name: string, inbound: string, outbound: string)
    ensures InboundEntry(h, name, inbound, outbound) ==
      HeadLine(h) + Peer(name) + (inbound + ANSWER + (outbound + FINISH))
  {
    hide *;
    InboundIs(h, name, inbound, outbound);
    LabelIs(name, inbound);
    Grouped(HeadLine(h), Peer(name), inbound, ANSWER, outbound, FINISH);
  }

  lemma Grouped(a: string, b: string, c: string, d: string, e: string, f: string)
    ensures a + (b + c) + d + e + f == a + b + (c + d + (e + f))
  {
  }

  lemma HeadLineIs(h: Header)
    ensures HeadLine(h) == Lead(h) + Tail(h)
  {
  }

  lemma OutboundIs(h: Header, name: string, outbound: string, reply: string)
    ensures Entry(h, name, outbound, reply) ==
      HeadLine(h) + ("\n\n" + LABEL + outbound) + ("\n\n" + Reply(name, reply)) + ("\n" + SEPARATOR)
  {
    HeadLineIs(h);
    OpeningIs(h, outbound);
    hide HeadLine, Lead, Tail, Reply, Opening;
  }

  lemma GroupedText(a: string, b: string, c: string, d: string, e: string, f: string)
    ensures a + (b + c) + (d + e) + f == a + b + (c + d + (e + f))
  {
  }

  /** The parts of an outbound entry: its header line, what was sent, the peer's reply. */
  lemma OutboundParts(h: Header, name: string, outbound: string, reply: string)
    ensures Entry(h, name, outbound, reply) == HeadLine(h) + ME + (outbound + Peer(name) + (reply + FINISH))
  {
    hide *;
    OutboundIs(h, name, outbound, reply);
    LabelIs(name, reply);
    GroupedText(HeadLine(h), ME, outbound, Peer(name), reply, FINISH);
  }

  /** Reading an inbound entry back, whatever follows it: provided its header is one line, the
      reader gets what the peer sent and what was replied, in that order, if and only if the first
      text does not hold the reply's label and the second does not hold the end of an entry. */
  lemma InboundReadsBackIff(h: Header, name: string, inbound: string, outbound: string, after: string)
    requires '\n' !in HeadLine(h) && '\n' !in name
    ensures var line := HeadLine(h); var text := InboundEntry(h, name, inbound, outbound) + after;
      && line <= text
      && (CutOut(text, "\n\n**\U{2190} " + name + ":** ", "\n\n**\U{2192} reply:** ") == Some((inbound, outbound))
          <==> !Contains(inbound, "\n\n**\U{2192} reply:** ") && !Contains(outbound + "\n", "\n\n---\n"))
  {
    InboundParts(h, name, inbound, outbound);
    Labels(name);
    assert Peer(name) == "\n\n**\U{2190} " + name + ":** ";
    hide HeadLine, Peer, InboundEntry, Contains, CutOut, IsLabel;
    CutOutIff(HeadLine(h), Peer(name), inbound, ANSWER, outbound, after);
    Appended(HeadLine(h), Peer(name), inbound + ANSWER, outbound, FINISH, after);
  }

  lemma Appended(a: string, b: string, c: string, d: string, e: string, after: string)
    ensures a + b + (c + (d + e)) + after == a + b + (c + (d + e + after))
    ensures a <= a + b + (c + (d + e + after))
  {
  }

  /** The same of an outbound entry: what was sent, and the peer's reply, or the placeholder. */
  lemma OutboundReadsBackIff(h: Header, name: string, outbound: string, reply: string, after: string)
    requires '\n' !in HeadLine(h) && '\n' !in name
    ensures var line := HeadLine(h); var text := Entry(h, name, outbound, reply) + after;
      && line <= text
      && (CutOut(text, "\n\n**\U{2192} me:** ", "\n\n**\U{2190} " + name + ":** ") == Some((outbound, reply))
          <==> !Contains(outbound, "\n\n**\U{2190} " + name + ":** ") && !Contains(reply + "\n", "\n\n---\n"))
  {
    OutboundParts(h, name, outbound, reply);
    Labels(name);
    assert Peer(name) == "\n\n**\U{2190} " + name + ":** ";
    hide HeadLine, Peer, Entry, Contains, CutOut, IsLabel;
    CutOutIff(HeadLine(h), ME, outbound, Peer(name), reply, after);
    Appended(HeadLine(h), ME, outbound + Peer(name), reply, FINISH, after);
  }

  /** And of the file: after `save_exchange`, and whatever is written behind it later, the entry is
      found behind the text of the file before, and reads as it was saved. */
  lemma SavedThenRead(file: string, entry: string, more: string)
    requires '\r' !in entry
    ensures var text := Translated(Saved(file, entry) + more);
      && |Translated(file)| <= |text|
      && text[|Translated(file)|..] == entry + Translated(more)
  {
    var start := Translated(file);
    PlainFirst(start + entry, more);
    hide Translated;
    assert (start + entry + Translated(more))[|start|..] == entry + Translated(more);
  }
}
