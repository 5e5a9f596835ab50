/** What `update_exchange` does when the first mention of its task is an inbound entry, which has no
    reply to wait for. */
module ExchangeInbound {
  import opened OrderedDicts
  import opened Texts
  import opened ExchangeLog
  import opened ExchangeRoundTrip
  import opened ExchangeReader

  /** Nothing before position `at` mentions the task. */
  ghost predicate NotMentionedBefore(text: string, task: string, at: nat) {
    forall i: nat :: i < at ==> !At(text, Marker(task), i)
  }

  // ---- where the entry is ----

  lemma HeadLead(h: Header)
    ensures |Lead(h)| <= |HeadLine(h)| && HeadLine(h)[..|Lead(h)|] == Lead(h)
    ensures At(HeadLine(h), Marker(h.task), |Lead(h)|)
  {
    HeadLineIs(h);
    var lead, m := Lead(h), Marker(h.task);
    assert Tail(h)[..|m|] == m;
    hide Lead, Marker;
    assert HeadLine(h)[|lead|..|lead| + |m|] == Tail(h)[..|m|];
  }

  /** The header of an entry behind `before` is found from its marker. */
  lemma EntryFound(before: string, entry: string, after: string, h: Header)
    requires HeadLine(h) <= entry && PlainStamp(h)
    requires NotMentionedBefore(before + entry + after, h.task, |before| + |Lead(h)|)
    ensures Find(before + entry + after, Marker(h.task), 0) == Some(|before| + |Lead(h)|)
    ensures RFind(before + entry + after, "## ", |before| + |Lead(h)|) == Some(|before|)
  {
    hide *;
    HeadLead(h);
    var text, line, n := before + entry + after, HeadLine(h), |Lead(h)|;
    InEntry(before, entry, after, line, Marker(h.task), n);
    MarkedFirst(text, h.task, |before| + n);
    HeadingBefore(before, entry, after, h, line, n);
  }

  lemma HeadingBefore(before: string, entry: string, after: string, h: Header, line: string, n: nat)
    requires line <= entry && PlainStamp(h) && n == |Lead(h)| <= |line| && line[..n] == Lead(h)
    ensures RFind(before + entry + after, "## ", |before| + n) == Some(|before|)
  {
    hide *;
    PlainStampIs(h);
    LeadChars(h);
    Prefixes(before, entry, after, line, n);
    HeadingFrom(before + entry + after, Lead(h), |before|, |before| + n);
  }

  lemma Prefixes(before: string, entry: string, after: string, line: string, n: nat)
    requires line <= entry && n <= |line|
    ensures var text := before + entry + after;
      |before| + n <= |text| && text[|before|..|before| + n] == line[..n]
  {
    assert entry[..n] == line[..n];
  }

  lemma InEntry(before: string, entry: string, after: string, line: string, p: string, i: nat)
    requires line <= entry && At(line, p, i)
    ensures At(before + entry + after, p, |before| + i)
  {
    var text := before + entry + after;
    assert entry[i..i + |p|] == line[i..i + |p|];
    assert text[|before| + i..|before| + i + |p|] == entry[i..i + |p|];
  }

  lemma MarkedFirst(text: string, task: string, start: nat)
    requires NotMentionedBefore(text, task, start) && At(text, Marker(task), start)
    ensures Find(text, Marker(task), 0) == Some(start)
  {
    hide At, Marker;
    FindIs(text, Marker(task), 0, start);
  }

  /** The entry ends with the first separator in it after the marker. */
  lemma EndFound(before: string, entry: string, after: string, from: nat)
    requires |entry| >= from + 5 && At(entry, SEPARATOR, |entry| - 5)
    ensures Find(entry, SEPARATOR, from).Some? && Find(entry, SEPARATOR, from).value + 5 <= |entry|
    ensures Find(before + entry + after, SEPARATOR, |before| + from) ==
      Some(|before| + Find(entry, SEPARATOR, from).value)
  {
    hide At;
    var end := Find(entry, SEPARATOR, from).value;
    var s := before + (entry + after);
    assert before + entry + after == s;
    forall j: nat | j + 5 <= |entry| ensures At(s, SEPARATOR, |before| + j) <==> At(entry, SEPARATOR, j) {
      AtShift(before, entry + after, SEPARATOR, j);
      AtIn(entry + after, entry, after, SEPARATOR, j);
    }
    AtFits(entry, SEPARATOR, end);
    forall j: nat | |before| + from <= j < |before| + end ensures !At(s, SEPARATOR, j) {
      assert !At(entry, SEPARATOR, j - |before|);
    }
    FindIs(s, SEPARATOR, |before| + from, |before| + end);
  }

  // ---- what is replaced ----

  /** Replacing the first `p` changes nothing exactly when there is none, or it is replaced by itself. */
  lemma ReplaceSame(s: string, p: string, r: string)
    ensures ReplaceFirst(s, p, r) == s <==> !Contains(s, p) || r == p
  {
    var found := Find(s, p, 0);
    if found.Some? {
      var i := found.value;
      ReplaceIs(s, p, r, i);
      assert s[i..i + |p|] == p;
      hide Find, ReplaceFirst;
      var t := s[..i] + r + s[i + |p|..];
      assert s == s[..i] + s[i..i + |p|] + s[i + |p|..];
      if t == s {
        assert |t| == i + |r| + (|s| - i - |p|);
        assert t[i..i + |r|] == r;
      }
    } else {
      hide At;
    }
  }

  lemma SameReply(name: string, reply: string)
    ensures Reply(name, reply) == Placeholder(name) <==> reply == WAITING
  {
    var head := "**\U{2190} " + name + ":** ";
    assert Reply(name, reply)[|head|..] == reply && Reply(name, WAITING)[|head|..] == WAITING;
  }

  lemma RewrittenIff(text: string, name: string, task: string, reply: string, from: nat, to: nat)
    requires Locate(text, task) == Some((from, to))
    ensures from <= to <= |text|
    ensures Rewritten(text, name, task, reply).0 <==> reply != WAITING && Contains(text[from..to], Placeholder(name))
  {
    ReplaceSame(text[from..to], Placeholder(name), Reply(name, reply));
    SameReply(name, reply);
    hide Locate, Placeholder, Reply, ReplaceFirst, Contains;
  }

  lemma EntryEnd(h: Header, name: string, inbound: string, outbound: string)
    ensures var entry := InboundEntry(h, name, inbound, outbound);
      && HeadLine(h) <= entry
      && |entry| >= |Lead(h)| + 5 && At(entry, SEPARATOR, |entry| - 5)
  {
    InboundParts(h, name, inbound, outbound);
    HeadLead(h);
    var entry, front := InboundEntry(h, name, inbound, outbound), HeadLine(h) + Peer(name) + (inbound + ANSWER);
    hide HeadLine, Peer, InboundEntry, Lead;
    assert entry == front + outbound + "\n" + SEPARATOR by {
      assert FINISH == "\n" + SEPARATOR;
    }
    assert entry[|entry| - 5..] == SEPARATOR;
  }

  /** Whatever the file holds otherwise: if the first mention of the task, as the file is read, is
      the header of an inbound entry, an update changes the file if and only if the reply is not the
      placeholder's own text and the entry, up to the first separator in it, holds the placeholder. */
  lemma InboundUpdatedIff(file: string, before: string, h: Header, name: string, inbound: string, outbound: string,
                          after: string, reply: string)
    requires Translated(file) == before + InboundEntry(h, name, inbound, outbound) + after && PlainStamp(h)
    requires NotMentionedBefore(Translated(file), h.task, |before| + |Lead(h)|)
    ensures var entry := InboundEntry(h, name, inbound, outbound);
      var end, r := Find(entry, SEPARATOR, |Lead(h)|), Updated(file, name, h.task, reply);
      && end.Some? && end.value + 5 <= |entry|
      && (r.0 <==> reply != WAITING && Contains(entry[..end.value + 5], Placeholder(name)))
      && (!r.0 ==> r.1 == file)
  {
    hide *;
    var entry := InboundEntry(h, name, inbound, outbound);
    var text := before + entry + after;
    EntryEnd(h, name, inbound, outbound);
    EntryFound(before, entry, after, h);
    EndFound(before, entry, after, |Lead(h)|);
    var to := |before| + Find(entry, SEPARATOR, |Lead(h)|).value + 5;
    LocateIs(text, h.task, |before| + |Lead(h)|, |before|);
    RewrittenIff(text, name, h.task, reply, |before|, to);
    InsideEntry(before, entry, after, to - |before|);
    UpdatedFlag(file, name, h.task, reply);
  }

  lemma InsideEntry(before: string, entry: string, after: string, n: nat)
    requires n <= |entry|
    ensures |before| + n <= |before + entry + after|
    ensures (before + entry + after)[|before|..|before| + n] == entry[..n]
  {
  }

  lemma UpdatedFlag(file: string, name: string, task: string, reply: string)
    ensures var r := Updated(file, name, task, reply);
      && (r.0 <==> Rewritten(Translated(file), name, task, reply).0)
      && (!r.0 ==> r.1 == file)
  {
    hide Rewritten, Translated;
  }

  // ---- in terms of the texts ----

  /** A text without a newline lies on one side of a blank line. */
  lemma SplitAtBreak(x: string, y: string, p: string)
    requires '\n' !in p && |p| > 1
    ensures Contains(x + "\n\n" + y, p) <==> Contains(x, p) || Contains(y, p)
  {
    var s := x + "\n\n" + y;
    assert s == x + ("\n\n" + y) && s == (x + "\n\n") + y;
    hide At;
    if Contains(s, p) {
      var i: nat :| At(s, p, i);
      AtFits(s, p, i);
      if i <= |x| + 1 {
        EndsBefore(s, p, i, if i <= |x| then |x| else |x| + 1);
        AtIn(s, x, "\n\n" + y, p, i);
      } else {
        AtShift(x + "\n\n", y, p, i - |x| - 2);
        assert At(y, p, i - |x| - 2);
      }
    }
    if Contains(x, p) {
      var i: nat :| At(x, p, i);
      AtFits(x, p, i);
      AtIn(s, x, "\n\n" + y, p, i);
    }
    if Contains(y, p) {
      var i: nat :| At(y, p, i);
      AtShift(x + "\n\n", y, p, i);
    }
  }

  lemma PrefixContains(s: string, n: nat, p: string)
    requires n <= |s| && Contains(s[..n], p)
    ensures Contains(s, p)
  {
    var i: nat :| At(s[..n], p, i);
    AtIn(s, s[..n], s[n..], p, i);
    assert s == s[..n] + s[n..];
  }

  /** The placeholder in an inbound entry: in its header line, in what the peer sent (a text that
      reads as the placeholder's does), or in the reply. */
  lemma InboundHolds(h: Header, name: string, inbound: string, outbound: string)
    requires SafeName(name)
    ensures var p := Placeholder(name);
      Contains(InboundEntry(h, name, inbound, outbound), p) <==>
        || Contains(HeadLine(h), p) || Contains(Reply(name, inbound), p)
        || Contains("**\U{2192} reply:** " + outbound, p)
  {
    hide *;
    var p, line, sent, answer := Placeholder(name), HeadLine(h), Reply(name, inbound), "**\U{2192} reply:** " + outbound;
    PlaceholderChars(name);
    InboundLines(h, name, inbound, outbound);
    SplitAtBreak(line + "\n\n" + sent + "\n\n" + answer, "---\n", p);
    SplitAtBreak(line + "\n\n" + sent, answer, p);
    SplitAtBreak(line, sent, p);
    RuleHoldsNone(p);
  }

  lemma InboundLines(h: Header, name: string, inbound: string, outbound: string)
    ensures InboundEntry(h, name, inbound, outbound) ==
      HeadLine(h) + "\n\n" + Reply(name, inbound) + "\n\n" + ("**\U{2192} reply:** " + outbound) + "\n\n" + "---\n"
  {
    InboundIs(h, name, inbound, outbound);
    hide HeadLine, Reply, InboundEntry;
    assert "\n" + SEPARATOR == "\n\n" + "---\n";
  }

  lemma RuleHoldsNone(p: string)
    requires |p| > 0 && p[0] == '*'
    ensures !Contains("---\n", p)
  {
    forall i: nat ensures !At("---\n", p, i) {
      if i + |p| <= 4 {
        assert "---\n"[i..i + |p|][0] == "---\n"[i];
      }
    }
  }

  /** So an inbound entry is left alone, with the whole file, whatever the reply, if none of its
      lines holds the placeholder. */
  lemma InboundLeftAlone(file: string, before: string, h: Header, name: string, inbound: string, outbound: string,
                         after: string, reply: string)
    requires Translated(file) == before + InboundEntry(h, name, inbound, outbound) + after
    requires PlainStamp(h) && SafeName(name)
    requires NotMentionedBefore(Translated(file), h.task, |before| + |Lead(h)|)
    requires var p := Placeholder(name);
      && !Contains(HeadLine(h), p) && !Contains(Reply(name, inbound), p)
      && !Contains("**\U{2192} reply:** " + outbound, p)
    ensures Updated(file, name, h.task, reply) == (false, file)
  {
    hide *;
    InboundUpdatedIff(file, before, h, name, inbound, outbound, after, reply);
    InboundHolds(h, name, inbound, outbound);
    var entry := InboundEntry(h, name, inbound, outbound);
    var n := Find(entry, SEPARATOR, |Lead(h)|).value + 5;
    if Contains(entry[..n], Placeholder(name)) {
      PrefixContains(entry, n, Placeholder(name));
    }
  }
}
