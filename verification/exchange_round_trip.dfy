/** When filling in a reply gives exactly the file with the reply in its entry. */
module ExchangeRoundTrip {
  import opened OrderedDicts
  import opened Texts
  import opened ExchangeLog

  /** A sanitised name holds letters, digits, spaces and "-_.@" only. */
  predicate SafeName(name: string) {
    '\n' !in name && '\r' !in name
  }

  /** A time of day holds no heading mark. */
  predicate PlainStamp(h: Header) {
    '#' !in h.timestamp
  }

  /** The header line names the placeholder nowhere and no separator starts in it. */
  ghost predicate CleanHeader(h: Header, name: string) {
    && !Contains(Tail(h) + "\n", SEPARATOR)
    && !Contains(Lead(h) + Tail(h), Placeholder(name))
  }

  /** The outbound text holds no placeholder, and no separator, not even one completed by the
      newline that follows the text. */
  ghost predicate CleanText(name: string, outbound: string) {
    !Contains(outbound + "\n", SEPARATOR) && !Contains(outbound, Placeholder(name))
  }

  /** Nothing before the reply of the entry is mistaken for its end or for its placeholder. */
  ghost predicate CleanEntry(h: Header, name: string, outbound: string) {
    CleanHeader(h, name) && CleanText(name, outbound)
  }

  ghost predicate MarkerFirst(content: string, l: Layout, task: string) {
    forall i: nat :: i < l.start ==> !At(content, Marker(task), i)
  }

  // ---- the three searches ----

  lemma MarkerFound(content: string, l: Layout, h: Header, name: string, outbound: string)
    requires Laid(content, l, h, name, outbound) && MarkerFirst(content, l, h.task)
    ensures Find(content, Marker(h.task), 0) == Some(l.start)
  {
    var m := Marker(h.task);
    assert Tail(h)[..|m|] == m;
    assert At(Tail(h), m, 0);
    hide Lead, Placeholder, Marker;
    AtSlice(content, m, l.start, l.headEnd, l.start);
    FindIs(content, m, 0, l.start);
  }

  lemma LeadChars(h: Header)
    requires '#' !in h.timestamp
    ensures At(Lead(h), "## ", 0) && |Lead(h)| >= 3 && forall k :: 2 <= k < |Lead(h)| ==> Lead(h)[k] != '#'
  {
    assert Lead(h)[..3] == "## ";
  }

  lemma LeadThere(s: string, lead: string, from: nat, start: nat)
    requires from <= start <= |s| && s[from..start] == lead
    requires At(lead, "## ", 0) && forall k :: 2 <= k < |lead| ==> lead[k] != '#'
    ensures At(s, "## ", from) && forall k :: from + 2 <= k < start ==> s[k] != '#'
  {
    AtSlice(s, "## ", from, start, from);
    hide At;
    assert forall k :: from <= k < start ==> s[k] == s[from..start][k - from];
  }

  lemma LeadAt(content: string, l: Layout, h: Header, name: string, outbound: string)
    requires Laid(content, l, h, name, outbound)
    ensures l.start == l.from + |Lead(h)| && l.start <= |content| && content[l.from..l.start] == Lead(h)
  {
  }

  lemma HeadingFrom(text: string, lead: string, from: nat, start: nat)
    requires from <= start <= |text| && text[from..start] == lead && |lead| >= 3
    requires At(lead, "## ", 0) && forall k :: 2 <= k < |lead| ==> lead[k] != '#'
    ensures RFind(text, "## ", start) == Some(from)
  {
    hide *;
    LeadThere(text, lead, from, start);
    forall j: nat | from < j && j + 3 <= start ensures !At(text, "## ", j) {
      if At(text, "## ", j) {
        AtChar(text, "## ", j, 1);
      }
    }
    RFindIs(text, "## ", start, from);
  }

  lemma HeadingFound(content: string, l: Layout, h: Header, name: string, outbound: string)
    requires Laid(content, l, h, name, outbound) && '#' !in h.timestamp
    ensures RFind(content, "## ", l.start) == Some(l.from)
  {
    hide *;
    LeadAt(content, l, h, name, outbound);
    LeadChars(h);
    HeadingFrom(content, Lead(h), l.from, l.start);
  }

  lemma SeparatorChars(s: string, i: nat)
    requires At(s, SEPARATOR, i)
    ensures i + 5 <= |s| && s[i] == '\n' && s[i + 1] == s[i + 2] == s[i + 3] == '-' && s[i + 4] == '\n'
  {
    AtChar(s, SEPARATOR, i, 0);
    AtChar(s, SEPARATOR, i, 1);
    AtChar(s, SEPARATOR, i, 2);
    AtChar(s, SEPARATOR, i, 3);
    AtChar(s, SEPARATOR, i, 4);
  }

  /** No separator runs into a blank line that is followed by something else than a rule. */
  lemma BlankLineStops(s: string, k: nat, i: nat)
    requires k + 2 < |s| && s[k] == s[k + 1] == '\n' && s[k + 2] != '-'
    requires At(s, SEPARATOR, i) && i <= k + 1
    ensures i + 5 <= k + 1
  {
    SeparatorChars(s, i);
    hide At;
    if k == i + 1 {
    } else if k == i + 2 {
    } else if k == i + 3 {
    }
  }

  /** A separator that starts in a clean line, or at the break after it, does not exist. */
  lemma CleanSlice(s: string, lo: nat, hi: nat, x: string, i: nat)
    requires lo <= i && i + 5 <= hi + 1 <= |s| && s[lo..hi] == x && s[hi] == '\n'
    requires !Contains(x + "\n", SEPARATOR)
    ensures !At(s, SEPARATOR, i)
  {
    assert s[lo..hi + 1] == x + "\n";
    AtSlice(s, SEPARATOR, lo, hi + 1, i);
  }

  lemma PlaceholderChars(name: string)
    requires SafeName(name)
    ensures '\n' !in Placeholder(name)
    ensures |Placeholder(name)| > 3 && Placeholder(name)[0] == Placeholder(name)[1] == '*'
    ensures Placeholder(name)[2] == '\U{2190}' && Placeholder(name)[|Placeholder(name)| - 1] == ')'
  {
  }

  lemma LabelChars()
    ensures |LABEL| == 10 && '\n' !in LABEL
    ensures forall j :: 0 <= j < 10 ==> (LABEL[j] == '*' <==> j in {0, 1, 7, 8})
    ensures LABEL[2] != '\U{2190}' && LABEL[9] != '\U{2190}'
  {
  }

  /** No separator starts in a clean line or in the blank line after it. */
  lemma NoSeparatorInLine(s: string, lo: nat, hi: nat, x: string, i: nat)
    requires hi + 2 < |s| && s[hi] == s[hi + 1] == '\n' && s[hi + 2] != '-'
    requires lo <= hi && lo <= i <= hi + 1 && s[lo..hi] == x && !Contains(x + "\n", SEPARATOR)
    ensures !At(s, SEPARATOR, i)
  {
    hide *;
    if At(s, SEPARATOR, i) {
      BlankLineStops(s, hi, i);
      CleanSlice(s, lo, hi, x, i);
    }
  }

  lemma NoSeparatorInside(content: string, l: Layout, h: Header, name: string, outbound: string, i: nat)
    requires Laid(content, l, h, name, outbound) && SafeName(name)
    requires !Contains(Tail(h) + "\n", SEPARATOR) && !Contains(outbound + "\n", SEPARATOR)
    requires l.start <= i <= l.waitEnd
    ensures !At(content, SEPARATOR, i)
  {
    hide *;
    LaidChars(content, l, h, name, outbound);
    LaidParts(content, l, h, name, outbound);
    if i <= l.headEnd + 1 {
      NoSeparatorInLine(content, l.start, l.headEnd, Tail(h), i);
    } else if l.text <= i <= l.textEnd + 1 {
      NoSeparatorInLine(content, l.text, l.textEnd, outbound, i);
    } else if At(content, SEPARATOR, i) {
      SeparatorChars(content, i);
    }
  }

  /** The newlines of the entry after its header line and outside its text. */
  lemma LaidChars(content: string, l: Layout, h: Header, name: string, outbound: string)
    requires Laid(content, l, h, name, outbound) && SafeName(name)
    ensures content[l.headEnd + 2] == '*' && content[l.wait] == '*' && content[l.waitEnd + 1] == '\n'
    ensures forall k :: l.headEnd + 2 <= k < l.text || l.wait <= k < l.waitEnd ==> content[k] != '\n'
  {
    PlaceholderChars(name);
    LabelChars();
    var a, b := content[l.headEnd + 2..l.text], content[l.wait..l.waitEnd];
    hide Tail, Lead, Placeholder;
    forall k | l.headEnd + 2 <= k < l.text ensures content[k] != '\n' {
      assert content[k] == a[k - (l.headEnd + 2)];
    }
    forall k | l.wait <= k < l.waitEnd ensures content[k] != '\n' {
      assert content[k] == b[k - l.wait];
    }
    assert content[l.headEnd + 2] == a[0] && content[l.wait] == b[0];
    assert content[l.waitEnd + 1] == content[l.waitEnd + 1..l.to][0];
  }

  lemma SeparatorFound(content: string, l: Layout, h: Header, name: string, outbound: string)
    requires Laid(content, l, h, name, outbound) && SafeName(name)
    requires !Contains(Tail(h) + "\n", SEPARATOR) && !Contains(outbound + "\n", SEPARATOR)
    ensures Find(content, SEPARATOR, l.start) == Some(l.waitEnd + 1)
  {
    forall i: nat | l.start <= i < l.waitEnd + 1 ensures !At(content, SEPARATOR, i) {
      NoSeparatorInside(content, l, h, name, outbound, i);
    }
    FindIs(content, SEPARATOR, l.start, l.waitEnd + 1);
  }

  // ---- the replacement ----

  lemma Spliced(s: string, from: nat, to: nat, i: nat, n: nat, r: string)
    requires from <= i && i + n <= to <= |s|
    ensures var block := s[from..to];
      s[..from] + (block[..i - from] + r + block[i - from + n..]) + s[to..] == s[..i] + r + s[i + n..]
    ensures s[..from] + s[from..to] + s[to..] == s
  {
    var block := s[from..to];
    assert block[..i - from] == s[from..i] && block[i - from + n..] == s[i + n..to];
    assert s[..i] == s[..from] + s[from..i] && s[i + n..] == s[i + n..to] + s[to..];
  }

  lemma UpdatedIs(content: string, name: string, task: string, reply: string, from: nat, to: nat)
    requires Locate(content, task) == Some((from, to))
    ensures from <= to <= |content|
    ensures var filled := ReplaceFirst(content[from..to], Placeholder(name), Reply(name, reply));
      Rewritten(content, name, task, reply).1 ==
        if filled == content[from..to] then content else content[..from] + filled + content[to..]
  {
  }

  lemma ReplaceIs(s: string, p: string, r: string, k: nat)
    requires Find(s, p, 0) == Some(k)
    ensures k + |p| <= |s| && ReplaceFirst(s, p, r) == s[..k] + r + s[k + |p|..]
  {
    Fits(s, p, k);
    hide Find, At;
  }

  /** Replacing the first placeholder of the located entry, at `i`. */
  lemma UpdatedAt(content: string, name: string, task: string, reply: string, from: nat, to: nat, i: nat)
    requires Locate(content, task) == Some((from, to))
    requires from <= i && i + |Placeholder(name)| <= to && At(content, Placeholder(name), i)
    requires forall j: nat :: from <= j < i ==> !At(content, Placeholder(name), j)
    ensures i + |Placeholder(name)| <= |content|
    ensures Rewritten(content, name, task, reply).1
      == content[..i] + Reply(name, reply) + content[i + |Placeholder(name)|..]
  {
    hide *;
    UpdatedIs(content, name, task, reply, from, to);
    var p := Placeholder(name);
    var block := content[from..to];
    AtSlice(content, p, from, to, i);
    forall j: nat | j < i - from ensures !At(block, p, j) {
      AtSlice(content, p, from, to, from + j);
    }
    FindIs(block, p, 0, i - from);
    ReplaceIs(block, p, Reply(name, reply), i - from);
    Spliced(content, from, to, i, |p|, Reply(name, reply));
  }

  /** A placeholder in the entry before the real one sits in the header line or in the text. */
  /** A match of a text without a newline ends before the newline that follows it. */
  lemma EndsBefore(s: string, p: string, i: nat, newline: nat)
    requires '\n' !in p && p != [] && i <= newline < |s| && s[newline] == '\n' && At(s, p, i)
    ensures i + |p| <= newline
  {
    NoBreakIn(s, p, i);
    hide At;
  }

  lemma HeadText(content: string, l: Layout, h: Header, outbound: string)
    requires OpeningAt(content, l, h, outbound)
    ensures l.from <= l.headEnd <= |content| && content[l.from..l.headEnd] == Lead(h) + Tail(h)
  {
    hide Lead, Tail;
    assert content[l.from..l.headEnd] == content[l.from..l.start] + content[l.start..l.headEnd];
  }

  lemma NoPlaceholderInside(content: string, l: Layout, h: Header, name: string, outbound: string, i: nat)
    requires Laid(content, l, h, name, outbound) && SafeName(name)
    requires !Contains(Lead(h) + Tail(h), Placeholder(name)) && !Contains(outbound, Placeholder(name))
    requires l.from <= i < l.wait
    ensures !At(content, Placeholder(name), i)
  {
    hide *;
    var p := Placeholder(name);
    PlaceholderChars(name);
    LaidParts(content, l, h, name, outbound);
    HeadText(content, l, h, outbound);
    if i <= l.headEnd + 1 {
      NotInLine(content, p, l.from, l.headEnd, Lead(h) + Tail(h), i);
    } else if i < l.text {
      LabelChars();
      PlaceholderNotInLabel(content, p, l.headEnd + 2, i);
    } else {
      NotInLine(content, p, l.text, l.textEnd, outbound, i);
    }
  }

  lemma LaidParts(content: string, l: Layout, h: Header, name: string, outbound: string)
    requires Laid(content, l, h, name, outbound)
    ensures OpeningAt(content, l, h, outbound)
    ensures l.from <= l.start <= l.headEnd && content[l.start..l.headEnd] == Tail(h)
    ensures l.headEnd + 2 + |LABEL| == l.text <= l.textEnd && l.textEnd + 2 == l.wait <= l.waitEnd
    ensures l.waitEnd + 1 + |SEPARATOR| == l.to <= |content|
    ensures content[l.headEnd] == content[l.headEnd + 1] == '\n' && content[l.headEnd + 2..l.text] == LABEL
    ensures content[l.text..l.textEnd] == outbound && content[l.textEnd] == content[l.textEnd + 1] == '\n'
  {
    hide Lead, Tail, Placeholder;
  }

  lemma NotInLine(s: string, p: string, from: nat, end: nat, line: string, i: nat)
    requires from <= end && end + 1 < |s| && s[from..end] == line && s[end] == s[end + 1] == '\n'
    requires '\n' !in p && |p| > 1 && !Contains(line, p) && from <= i <= end + 1
    ensures !At(s, p, i)
  {
    hide At;
    if At(s, p, i) {
      EndsBefore(s, p, i, if i <= end then end else end + 1);
      AtSlice(s, p, from, end, i);
    }
  }

  lemma NoBreakIn(s: string, p: string, i: nat)
    requires At(s, p, i) && '\n' !in p
    ensures forall k :: i <= k < i + |p| ==> s[k] != '\n'
  {
    forall k | i <= k < i + |p| ensures s[k] != '\n' {
      AtChar(s, p, i, k - i);
    }
  }

  lemma PlaceholderNotInLabel(s: string, p: string, at: nat, i: nat)
    requires at <= i < at + |LABEL| <= |s| && s[at..at + |LABEL|] == LABEL
    requires |p| > 3 && p[0] == p[1] == '*' && p[2] == '\U{2190}'
    ensures !At(s, p, i)
  {
    LabelChars();
    var piece := s[at..at + |LABEL|];
    assert forall k :: at <= k < at + |LABEL| ==> s[k] == piece[k - at];
    if At(s, p, i) {
      AtThree(s, p, i);
    }
  }

  lemma AtThree(s: string, p: string, i: nat)
    requires At(s, p, i) && |p| >= 3
    ensures i + 3 <= |s| && s[i] == p[0] && s[i + 1] == p[1] && s[i + 2] == p[2]
  {
    AtChar(s, p, i, 0);
    AtChar(s, p, i, 1);
    AtChar(s, p, i, 2);
  }

  lemma LocateIs(content: string, task: string, start: nat, from: nat)
    requires Find(content, Marker(task), 0) == Some(start) && RFind(content, "## ", start) == Some(from)
    ensures Locate(content, task) == Some((from,
      match Find(content, SEPARATOR, start) case None => |content| case Some(end) => end + 5))
  {
  }

  lemma PlaceholderThere(content: string, l: Layout, h: Header, name: string, outbound: string)
    requires Laid(content, l, h, name, outbound)
    ensures l.from <= l.text <= l.textEnd && l.textEnd + 2 == l.wait
    ensures l.wait + |Placeholder(name)| == l.waitEnd && l.waitEnd + 6 == l.to <= |content|
    ensures At(content, Placeholder(name), l.wait)
    ensures SafeName(name) ==> |Placeholder(name)| > 0 && content[l.waitEnd - 1] == ')'
  {
    if SafeName(name) {
      PlaceholderChars(name);
    }
    hide Placeholder, Lead, Tail;
    var p := content[l.wait..l.waitEnd];
    assert p == Placeholder(name);
    assert |p| > 0 ==> content[l.waitEnd - 1] == p[|p| - 1];
  }

  lemma CleanHeaderIs(h: Header, name: string)
    requires CleanHeader(h, name)
    ensures !Contains(Tail(h) + "\n", SEPARATOR)
    ensures !Contains(Lead(h) + Tail(h), Placeholder(name))
  {
  }

  lemma PlainStampIs(h: Header)
    requires PlainStamp(h)
    ensures '#' !in h.timestamp
  {
  }

  lemma CleanEntryIs(h: Header, name: string, outbound: string)
    ensures CleanEntry(h, name, outbound) <==> CleanHeader(h, name) && CleanText(name, outbound)
  {
  }

  lemma CleanTextIs(name: string, outbound: string)
    ensures CleanText(name, outbound)
      <==> !Contains(outbound + "\n", SEPARATOR) && !Contains(outbound, Placeholder(name))
  {
  }

  /** With clean header and text, any reply lands in its entry. */
  lemma CleanRoundTrip(content: string, l: Layout, h: Header, name: string, outbound: string, reply: string)
    requires Laid(content, l, h, name, outbound) && MarkerFirst(content, l, h.task)
    requires SafeName(name) && PlainStamp(h) && CleanEntry(h, name, outbound)
    ensures l.wait <= l.waitEnd <= |content|
    ensures Rewritten(content, name, h.task, reply).1 == content[..l.wait] + Reply(name, reply) + content[l.waitEnd..]
  {
    hide *;
    PlaceholderThere(content, l, h, name, outbound);
    CleanEntryIs(h, name, outbound);
    CleanHeaderIs(h, name);
    CleanTextIs(name, outbound);
    PlainStampIs(h);
    MarkerFound(content, l, h, name, outbound);
    HeadingFound(content, l, h, name, outbound);
    SeparatorFound(content, l, h, name, outbound);
    LocateIs(content, h.task, l.start, l.from);
    forall j: nat | l.from <= j < l.wait ensures !At(content, Placeholder(name), j) {
      NoPlaceholderInside(content, l, h, name, outbound, j);
    }
    UpdatedAt(content, name, h.task, reply, l.from, l.to, l.wait);
  }

  lemma HeaderLineThere(content: string, l: Layout, h: Header, name: string, outbound: string)
    requires Laid(content, l, h, name, outbound)
    ensures l.from <= l.start <= l.headEnd <= l.text <= l.textEnd < |content|
    ensures content[l.from..l.headEnd] == Lead(h) + Tail(h)
    ensures content[l.start..l.headEnd + 1] == Tail(h) + "\n" && content[l.text..l.textEnd + 1] == outbound + "\n"
    ensures content[l.text..l.textEnd] == outbound
  {
    hide Lead, Tail, Placeholder;
    assert content[l.from..l.headEnd] == content[l.from..l.start] + content[l.start..l.headEnd];
  }

  /** A separator in the line from `lo` on, its newline included, ends the located entry there. */
  lemma CutAtSeparator(content: string, h: Header, start: nat, from: nat, lo: nat, hi: nat, line: string, to: nat)
    requires start <= lo <= hi < |content| && content[lo..hi + 1] == line && Contains(line, SEPARATOR)
    requires Find(content, Marker(h.task), 0) == Some(start) && RFind(content, "## ", start) == Some(from)
    requires Locate(content, h.task) == Some((from, to))
    ensures to <= hi + 1
  {
    var k: nat :| At(line, SEPARATOR, k);
    SeparatorChars(line, k);
    LocateIs(content, h.task, start, from);
    hide Locate, Marker;
    AtSlice(content, SEPARATOR, lo, hi + 1, lo + k);
  }

  lemma PlaceholderAt(content: string, lo: nat, hi: nat, piece: string, p: string) returns (j: nat)
    requires lo <= hi <= |content| && content[lo..hi] == piece && Contains(piece, p)
    ensures lo <= j && j + |p| <= hi && At(content, p, j)
  {
    var k: nat :| At(piece, p, k);
    Fits(piece, p, k);
    j := lo + k;
    AtSlice(content, p, lo, hi, j);
  }

  lemma UncleanIs(h: Header, name: string, outbound: string)
    requires !CleanEntry(h, name, outbound)
    ensures Contains(Tail(h) + "\n", SEPARATOR) || Contains(Lead(h) + Tail(h), Placeholder(name))
      || Contains(outbound + "\n", SEPARATOR) || Contains(outbound, Placeholder(name))
  {
  }

  /** Where the located entry of an unclean entry ends: before the text's line does, or after a
      placeholder that comes before that. */
  lemma EntryCutShort(content: string, l: Layout, h: Header, name: string, outbound: string, to: nat) returns (j: nat)
    requires Laid(content, l, h, name, outbound) && !CleanEntry(h, name, outbound)
    requires Find(content, Marker(h.task), 0) == Some(l.start) && RFind(content, "## ", l.start) == Some(l.from)
    requires Locate(content, h.task) == Some((l.from, to))
    ensures to <= l.textEnd + 1
      || (l.from <= j && j + |Placeholder(name)| <= l.textEnd && At(content, Placeholder(name), j))
  {
    hide *;
    j := 0;
    UncleanIs(h, name, outbound);
    HeaderLineThere(content, l, h, name, outbound);
    if Contains(Tail(h) + "\n", SEPARATOR) {
      CutAtSeparator(content, h, l.start, l.from, l.start, l.headEnd, Tail(h) + "\n", to);
    } else if Contains(outbound + "\n", SEPARATOR) {
      CutAtSeparator(content, h, l.start, l.from, l.text, l.textEnd, outbound + "\n", to);
    } else if Contains(outbound, Placeholder(name)) {
      j := PlaceholderAt(content, l.text, l.textEnd, outbound, Placeholder(name));
    } else {
      j := PlaceholderAt(content, l.from, l.headEnd, Lead(h) + Tail(h), Placeholder(name));
    }
  }

  lemma Fits(s: string, p: string, i: nat)
    requires At(s, p, i)
    ensures i + |p| <= |s|
  {
  }

  lemma LastCharDiffers(u: string, v: string, head: string, w: string, tail: string)
    requires u == head + [')'] + tail && v == w + ['x'] + tail
    ensures u != v
  {
    assert u[|u| - |tail| - 1] == ')' && v[|v| - |tail| - 1] == 'x';
  }

  lemma ReplyX(name: string)
    ensures Reply(name, "x") == Reply(name, "") + ['x']
  {
    assert "x" == "" + ['x'];
  }

  /** A placeholder replaced before the real one's last character leaves that one in place. */
  lemma EarlierReplacementMisses(content: string, name: string, wait: nat, waitEnd: nat, i: nat, size: nat, u: string)
    requires wait < waitEnd <= |content| && content[waitEnd - 1] == ')' && i + size < waitEnd
    requires u == content || u == content[..i] + Reply(name, "x") + content[i + size..]
    ensures u != content[..wait] + Reply(name, "x") + content[waitEnd..]
  {
    var tail, v := content[waitEnd..], content[..wait] + Reply(name, "x") + content[waitEnd..];
    ReplyX(name);
    hide Reply;
    assert v == (content[..wait] + Reply(name, "")) + ['x'] + tail;
    if u == content {
      assert u == content[..waitEnd - 1] + [')'] + tail;
      LastCharDiffers(u, v, content[..waitEnd - 1], content[..wait] + Reply(name, ""), tail);
    } else {
      assert content[i + size..] == content[i + size..waitEnd - 1] + [')'] + tail;
      var head := content[..i] + Reply(name, "x") + content[i + size..waitEnd - 1];
      assert u == head + [')'] + tail;
      LastCharDiffers(u, v, head, content[..wait] + Reply(name, ""), tail);
    }
  }

  /** Unless the entry is clean, the reply "x" does not land in it. */
  lemma UncleanMisses(content: string, l: Layout, h: Header, name: string, outbound: string)
    requires Laid(content, l, h, name, outbound) && MarkerFirst(content, l, h.task)
    requires SafeName(name) && PlainStamp(h) && !CleanEntry(h, name, outbound)
    ensures Rewritten(content, name, h.task, "x").1 != content[..l.wait] + Reply(name, "x") + content[l.waitEnd..]
  {
    hide *;
    PlaceholderThere(content, l, h, name, outbound);
    PlainStampIs(h);
    MarkerFound(content, l, h, name, outbound);
    HeadingFound(content, l, h, name, outbound);
    LocateIs(content, h.task, l.start, l.from);
    var p, to := Placeholder(name), Locate(content, h.task).value.1;
    UpdatedIs(content, name, h.task, "x", l.from, to);
    if Find(content[l.from..to], p, 0) == None {
      UnchangedWithout(content, name, h.task, "x", l.from, to);
      EarlierReplacementMisses(content, name, l.wait, l.waitEnd, 0, 0, content);
    } else {
      var i := EarlierPlaceholder(content, l, h, name, outbound, to);
      UpdatedAt(content, name, h.task, "x", l.from, to, i);
      EarlierReplacementMisses(content, name, l.wait, l.waitEnd, i, |p|, Rewritten(content, name, h.task, "x").1);
    }
  }

  /** A placeholder in the located part of an unclean entry comes before the real one ends. */
  lemma EarlierPlaceholder(content: string, l: Layout, h: Header, name: string, outbound: string, to: nat) returns (i: nat)
    requires Laid(content, l, h, name, outbound) && !CleanEntry(h, name, outbound)
    requires Find(content, Marker(h.task), 0) == Some(l.start) && RFind(content, "## ", l.start) == Some(l.from)
    requires Locate(content, h.task) == Some((l.from, to)) && l.from <= to <= |content|
    requires Find(content[l.from..to], Placeholder(name), 0).Some?
    ensures l.from <= i && i + |Placeholder(name)| <= to && i + |Placeholder(name)| < l.waitEnd
    ensures At(content, Placeholder(name), i)
    ensures forall j: nat :: l.from <= j < i ==> !At(content, Placeholder(name), j)
  {
    hide *;
    PlaceholderThere(content, l, h, name, outbound);
    var j := EntryCutShort(content, l, h, name, outbound, to);
    i := FirstPlaceholder(content, Placeholder(name), l.from, to);
    if to > l.textEnd + 1 {
      assert i <= j;
    }
  }

  /** The first placeholder of the located entry, as a position in the file. */
  lemma FirstPlaceholder(content: string, p: string, from: nat, to: nat) returns (i: nat)
    requires from <= to <= |content| && Find(content[from..to], p, 0).Some?
    ensures from <= i && i + |p| <= to && At(content, p, i)
    ensures forall j: nat :: from <= j < i ==> !At(content, p, j)
    ensures forall j: nat :: from <= j && j + |p| <= to && At(content, p, j) ==> i <= j
  {
    var block := content[from..to];
    i := from + Find(block, p, 0).value;
    Fits(block, p, i - from);
    hide Find, At;
    forall j: nat | from <= j < i ensures !At(content, p, j) {
      AtSlice(content, p, from, to, j);
    }
    AtSlice(content, p, from, to, i);
  }

  lemma UnchangedWithout(content: string, name: string, task: string, reply: string, from: nat, to: nat)
    requires Locate(content, task) == Some((from, to)) && Find(content[from..to], Placeholder(name), 0) == None
    ensures Rewritten(content, name, task, reply).1 == content
  {
  }

  // ---- the round trip ----

  /** Whatever the reply, it is filled into this entry of the text and nothing else changes. */
  ghost predicate EveryReplyPlaced(before: string, h: Header, name: string, outbound: string, after: string) {
    var saved := before + Entry(h, name, outbound, WAITING) + after;
    forall reply :: Rewritten(saved, name, h.task, reply).1 == before + Entry(h, name, outbound, reply) + after
  }

  /** Nothing before the entry's header mentions its task. */
  ghost predicate FirstMention(before: string, h: Header, name: string, outbound: string, after: string) {
    var saved := before + Entry(h, name, outbound, WAITING) + after;
    forall i: nat :: i < |before| + |Lead(h)| ==> !At(saved, Marker(h.task), i)
  }

  lemma CleanPlaces(before: string, h: Header, name: string, outbound: string, after: string, reply: string)
    requires SafeName(name) && PlainStamp(h) && CleanEntry(h, name, outbound)
    requires FirstMention(before, h, name, outbound, after)
    ensures Rewritten(before + Entry(h, name, outbound, WAITING) + after, name, h.task, reply).1
      == before + Entry(h, name, outbound, reply) + after
  {
    hide *;
    var saved := before + Entry(h, name, outbound, WAITING) + after;
    var l := EntryLaid(before, h, name, outbound, after);
    MarkerFirstIs(before, l, h, name, outbound, after);
    FilledEntry(before, h, name, outbound, after, reply, l);
    CleanRoundTrip(saved, l, h, name, outbound, reply);
  }

  lemma UncleanMisplaces(before: string, h: Header, name: string, outbound: string, after: string)
    requires SafeName(name) && PlainStamp(h) && !CleanEntry(h, name, outbound)
    requires FirstMention(before, h, name, outbound, after)
    ensures Rewritten(before + Entry(h, name, outbound, WAITING) + after, name, h.task, "x").1
      != before + Entry(h, name, outbound, "x") + after
  {
    hide *;
    var saved := before + Entry(h, name, outbound, WAITING) + after;
    var l := EntryLaid(before, h, name, outbound, after);
    MarkerFirstIs(before, l, h, name, outbound, after);
    FilledEntry(before, h, name, outbound, after, "x", l);
    UncleanMisses(saved, l, h, name, outbound);
  }

  /** As to the text that was read: provided the entry's header is the first mention of its task,
      every reply is filled into exactly this entry if and only if the entry is clean.  What is
      before and after it may be anything else. */
  lemma PlacedIff(before: string, h: Header, name: string, outbound: string, after: string)
    requires SafeName(name) && PlainStamp(h) && FirstMention(before, h, name, outbound, after)
    ensures EveryReplyPlaced(before, h, name, outbound, after) <==> CleanEntry(h, name, outbound)
  {
    hide Rewritten, Entry, CleanEntry, PlainStamp, SafeName, FirstMention;
    if CleanEntry(h, name, outbound) {
      var saved := before + Entry(h, name, outbound, WAITING) + after;
      forall reply ensures Rewritten(saved, name, h.task, reply).1 == before + Entry(h, name, outbound, reply) + after {
        CleanPlaces(before, h, name, outbound, after, reply);
      }
    } else {
      UncleanMisplaces(before, h, name, outbound, after);
    }
  }

  lemma MarkerFirstIs(before: string, l: Layout, h: Header, name: string, outbound: string, after: string)
    requires Laid(before + Entry(h, name, outbound, WAITING) + after, l, h, name, outbound) && l.from == |before|
    requires FirstMention(before, h, name, outbound, after)
    ensures MarkerFirst(before + Entry(h, name, outbound, WAITING) + after, l, h.task)
  {
  }

  /** That the text itself holds no separator is not enough: a rule as its last line is completed
      by the newline after it. */
  lemma TrailingRuleIsUnclean(name: string)
    ensures !Contains("done\n---", SEPARATOR) && !CleanText(name, "done\n---")
  {
    var s := "done\n---";
    forall i: nat ensures !At(s, SEPARATOR, i) {
      if At(s, SEPARATOR, i) {
        SeparatorChars(s, i);
      }
    }
    assert s + "\n" == "done" + SEPARATOR;
    assert At(s + "\n", SEPARATOR, 4);
  }
}
