/** The conversation log of one agent and day: entries are appended, and the placeholder of an
    outbound entry is replaced when the reply arrives.  `name` is the sanitised agent name. */
module ExchangeLog {
  import opened OrderedDicts
  import opened Texts

  const SEPARATOR := "\n---\n"
  const WAITING := "(waiting for reply\U{2026})"
  const LABEL := "**\U{2192} me:** "

  datatype Header = Header(timestamp: string, task: string, intent: string, replyTo: string)

  function Marker(task: string): string {
    "task:" + task
  }

  /** The header line from the marker on. */
  function Tail(h: Header): string {
    Marker(h.task) + (if h.intent != "" then " | " + h.intent else "")
                   + (if h.replyTo != "" then " | reply_to:" + h.replyTo else "")
  }

  function Lead(h: Header): string {
    "## " + h.timestamp + " | "
  }

  function Reply(name: string, text: string): string {
    "**\U{2190} " + name + ":** " + text
  }

  function Placeholder(name: string): string {
    Reply(name, WAITING)
  }

  /** An outbound entry up to the reply. */
  function Opening(h: Header, outbound: string): string {
    Lead(h) + (Tail(h) + ("\n\n" + (LABEL + (outbound + "\n\n"))))
  }

  /** The entry of an outbound exchange whose reply reads `reply`. */
  function Entry(h: Header, name: string, outbound: string, reply: string): string {
    Opening(h, outbound) + (Reply(name, reply) + ("\n" + SEPARATOR))
  }

  /** The entry of an inbound exchange. */
  function InboundEntry(h: Header, name: string, inbound: string, outbound: string): string {
    Lead(h) + Tail(h) + "\n\n" + Reply(name, inbound) + "\n\n" + "**\U{2192} reply:** " + outbound + "\n" + SEPARATOR
  }

  /** The extent of the entry `update_exchange` works on. */
  function Locate(content: string, task: string): (r: Option<(nat, nat)>)
    ensures r.Some? ==> r.value.0 <= r.value.1 <= |content|
  {
    match Find(content, Marker(task), 0)
    case None => None
    case Some(start) =>
      match RFind(content, "## ", start)
      case None => None
      case Some(from) =>
        match Find(content, SEPARATOR, start)
        case None => Some((from, |content|))
        case Some(end) => Some((from, end + |SEPARATOR|))
  }

  /** What `update_exchange` makes of the text it read, and whether it changed anything. */
  function Rewritten(content: string, name: string, task: string, reply: string): (bool, string) {
    match Locate(content, task)
    case None => (false, content)
    case Some((from, to)) =>
      var block := content[from..to];
      var filled := ReplaceFirst(block, Placeholder(name), Reply(name, reply));
      if filled == block then (false, content) else (true, content[..from] + filled + content[to..])
  }

  /** What `update_exchange` returns, and the file after it: reading translates newlines, and what
      was read is written back if anything changed. */
  function Updated(file: string, name: string, task: string, reply: string): (bool, string) {
    var r := Rewritten(Translated(file), name, task, reply);
    if r.0 then r else (false, file)
  }

  /** The file after `save_exchange`: the existing text is written back as it was read. */
  function Saved(file: string, entry: string): string {
    Translated(file) + entry
  }

  // ---- the file ----

  class ConversationFile {
    var present: bool
    var content: string

    constructor ()
      ensures !present && content == ""
    {
      present, content := false, "";
    }

    /** `save_exchange`, short of rotating a file that has grown too large. */
    method SaveExchange(h: Header, name: string, inbound: string, outbound: string, isOutbound: bool)
      modifies this
      ensures present && content == Saved(if old(present) then old(content) else "",
        if isOutbound then Entry(h, name, outbound, WAITING) else InboundEntry(h, name, inbound, outbound))
    {
      hide Translated;
      var existing := Translated(if present then content else "");
      var lines;
      if isOutbound {
        lines := Opening(h, outbound) + (Reply(name, WAITING) + ("\n" + SEPARATOR));
      } else {
        lines := Lead(h) + Tail(h) + "\n\n" + Reply(name, inbound) + "\n\n" + "**\U{2192} reply:** " + outbound;
        lines := lines + "\n" + SEPARATOR;
      }
      present, content := true, existing + lines;
    }

    method UpdateExchange(name: string, task: string, reply: string) returns (ok: bool)
      modifies `content
      ensures !present ==> !ok && content == old(content)
      ensures present ==> (ok, content) == Updated(old(content), name, task, reply)
    {
      hide Find, RFind, ReplaceFirst, Translated;
      if !present {
        return false;
      }
      var text := Translated(content);
      var start := Find(text, Marker(task), 0);
      if start == None {
        return false;
      }
      var from := RFind(text, "## ", start.value);
      if from == None {
        return false;
      }
      var end := Find(text, SEPARATOR, start.value);
      var to := if end == None then |text| else end.value + |SEPARATOR|;
      var block := text[from.value..to];
      var updatedBlock := ReplaceFirst(block, Placeholder(name), Reply(name, reply));
      if updatedBlock == block {
        return false;
      }
      content := text[..from.value] + updatedBlock + text[to..];
      return true;
    }
  }

  // ---- what stays as it was ----

  /** Saving is appending if and only if the file holds no carriage return. */
  lemma SaveAppendsIff(file: string, entry: string)
    ensures Saved(file, entry) == file + entry <==> '\r' !in file
  {
    SameIffPlain(file);
    hide Translated;
    var t := Translated(file);
    if t + entry == file + entry {
      assert |t| == |file|;
      assert (t + entry)[..|t|] == t && (file + entry)[..|t|] == file;
    }
  }

  /** No reader can tell a save from an append: the file reads the same. */
  lemma SaveReadsAsAppend(file: string, entry: string)
    requires entry != [] && entry[0] != '\n'
    ensures Translated(Saved(file, entry)) == Translated(file + entry)
  {
    PlainFirst(Translated(file), entry);
    TranslatedJoin(file, entry);
  }

  /** Whatever the file holds, outside the located entry an update leaves the text as it was read,
      and without one, or without a change, it leaves the file alone. */
  lemma OutsideUnchanged(file: string, name: string, task: string, reply: string)
    ensures var text, r := Translated(file), Updated(file, name, task, reply);
      match Locate(text, task)
      case None => r == (false, file)
      case Some((from, to)) =>
        if r.0 then
          && |r.1| >= from + (|text| - to)
          && r.1[..from] == text[..from] && r.1[|r.1| - (|text| - to)..] == text[to..]
        else r.1 == file
  {
    hide Locate, ReplaceFirst, Translated;
  }

  /** As to the file itself, an update leaves what surrounds the entry as it was if and only if
      there is no carriage return in it. */
  lemma OutsideUnchangedIff(file: string, name: string, task: string, reply: string)
    requires Updated(file, name, task, reply).0
    ensures var text, r, entry := Translated(file), Updated(file, name, task, reply).1, Locate(Translated(file), task);
      && entry.Some?
      && var from, rest := entry.value.0, |text| - entry.value.1;
         && from + rest <= |r| && from + rest <= |file|
         && ((r[..from] == file[..from] && r[|r| - rest..] == file[|file| - rest..])
             <==> '\r' !in file[..from] && '\r' !in file[|file| - rest..])
  {
    OutsideUnchanged(file, name, task, reply);
    hide Locate, ReplaceFirst, Translated;
    var located := Locate(Translated(file), task).value;
    PrefixReadsSameIff(file, located.0);
    SuffixReadsSameIff(file, |Translated(file)| - located.1);
  }

  // ---- the round trip ----

  /** Positions in a file that holds an outbound entry. */
  datatype Layout = Layout(from: nat, start: nat, headEnd: nat, text: nat, textEnd: nat, wait: nat, waitEnd: nat, to: nat)

  ghost predicate OpeningAt(content: string, l: Layout, h: Header, outbound: string) {
    && l.from + |Lead(h)| == l.start && l.start + |Tail(h)| == l.headEnd && l.headEnd + 2 + |LABEL| == l.text
    && l.text + |outbound| == l.textEnd && l.textEnd + 2 == l.wait <= |content|
    && content[l.from..l.start] == Lead(h)
    && content[l.start..l.headEnd] == Tail(h)
    && content[l.headEnd] == content[l.headEnd + 1] == '\n'
    && content[l.headEnd + 2..l.text] == LABEL
    && content[l.text..l.textEnd] == outbound
    && content[l.textEnd] == content[l.textEnd + 1] == '\n'
  }

  ghost predicate Laid(content: string, l: Layout, h: Header, name: string, outbound: string) {
    && OpeningAt(content, l, h, outbound)
    && l.wait + |Placeholder(name)| == l.waitEnd && l.waitEnd + 1 + |SEPARATOR| == l.to <= |content|
    && content[l.wait..l.waitEnd] == Placeholder(name)
    && content[l.waitEnd] == '\n'
    && content[l.waitEnd + 1..l.to] == SEPARATOR
  }

  /** Cut one piece off the text at `pos`. */
  lemma Peel(s: string, pos: nat, x: string, y: string, z: string)
    requires pos <= |s| && s[pos..] == x + y + z
    ensures pos + |x| <= |s| && s[pos..pos + |x|] == x && s[pos + |x|..] == y + z
  {
    var t := s[pos..];
    assert t[..|x|] == x;
    assert t[|x|..] == y + z;
  }

  /** Five pieces, one after the other. */
  lemma PeelFive(s: string, pos: nat, a: string, b: string, n: string, d: string, e: string, rest: string)
    requires pos <= |s| && s[pos..] == a + (b + (n + (d + (e + n)))) + rest
    ensures var p := pos + |a|; var q := p + |b|; var r := q + |n|; var t := r + |d|; var u := t + |e|;
      && u + |n| <= |s| && s[pos..p] == a && s[p..q] == b && s[q..r] == n && s[r..t] == d && s[t..u] == e
      && s[u..u + |n|] == n && s[u + |n|..] == rest
  {
    PeelTwo(s, pos, a, b, n + (d + (e + n)), rest);
    PeelTwo(s, pos + |a| + |b|, n, d, e + n, rest);
    Peel(s, pos + |a| + |b| + |n| + |d|, e, n, rest);
    PeelLast(s, pos + |a| + |b| + |n| + |d| + |e|, n, rest);
  }

  lemma PeelTwo(s: string, pos: nat, x: string, y: string, z: string, rest: string)
    requires pos <= |s| && s[pos..] == x + (y + z) + rest
    ensures pos + |x| + |y| <= |s| && s[pos..pos + |x|] == x && s[pos + |x|..pos + |x| + |y|] == y
    ensures s[pos + |x| + |y|..] == z + rest
  {
    Peel(s, pos, x, y + z, rest);
    Peel(s, pos + |x|, y, z, rest);
  }

  lemma PeelLast(s: string, pos: nat, x: string, z: string)
    requires pos <= |s| && s[pos..] == x + z
    ensures pos + |x| <= |s| && s[pos..pos + |x|] == x && s[pos + |x|..] == z
  {
    assert x + z == x + z + [];
    Peel(s, pos, x, z, []);
    assert z + [] == z;
  }

  lemma OpeningLaid(content: string, l: Layout, h: Header, name: string, outbound: string, rest: string)
    requires l.from <= |content| && content[l.from..] == Opening(h, outbound) + rest
    requires l.start == l.from + |Lead(h)| && l.headEnd == l.start + |Tail(h)| && l.text == l.headEnd + 2 + |LABEL|
    requires l.textEnd == l.text + |outbound| && l.wait == l.textEnd + 2
    ensures OpeningAt(content, l, h, outbound) && content[l.wait..] == rest
  {
    OpeningIs(h, outbound);
    hide *;
    PeelFive(content, l.from, Lead(h), Tail(h), "\n\n", LABEL, outbound, rest);
    BreakChars(content, l.headEnd);
    BreakChars(content, l.textEnd);
    OpeningAtIs(content, l, h, outbound);
  }

  /** Two newlines are two characters. */
  lemma BreakChars(s: string, pos: nat)
    requires pos + 2 <= |s| && s[pos..pos + 2] == "\n\n"
    ensures s[pos] == s[pos + 1] == '\n'
  {
    var b := s[pos..pos + 2];
    assert s[pos] == b[0] && s[pos + 1] == b[1];
  }

  lemma OpeningIs(h: Header, outbound: string)
    ensures Opening(h, outbound) == Lead(h) + (Tail(h) + ("\n\n" + (LABEL + (outbound + "\n\n"))))
  {
  }

  lemma OpeningAtIs(content: string, l: Layout, h: Header, outbound: string)
    requires l.from + |Lead(h)| == l.start && l.start + |Tail(h)| == l.headEnd && l.headEnd + 2 + |LABEL| == l.text
    requires l.text + |outbound| == l.textEnd && l.textEnd + 2 == l.wait <= |content|
    requires content[l.from..l.start] == Lead(h)
    requires content[l.start..l.headEnd] == Tail(h)
    requires content[l.headEnd] == content[l.headEnd + 1] == '\n'
    requires content[l.headEnd + 2..l.text] == LABEL
    requires content[l.text..l.textEnd] == outbound
    requires content[l.textEnd] == content[l.textEnd + 1] == '\n'
    ensures OpeningAt(content, l, h, outbound)
  {
  }

  lemma EntryFollows(before: string, h: Header, name: string, outbound: string, after: string)
    ensures var p := Placeholder(name);
      && (before + Entry(h, name, outbound, WAITING) + after)[|before|..] ==
           Opening(h, outbound) + (p + ("\n" + SEPARATOR) + after)
      && |Entry(h, name, outbound, WAITING)| == |Opening(h, outbound)| + |p| + 1 + |SEPARATOR|
      && |Opening(h, outbound)| == |Lead(h)| + |Tail(h)| + 2 + |LABEL| + |outbound| + 2
  {
    OpeningIs(h, outbound);
    hide Opening, Lead, Tail, Reply;
    var p, o, e := Placeholder(name), Opening(h, outbound), Entry(h, name, outbound, WAITING);
    assert e == o + (p + ("\n" + SEPARATOR));
    assert (before + e + after)[|before|..] == e + after;
    assert e + after == o + (p + ("\n" + SEPARATOR) + after);
  }

  lemma ClosingLaid(content: string, l: Layout, h: Header, name: string, outbound: string, after: string)
    requires OpeningAt(content, l, h, outbound)
    requires l.waitEnd == l.wait + |Placeholder(name)| && l.to == l.waitEnd + 1 + |SEPARATOR|
    requires l.wait <= |content| && content[l.wait..] == Placeholder(name) + ("\n" + SEPARATOR) + after
    ensures Laid(content, l, h, name, outbound)
  {
    Peel(content, l.wait, Placeholder(name), "\n" + SEPARATOR, after);
    Peel(content, l.waitEnd, "\n", SEPARATOR, after);
    PeelLast(content, l.waitEnd + 1, SEPARATOR, after);
    hide OpeningAt, Reply, Placeholder;
    assert content[l.waitEnd..l.waitEnd + 1][0] == '\n';
  }

  lemma EntryLaid(before: string, h: Header, name: string, outbound: string, after: string) returns (l: Layout)
    ensures Laid(before + Entry(h, name, outbound, WAITING) + after, l, h, name, outbound)
    ensures l.from == |before| && l.to == |before| + |Entry(h, name, outbound, WAITING)|
  {
    hide *;
    var start := |before| + |Lead(h)|;
    var headEnd := start + |Tail(h)|;
    var text := headEnd + 2 + |LABEL|;
    var wait := text + |outbound| + 2;
    var waitEnd := wait + |Placeholder(name)|;
    l := Layout(|before|, start, headEnd, text, text + |outbound|, wait, waitEnd, waitEnd + 1 + |SEPARATOR|);
    var content := before + Entry(h, name, outbound, WAITING) + after;
    EntryFollows(before, h, name, outbound, after);
    OpeningLaid(content, l, h, name, outbound, Placeholder(name) + ("\n" + SEPARATOR) + after);
    LaidOpening(content, l, h, outbound);
    ClosingLaid(content, l, h, name, outbound, after);
  }

  lemma LaidOpening(content: string, l: Layout, h: Header, outbound: string)
    requires OpeningAt(content, l, h, outbound)
    ensures l.wait <= |content|
  {
  }

  /** Filling the reply in replaces the placeholder and nothing else. */
  lemma FilledEntry(before: string, h: Header, name: string, outbound: string, after: string, reply: string, l: Layout)
    requires Laid(before + Entry(h, name, outbound, WAITING) + after, l, h, name, outbound) && l.from == |before|
    ensures var content := before + Entry(h, name, outbound, WAITING) + after;
      before + Entry(h, name, outbound, reply) + after ==
        content[..l.wait] + Reply(name, reply) + content[l.waitEnd..]
  {
    hide *;
    OpeningSize(h, outbound, l, before + Entry(h, name, outbound, WAITING) + after, name);
    EntryIs(h, name, outbound, WAITING);
    EntryIs(h, name, outbound, reply);
    Swapped(before, Opening(h, outbound), Reply(name, WAITING), Reply(name, reply), "\n" + SEPARATOR, after);
  }

  lemma OpeningSize(h: Header, outbound: string, l: Layout, content: string, name: string)
    requires Laid(content, l, h, name, outbound)
    ensures l.wait == l.from + |Opening(h, outbound)| && l.waitEnd == l.wait + |Reply(name, WAITING)|
  {
    hide Lead, Tail;
  }

  lemma EntryIs(h: Header, name: string, outbound: string, reply: string)
    ensures Entry(h, name, outbound, reply) == Opening(h, outbound) + (Reply(name, reply) + ("\n" + SEPARATOR))
  {
  }

  lemma Swapped(before: string, x: string, y: string, z: string, e: string, after: string)
    ensures var s := before + (x + (y + e)) + after;
      before + (x + (z + e)) + after == s[..|before| + |x|] + z + s[|before| + |x| + |y|..]
  {
    var s := before + (x + (y + e)) + after;
    assert s[..|before| + |x|] == before + x;
    assert s[|before| + |x| + |y|..] == e + after;
    assert before + (x + (z + e)) + after == (before + x) + z + (e + after);
  }
}
