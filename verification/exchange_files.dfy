/** The round trip of the conversation log as to the file itself, which is read with newlines
    translated and written back as it was read. */
module ExchangeFiles {
  import opened Texts
  import opened ExchangeLog
  import opened ExchangeRoundTrip

  /** Whatever the reply, the update leaves the file as it would be had the entry been saved with
      the reply in it. */
  ghost predicate EveryReplyLands(before: string, h: Header, name: string, outbound: string, after: string) {
    var saved := before + Entry(h, name, outbound, WAITING) + after;
    forall reply :: Updated(saved, name, h.task, reply).1 == before + Entry(h, name, outbound, reply) + after
  }

  lemma UpdatedOnPlain(file: string, name: string, task: string, reply: string)
    requires '\r' !in file
    ensures Updated(file, name, task, reply).1 == Rewritten(file, name, task, reply).1
  {
    PlainText(file);
    hide Translated, Locate, ReplaceFirst;
  }

  lemma RewrittenIsPlain(content: string, name: string, task: string)
    requires '\r' !in content && SafeName(name)
    ensures '\r' !in Rewritten(content, name, task, "x").1
  {
    assert '\r' !in Reply(name, "x");
    if Locate(content, task).Some? {
      var (from, to) := Locate(content, task).value;
      ReplacedIsPlain(content[from..to], Placeholder(name), Reply(name, "x"));
    }
    hide Locate, ReplaceFirst, Reply, Placeholder;
  }

  lemma ReplacedIsPlain(s: string, p: string, r: string)
    requires '\r' !in s && '\r' !in r
    ensures '\r' !in ReplaceFirst(s, p, r)
  {
    hide Find;
  }

  /** The carriage returns of a saved entry are those of the entry with its reply. */
  lemma ReturnsStay(before: string, h: Header, name: string, outbound: string, after: string)
    requires SafeName(name)
    ensures var x := before + Entry(h, name, outbound, WAITING) + after;
      var y := before + Entry(h, name, outbound, "x") + after;
      ('\r' in x <==> '\r' in y) && |x| != |y|
  {
    EntryIs(h, name, outbound, WAITING);
    EntryIs(h, name, outbound, "x");
    assert |WAITING| != |"x"| && '\r' !in Reply(name, WAITING) && '\r' !in Reply(name, "x");
    assert |Reply(name, WAITING)| - |Reply(name, "x")| == |WAITING| - 1;
    hide Entry, Opening, Reply;
    InMiddle(before, Opening(h, outbound), Reply(name, WAITING), "\n" + SEPARATOR, after);
    InMiddle(before, Opening(h, outbound), Reply(name, "x"), "\n" + SEPARATOR, after);
  }

  lemma InMiddle(a: string, b: string, c: string, d: string, e: string)
    ensures var s := a + (b + (c + d)) + e;
      && |s| == |a| + |b| + |c| + |d| + |e|
      && ('\r' in s <==> '\r' in a || '\r' in b || '\r' in c || '\r' in d || '\r' in e)
  {
    var cd := c + d;
    var bcd := b + cd;
    var abcd := a + bcd;
    assert forall x :: x in cd <==> x in c || x in d;
    assert forall x :: x in bcd <==> x in b || x in cd;
    assert forall x :: x in abcd <==> x in a || x in bcd;
    assert forall x :: x in abcd + e <==> x in abcd || x in e;
  }

  /** A carriage return anywhere in the file is lost with the update. */
  lemma ReturnsAreLost(before: string, h: Header, name: string, outbound: string, after: string)
    requires SafeName(name) && '\r' in before + Entry(h, name, outbound, WAITING) + after
    ensures Updated(before + Entry(h, name, outbound, WAITING) + after, name, h.task, "x").1
      != before + Entry(h, name, outbound, "x") + after
  {
    ReturnsStay(before, h, name, outbound, after);
    var saved := before + Entry(h, name, outbound, WAITING) + after;
    RewrittenIsPlain(Translated(saved), name, h.task);
    hide Translated, Rewritten, Entry, SafeName;
  }

  /** Provided the entry's header is the first mention of its task, every reply lands in the file,
      byte for byte, if and only if the file holds no carriage return and the entry is clean. */
  lemma RoundTripIff(before: string, h: Header, name: string, outbound: string, after: string)
    requires SafeName(name) && PlainStamp(h) && FirstMention(before, h, name, outbound, after)
    ensures EveryReplyLands(before, h, name, outbound, after)
      <==> '\r' !in before + Entry(h, name, outbound, WAITING) + after && CleanEntry(h, name, outbound)
  {
    hide Updated, Rewritten, Entry, CleanEntry, PlainStamp, SafeName, FirstMention;
    var saved := before + Entry(h, name, outbound, WAITING) + after;
    if '\r' in saved {
      ReturnsAreLost(before, h, name, outbound, after);
    } else if CleanEntry(h, name, outbound) {
      forall reply ensures Updated(saved, name, h.task, reply).1 == before + Entry(h, name, outbound, reply) + after {
        CleanPlaces(before, h, name, outbound, after, reply);
        UpdatedOnPlain(saved, name, h.task, reply);
      }
    } else {
      UncleanMisplaces(before, h, name, outbound, after);
      UpdatedOnPlain(saved, name, h.task, "x");
    }
  }

  // ---- the file as it is read ----

  /** What a reader makes of the outbound text, the newline after it included: a final carriage
      return is one with that newline. */
  function AsRead(outbound: string): string {
    var line := Translated(outbound + "\n");
    if line == [] then [] else line[..|line| - 1]
  }

  lemma {:induction false} EndsInNewline(x: string)
    ensures Translated(x + "\n") == AsRead(x) + "\n"
  {
    PlainLast(x, "\n");
    hide Translated;
    var t := Translated(x + "\n");
    assert t == t[..|t| - 1] + t[|t| - 1..];
  }

  lemma BlankLineAfter(x: string)
    ensures Translated(x + "\n\n") == AsRead(x) + "\n\n"
  {
    EndsInNewline(x);
    TranslatedJoin(x + "\n", "\n");
    PlainText("\n");
    hide *;
    assert x + "\n" + "\n" == x + "\n\n" && AsRead(x) + "\n" + "\n" == AsRead(x) + "\n\n";
  }

  /** An entry with a plain header is read as the entry of the text as it is read. */
  lemma EntryAsRead(h: Header, name: string, outbound: string, after: string)
    requires SafeName(name) && '\r' !in Lead(h) && '\r' !in Tail(h)
    ensures Translated(Entry(h, name, outbound, WAITING) + after)
      == Entry(h, name, AsRead(outbound), WAITING) + Translated(after)
  {
    var head := Lead(h) + (Tail(h) + ("\n\n" + LABEL));
    var rest := Reply(name, WAITING) + ("\n" + SEPARATOR);
    assert '\r' !in head && '\r' !in rest;
    EntryParts(h, name, outbound);
    EntryParts(h, name, AsRead(outbound));
    hide *;
    var text := outbound + "\n\n";
    BlankLineAfter(outbound);
    JointAfterNewline(text, rest + after);
    TranslatedJoin(text, rest + after);
    PlainFirst(rest, after);
    PlainFirst(head, text + (rest + after));
    Regrouped(head, text, rest, after);
    Regrouped(head, AsRead(outbound) + "\n\n", rest, Translated(after));
  }

  lemma EntryParts(h: Header, name: string, outbound: string)
    ensures Entry(h, name, outbound, WAITING) ==
      Lead(h) + (Tail(h) + ("\n\n" + LABEL)) + (outbound + "\n\n") + (Reply(name, WAITING) + ("\n" + SEPARATOR))
  {
    hide Lead, Tail, Reply;
    var lead, tail, text := Lead(h), Tail(h), outbound + "\n\n";
    assert lead + (tail + ("\n\n" + (LABEL + text))) == lead + (tail + ("\n\n" + LABEL)) + text;
  }

  lemma JointAfterNewline(x: string, y: string)
    requires x != [] && x[|x| - 1] == '\n'
    ensures Joint(x, y)
  {
  }

  lemma Regrouped(a: string, b: string, c: string, d: string)
    ensures a + b + c + d == a + (b + (c + d))
  {
  }

  lemma SavedAsRead(before: string, h: Header, name: string, outbound: string, after: string)
    requires SafeName(name) && '\r' !in Lead(h) && '\r' !in Tail(h)
    ensures Translated(before + Entry(h, name, outbound, WAITING) + after)
      == Translated(before) + Entry(h, name, AsRead(outbound), WAITING) + Translated(after)
  {
    var entry := Entry(h, name, outbound, WAITING);
    HeadingFirst(h, name, outbound);
    EntryAsRead(h, name, outbound, after);
    hide *;
    JointBeforeHeading(before, entry + after);
    TranslatedJoin(before, entry + after);
    assert before + entry + after == before + (entry + after);
    var read := Entry(h, name, AsRead(outbound), WAITING);
    assert Translated(before) + read + Translated(after) == Translated(before) + (read + Translated(after));
  }

  lemma HeadingFirst(h: Header, name: string, outbound: string)
    ensures Entry(h, name, outbound, WAITING) != [] && Entry(h, name, outbound, WAITING)[0] == '#'
  {
    assert Lead(h)[0] == '#';
    hide Lead, Tail, Reply;
  }

  lemma JointBeforeHeading(x: string, y: string)
    requires y != [] && y[0] == '#'
    ensures Joint(x, y)
  {
  }

  /** Whatever the reply, the update succeeds and leaves the file as it was read, with the reply
      in its entry. */
  ghost predicate EveryReplyRecorded(before: string, h: Header, name: string, outbound: string, after: string) {
    var saved := before + Entry(h, name, outbound, WAITING) + after;
    forall reply :: reply != WAITING ==>
      Updated(saved, name, h.task, reply)
        == (true, Translated(before) + Entry(h, name, AsRead(outbound), reply) + Translated(after))
  }

  lemma UpdatedIsRewritten(file: string, text: string, name: string, task: string, reply: string, filled: string)
    requires text == Translated(file) && filled != text
    ensures Rewritten(text, name, task, reply).1 == filled <==> Updated(file, name, task, reply) == (true, filled)
  {
    hide Translated, Locate, ReplaceFirst;
  }

  lemma ReplyShows(before: string, h: Header, name: string, outbound: string, after: string, reply: string)
    requires reply != WAITING
    ensures before + Entry(h, name, outbound, WAITING) + after != before + Entry(h, name, outbound, reply) + after
  {
    EntryIs(h, name, outbound, WAITING);
    EntryIs(h, name, outbound, reply);
    var x, e := Opening(h, outbound), "\n" + SEPARATOR;
    assert Reply(name, WAITING)[|Reply(name, "")|..] == WAITING && Reply(name, reply)[|Reply(name, "")|..] == reply;
    hide Entry, Opening, Reply;
    Differs(before, x, Reply(name, WAITING), Reply(name, reply), e, after);
  }

  lemma Differs(a: string, x: string, y: string, z: string, e: string, b: string)
    requires y != z
    ensures a + (x + (y + e)) + b != a + (x + (z + e)) + b
  {
    var s, t := a + (x + (y + e)) + b, a + (x + (z + e)) + b;
    if |y| == |z| {
      assert s[|a| + |x|..|a| + |x| + |y|] == y;
      assert t[|a| + |x|..|a| + |x| + |z|] == z;
    } else {
      assert |s| != |t|;
    }
  }

  /** In any file, carriage returns and all: provided the entry's header holds no carriage return
      and is the first mention of its task as the file is read, every reply is recorded in exactly
      this entry if and only if the entry is clean as it is read. */
  lemma RecordedIff(before: string, h: Header, name: string, outbound: string, after: string)
    requires SafeName(name) && PlainStamp(h) && '\r' !in Lead(h) && '\r' !in Tail(h)
    requires FirstMention(Translated(before), h, name, AsRead(outbound), Translated(after))
    ensures EveryReplyRecorded(before, h, name, outbound, after) <==> CleanEntry(h, name, AsRead(outbound))
  {
    hide Updated, Rewritten, Entry, CleanEntry, PlainStamp, SafeName, FirstMention, Translated, AsRead, Lead, Tail;
    var saved := before + Entry(h, name, outbound, WAITING) + after;
    var b, o, a := Translated(before), AsRead(outbound), Translated(after);
    SavedAsRead(before, h, name, outbound, after);
    if CleanEntry(h, name, o) {
      forall reply | reply != WAITING
        ensures Updated(saved, name, h.task, reply) == (true, b + Entry(h, name, o, reply) + a)
      {
        CleanPlaces(b, h, name, o, a, reply);
        ReplyShows(b, h, name, o, a, reply);
        UpdatedIsRewritten(saved, Translated(saved), name, h.task, reply, b + Entry(h, name, o, reply) + a);
      }
    } else {
      UncleanMisplaces(b, h, name, o, a);
      ReplyShows(b, h, name, o, a, "x");
      UpdatedIsRewritten(saved, Translated(saved), name, h.task, "x", b + Entry(h, name, o, "x") + a);
      assert "x" != WAITING;
    }
  }

  /** A clean text can read as an unclean one: lone carriage returns around a rule. */
  lemma CarriageReturnsCutEntry(name: string)
    requires SafeName(name)
    ensures CleanText(name, "a\r---\rb") && !CleanText(name, AsRead("a\r---\rb"))
  {
    var s := "a\r---\rb";
    PlaceholderChars(name);
    forall i: nat ensures !At(s + "\n", SEPARATOR, i) {
      if At(s + "\n", SEPARATOR, i) {
        SeparatorChars(s + "\n", i);
      }
    }
    assert |Placeholder(name)| > |s|;
    LongerNotIn(s, Placeholder(name));
    hide Placeholder;
    ReadsAsRule();
    assert At(AsRead(s) + "\n", SEPARATOR, 1) by {
      assert ("a\n---\nb" + "\n")[1..6] == SEPARATOR;
    }
  }

  lemma LongerNotIn(s: string, p: string)
    requires |p| > |s|
    ensures !Contains(s, p)
  {
  }

  lemma LoneReturn(y: string)
    requires y != [] && y[0] != '\n'
    ensures Translated(['\r'] + y) == ['\n'] + Translated(y)
  {
    var s := ['\r'] + y;
    assert s[1..] == y && s[1] == y[0];
    TranslatedStep(s);
    hide Translated;
  }

  lemma ReadsAsRule()
    ensures AsRead("a\r---\rb") == "a\n---\nb"
  {
    RuleTranslates();
    hide Translated;
    assert "a\r---\rb" + "\n" == "a" + (['\r'] + ("---" + (['\r'] + "b\n")));
  }

  lemma RuleTranslates()
    ensures Translated("a" + (['\r'] + ("---" + (['\r'] + "b\n")))) == "a\n---\nb\n"
  {
    hide *;
    PlainText("b\n");
    LoneReturn("b\n");
    PlainFirst("---", ['\r'] + "b\n");
    LoneReturn("---" + (['\r'] + "b\n"));
    PlainFirst("a", ['\r'] + ("---" + (['\r'] + "b\n")));
    assert "a" + (['\n'] + ("---" + (['\n'] + "b\n"))) == "a\n---\nb\n";
  }
}
