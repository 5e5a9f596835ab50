/** Searching and replacing in text, as the string methods of the program's language do, and the
    newline translation its text files are read with. */
module Texts {
  import opened OrderedDicts

  predicate At(s: string, p: string, i: nat) {
    i + |p| <= |s| && s[i..i + |p|] == p
  }

  ghost predicate Contains(s: string, p: string) {
    exists i: nat :: At(s, p, i)
  }

  /** `s.find(p, from)`. */
  function Find(s: string, p: string, from: nat): (r: Option<nat>)
    ensures r.Some? ==> from <= r.value && At(s, p, r.value)
    ensures r.Some? ==> forall i: nat :: from <= i < r.value ==> !At(s, p, i)
    ensures r.None? ==> forall i: nat :: from <= i ==> !At(s, p, i)
    decreases |s| - from
  {
    if from + |p| > |s| then None
    else if At(s, p, from) then Some(from)
    else if from == |s| then None
    else Find(s, p, from + 1)
  }

  /** `s.rfind(p, 0, end)`. */
  function RFind(s: string, p: string, end: nat): (r: Option<nat>)
    ensures r.Some? ==> At(s, p, r.value) && r.value + |p| <= end
    ensures r.Some? ==> forall i: nat :: r.value < i && i + |p| <= end ==> !At(s, p, i)
    ensures r.None? ==> forall i: nat :: i + |p| <= end ==> !At(s, p, i)
    decreases end
  {
    if end < |p| then None
    else if At(s, p, end - |p|) then Some(end - |p|)
    else if end == 0 then None
    else RFind(s, p, end - 1)
  }

  /** `s.replace(p, r, 1)`. */
  function ReplaceFirst(s: string, p: string, r: string): string {
    match Find(s, p, 0)
    case None => s
    case Some(i) => s[..i] + r + s[i + |p|..]
  }

  lemma FindIs(s: string, p: string, from: nat, i: nat)
    requires from <= i && At(s, p, i) && forall j: nat :: from <= j < i ==> !At(s, p, j)
    ensures Find(s, p, from) == Some(i)
  {
  }

  lemma RFindIs(s: string, p: string, end: nat, i: nat)
    requires At(s, p, i) && i + |p| <= end && forall j: nat :: i < j && j + |p| <= end ==> !At(s, p, j)
    ensures RFind(s, p, end) == Some(i)
  {
  }

  /** An occurrence inside a slice is an occurrence in the whole. */
  lemma AtSlice(s: string, p: string, lo: nat, hi: nat, i: nat)
    requires lo <= i && i + |p| <= hi <= |s|
    ensures At(s[lo..hi], p, i - lo) <==> At(s, p, i)
  {
    var a, b := s[lo..hi][i - lo..i - lo + |p|], s[i..i + |p|];
    assert |a| == |b|;
    assert forall k :: 0 <= k < |a| ==> a[k] == b[k];
    assert a == b;
  }

  lemma AtChar(s: string, p: string, i: nat, k: nat)
    requires At(s, p, i) && k < |p|
    ensures i + k < |s| && s[i + k] == p[k]
  {
    assert s[i..i + |p|][k] == p[k];
  }

  // ---- reading a text file ----

  /** What reading a file in text mode makes of its characters: "\r\n" and "\r" become "\n". */
  function Translated(s: string): (r: string)
    ensures '\r' !in r && |r| <= |s|
  {
    if s == [] then []
    else if s[0] != '\r' then [s[0]] + Translated(s[1..])
    else if |s| > 1 && s[1] == '\n' then ['\n'] + Translated(s[2..])
    else ['\n'] + Translated(s[1..])
  }

  /** Text without carriage returns is read as it is, whatever follows. */
  lemma {:induction false} PlainFirst(x: string, y: string)
    requires '\r' !in x
    ensures Translated(x + y) == x + Translated(y)
  {
    if x == [] {
      assert x + y == y;
    } else {
      assert x[0] in x && x == [x[0]] + x[1..];
      PlainFirst(x[1..], y);
      assert (x + y)[1..] == x[1..] + y;
    }
  }

  lemma PlainText(x: string)
    requires '\r' !in x
    ensures Translated(x) == x
  {
    PlainFirst(x, []);
    assert x + [] == x;
  }

  lemma SameIffPlain(s: string)
    ensures Translated(s) == s <==> '\r' !in s
  {
    if '\r' !in s {
      PlainText(s);
    }
  }

  /** How far the first step of the translation reads, and what it yields. */
  function FirstRead(s: string): (n: nat)
    requires s != []
    ensures 1 <= n <= |s|
  {
    if s[0] == '\r' && |s| > 1 && s[1] == '\n' then 2 else 1
  }

  lemma TranslatedStep(s: string)
    requires s != []
    ensures Translated(s) == [if s[0] == '\r' then '\n' else s[0]] + Translated(s[FirstRead(s)..])
  {
  }

  lemma JoinStep(x: string, y: string, rest: string)
    requires x != [] && FirstRead(x + y) == FirstRead(x) && (x + y)[FirstRead(x)..] == rest + y
    requires rest == x[FirstRead(x)..] && Translated(rest + y) == Translated(rest) + Translated(y)
    ensures Translated(x + y) == Translated(x) + Translated(y)
  {
    hide *;
    TranslatedStep(x);
    TranslatedStep(x + y);
    SameHead(x, y);
    Assembled(if x[0] == '\r' then '\n' else x[0], Translated(rest), Translated(y));
  }

  lemma SameHead(x: string, y: string)
    requires x != []
    ensures x + y != [] && (x + y)[0] == x[0]
  {
  }

  lemma Assembled(c: char, a: string, b: string)
    ensures [c] + a + b == [c] + (a + b)
  {
  }

  /** No "\r\n" straddles the joint. */
  ghost predicate Joint(x: string, y: string) {
    x != [] && y != [] && x[|x| - 1] == '\r' ==> y[0] != '\n'
  }

  lemma {:induction false} TranslatedJoin(x: string, y: string)
    requires Joint(x, y)
    ensures Translated(x + y) == Translated(x) + Translated(y)
  {
    hide *;
    if x == [] {
      JoinNothing(y);
    } else {
      SameFirstRead(x, y);
      TranslatedJoin(x[FirstRead(x)..], y);
      JoinStep(x, y, x[FirstRead(x)..]);
    }
  }

  lemma JoinNothing(y: string)
    ensures Translated([] + y) == Translated([]) + Translated(y)
  {
    assert [] + y == y && [] + Translated(y) == Translated(y);
  }

  lemma SameFirstRead(x: string, y: string)
    requires x != [] && Joint(x, y)
    ensures FirstRead(x + y) == FirstRead(x) && (x + y)[FirstRead(x)..] == x[FirstRead(x)..] + y
    ensures Joint(x[FirstRead(x)..], y)
  {
  }

  /** The start of a file is read as it is exactly when it holds no carriage return. */
  lemma PrefixReadsSameIff(s: string, n: nat)
    requires n <= |Translated(s)|
    ensures Translated(s)[..n] == s[..n] <==> '\r' !in s[..n]
  {
    hide Translated;
    var t, x, y := Translated(s), s[..n], s[n..];
    assert forall c :: c in t[..n] ==> c in t;
    if '\r' !in x {
      assert s == x + y;
      PlainFirst(x, y);
      assert (x + Translated(y))[..n] == x;
    }
  }

  lemma {:induction false} PlainLast(x: string, y: string)
    requires '\r' !in y
    ensures |Translated(x + y)| >= |y| && Translated(x + y)[|Translated(x + y)| - |y|..] == y
  {
    if x == [] {
      assert x + y == y;
      PlainText(y);
    } else if x[0] == '\r' && |x + y| > 1 && (x + y)[1] == '\n' {
      if |x| == 1 {
        assert (x + y)[1..] == y && y[0] == '\n' && y == ['\n'] + y[1..];
        PlainText(y[1..]);
        assert (x + y)[2..] == y[1..];
        assert Translated(x + y) == y;
      } else {
        assert (x + y)[2..] == x[2..] + y;
        PlainLast(x[2..], y);
      }
    } else {
      assert (x + y)[1..] == x[1..] + y;
      PlainLast(x[1..], y);
    }
  }

  /** ... and so is its end. */
  lemma SuffixReadsSameIff(s: string, n: nat)
    requires n <= |Translated(s)|
    ensures Translated(s)[|Translated(s)| - n..] == s[|s| - n..] <==> '\r' !in s[|s| - n..]
  {
    var y := s[|s| - n..];
    assert '\r' !in Translated(s)[|Translated(s)| - n..];
    if '\r' !in y {
      assert s == s[..|s| - n] + y;
      PlainLast(s[..|s| - n], y);
    }
  }
}
