/** Base64 (section 4 of RFC 4648) as the cursor uses it: the standard encoder, and the lenient
    decoder of the program's library, which skips characters outside the alphabet and stops at
    the first complete padding. */
module Base64 {
  import opened OrderedDicts

  /** Bytes and sextets are numbers. */
  type Byte = n: nat | n < 256

  type Sextet = n: nat | n < 64

  function Letter(v: Sextet): char {
    if v < 26 then ('A' as nat + v) as char
    else if v < 52 then ('a' as nat + (v - 26)) as char
    else if v < 62 then ('0' as nat + (v - 52)) as char
    else if v == 62 then '+' else '/'
  }

  function Value(c: char): Option<Sextet> {
    if 'A' <= c <= 'Z' then Some(c as nat - 'A' as nat)
    else if 'a' <= c <= 'z' then Some(c as nat - 'a' as nat + 26)
    else if '0' <= c <= '9' then Some(c as nat - '0' as nat + 52)
    else if c == '+' then Some(62)
    else if c == '/' then Some(63)
    else None
  }

  lemma LetterValue(v: Sextet)
    ensures Value(Letter(v)) == Some(v) && Letter(v) != '=' && Letter(v) as nat < 128
  {
  }

  function Encode(bs: seq<Byte>): (s: string)
    ensures s == [] <==> bs == []
  {
    if bs == [] then ""
    else if |bs| == 1 then [Letter(bs[0] / 4), Letter(bs[0] % 4 * 16), '=', '=']
    else if |bs| == 2 then
      [Letter(bs[0] / 4), Letter(bs[0] % 4 * 16 + bs[1] / 16), Letter(bs[1] % 16 * 4), '=']
    else
      [Letter(bs[0] / 4), Letter(bs[0] % 4 * 16 + bs[1] / 16),
       Letter(bs[1] % 16 * 4 + bs[2] / 64), Letter(bs[2] % 64)] + Encode(bs[3..])
  }

  lemma EncodeGroup(a: Byte, b: Byte, c: Byte, bs: seq<Byte>)
    ensures Encode([a, b, c] + bs) ==
      [Letter(a / 4), Letter(a % 4 * 16 + b / 16), Letter(b % 16 * 4 + c / 64), Letter(c % 64)] + Encode(bs)
  {
    hide Letter;
    assert ([a, b, c] + bs)[3..] == bs;
  }

  lemma GroupOf(a: Byte, b: Byte, c: Byte, bs: seq<Byte>, letters: string)
    requires letters == [Letter(a / 4), Letter(a % 4 * 16 + b / 16), Letter(b % 16 * 4 + c / 64), Letter(c % 64)]
    ensures Encode([a, b, c] + bs) == letters + Encode(bs)
  {
    hide *;
    EncodeGroup(a, b, c, bs);
  }

  /** Vectors of section 10 of RFC 4648, and one with the last two letters of the alphabet. */
  lemma Vectors()
    ensures Encode([]) == "" && Encode([102]) == "Zg==" && Encode([102, 111]) == "Zm8="
    ensures Encode([102, 111, 111] + [98, 97, 114]) == "Zm9v" + "YmFy"
    ensures Encode([251, 255, 254] + []) == "+//+" + ""
  {
    VectorsShort();
    VectorGroups();
    hide *;
    GroupOf(102, 111, 111, [98, 97, 114], "Zm9v");
    GroupOf(98, 97, 114, [], "YmFy");
    GroupOf(251, 255, 254, [], "+//+");
    assert [98, 97, 114] + [] == [98, 97, 114] && "YmFy" + "" == "YmFy";
  }

  lemma VectorsShort()
    ensures Encode([]) == "" && Encode([102]) == "Zg==" && Encode([102, 111]) == "Zm8="
  {
  }

  lemma VectorGroups()
    ensures [Letter(25), Letter(38), Letter(61), Letter(47)] == "Zm9v"
    ensures [Letter(24), Letter(38), Letter(5), Letter(50)] == "YmFy"
    ensures [Letter(62), Letter(63), Letter(63), Letter(62)] == "+//+"
  {
  }

  /** The decoder's state: how many sextets of the current quad it has seen, the bits left over
      from them, and the padding characters since the last sextet. */
  datatype Quad = Quad(seen: nat, left: nat, pads: nat)

  predicate Fits(q: Quad) {
    && q.seen < 4
    && q.left < (match q.seen case 0 => 1 case 1 => 64 case 2 => 16 case _ => 4)
  }

  /** The byte a sextet completes, if any, and the state after it. */
  function Feed(q: Quad, v: Sextet): (r: (seq<Byte>, Quad))
    requires Fits(q)
    ensures Fits(r.1)
  {
    match q.seen
    case 0 => ([], Quad(1, v, 0))
    case 1 => ([q.left * 4 + v / 16], Quad(2, v % 16, 0))
    case 2 => ([q.left * 16 + v / 4], Quad(3, v % 4, 0))
    case _ => ([q.left * 64 + v], Quad(0, 0, 0))
  }

  /** `None` is the decoder's error: text that ends inside a quad. */
  function DecodeFrom(s: string, q: Quad): Option<seq<Byte>>
    requires Fits(q)
  {
    if s == [] then
      if q.seen == 0 then Some([]) else None
    else if s[0] == '=' then
      if q.seen < 2 then DecodeFrom(s[1..], q)
      else if q.seen + q.pads + 1 >= 4 then Some([])
      else DecodeFrom(s[1..], q.(pads := q.pads + 1))
    else
      match Value(s[0])
      case None => DecodeFrom(s[1..], q)
      case Some(v) =>
        var fed := Feed(q, v);
        match DecodeFrom(s[1..], fed.1)
        case None => None
        case Some(rest) => Some(fed.0 + rest)
  }

  /** A character outside ASCII is refused before decoding starts. */
  function Decode(s: string): Option<seq<Byte>> {
    if exists i :: 0 <= i < |s| && s[i] as nat >= 128 then None else DecodeFrom(s, Quad(0, 0, 0))
  }

  /** One letter in front of the rest. */
  lemma DecodeLetter(v: Sextet, s: string, q: Quad)
    requires Fits(q) && DecodeFrom(s, Feed(q, v).1).Some?
    ensures DecodeFrom([Letter(v)] + s, q) == Some(Feed(q, v).0 + DecodeFrom(s, Feed(q, v).1).value)
  {
    LetterValue(v);
    assert ([Letter(v)] + s)[1..] == s;
    hide Feed, Letter, Value;
  }

  lemma DecodePadding(q: Quad)
    requires Fits(q) && 2 <= q.seen && q.pads == 0
    ensures DecodeFrom(if q.seen == 2 then "==" else "=", q) == Some([])
  {
    assert "=="[1..] == "=";
  }

  /** A letter that completes byte `b`. */
  lemma LetterGives(v: Sextet, s: string, q: Quad, b: Byte, next: Quad, rest: seq<Byte>)
    requires Fits(q) && Feed(q, v) == ([b], next) && DecodeFrom(s, next) == Some(rest)
    ensures DecodeFrom([Letter(v)] + s, q) == Some([b] + rest)
  {
    DecodeLetter(v, s, q);
  }

  /** The first letter of a quad completes nothing yet. */
  lemma LetterStarts(v: Sextet, s: string, rest: seq<Byte>)
    requires DecodeFrom(s, Quad(1, v, 0)) == Some(rest)
    ensures DecodeFrom([Letter(v)] + s, Quad(0, 0, 0)) == Some(rest)
  {
    DecodeLetter(v, s, Quad(0, 0, 0));
    assert [] + rest == rest;
  }

  /** What the letters of a group do to the state. */
  lemma FeedGroup(a: Byte, b: Byte, c: Byte)
    ensures a / 4 < 64 && a % 4 * 16 + b / 16 < 64 && b % 16 * 4 + c / 64 < 64
    ensures Fits(Quad(1, a / 4, 0)) && Fits(Quad(2, b / 16, 0)) && Fits(Quad(3, c / 64, 0))
    ensures Feed(Quad(1, a / 4, 0), a % 4 * 16 + b / 16) == ([a], Quad(2, b / 16, 0))
    ensures Feed(Quad(2, b / 16, 0), b % 16 * 4 + c / 64) == ([b], Quad(3, c / 64, 0))
    ensures Feed(Quad(3, c / 64, 0), c % 64) == ([c], Quad(0, 0, 0))
  {
    assert (a % 4 * 16 + b / 16) / 16 == a % 4 && (a % 4 * 16 + b / 16) % 16 == b / 16;
    assert (b % 16 * 4 + c / 64) / 4 == b % 16 && (b % 16 * 4 + c / 64) % 4 == c / 64;
  }

  lemma DecodeGroup(a: Byte, b: Byte, c: Byte, s: string, rest: seq<Byte>)
    requires DecodeFrom(s, Quad(0, 0, 0)) == Some(rest)
    ensures DecodeFrom([Letter(a / 4), Letter(a % 4 * 16 + b / 16), Letter(b % 16 * 4 + c / 64), Letter(c % 64)] + s,
                       Quad(0, 0, 0)) == Some([a, b, c] + rest)
  {
    FeedGroup(a, b, c);
    DecodeLetters(a / 4, a % 4 * 16 + b / 16, b % 16 * 4 + c / 64, c % 64, s,
                  Quad(2, b / 16, 0), Quad(3, c / 64, 0), a, b, c, rest);
  }

  lemma DecodeLetters(v0: Sextet, v1: Sextet, v2: Sextet, v3: Sextet, s: string, q2: Quad, q3: Quad,
                      a: Byte, b: Byte, c: Byte, rest: seq<Byte>)
    requires Fits(Quad(1, v0, 0)) && Fits(q2) && Fits(q3)
    requires Feed(Quad(1, v0, 0), v1) == ([a], q2)
    requires Feed(q2, v2) == ([b], q3)
    requires Feed(q3, v3) == ([c], Quad(0, 0, 0))
    requires DecodeFrom(s, Quad(0, 0, 0)) == Some(rest)
    ensures DecodeFrom([Letter(v0), Letter(v1), Letter(v2), Letter(v3)] + s, Quad(0, 0, 0)) == Some([a, b, c] + rest)
  {
    hide *;
    var s3 := [Letter(v3)] + s;
    var s2 := [Letter(v2)] + s3;
    var s1 := [Letter(v1)] + s2;
    LetterGives(v3, s, q3, c, Quad(0, 0, 0), rest);
    LetterGives(v2, s3, q2, b, q3, [c] + rest);
    LetterGives(v1, s2, Quad(1, v0, 0), a, q2, [b] + ([c] + rest));
    LetterStarts(v0, s1, [a] + ([b] + ([c] + rest)));
    assert [a] + ([b] + ([c] + rest)) == [a, b, c] + rest;
    assert [Letter(v0)] + s1 == [Letter(v0), Letter(v1), Letter(v2), Letter(v3)] + s;
  }

  lemma FeedLast(a: Byte)
    ensures a % 4 * 16 < 64 && Feed(Quad(1, a / 4, 0), a % 4 * 16) == ([a], Quad(2, 0, 0))
    ensures Fits(Quad(1, a / 4, 0)) && Fits(Quad(2, 0, 0))
  {
    assert a % 4 * 16 / 16 == a % 4 && a % 4 * 16 % 16 == 0;
  }

  lemma DecodeOne(a: Byte)
    ensures DecodeFrom([Letter(a / 4), Letter(a % 4 * 16), '=', '='], Quad(0, 0, 0)) == Some([a])
  {
    FeedLast(a);
    DecodePadding(Quad(2, 0, 0));
    DecodeOneLetters(a / 4, a % 4 * 16, a);
  }

  lemma DecodeOneLetters(v0: Sextet, v1: Sextet, a: Byte)
    requires Fits(Quad(1, v0, 0)) && Fits(Quad(2, 0, 0))
    requires Feed(Quad(1, v0, 0), v1) == ([a], Quad(2, 0, 0))
    requires DecodeFrom("==", Quad(2, 0, 0)) == Some([])
    ensures DecodeFrom([Letter(v0), Letter(v1), '=', '='], Quad(0, 0, 0)) == Some([a])
  {
    hide *;
    LetterGives(v1, "==", Quad(1, v0, 0), a, Quad(2, 0, 0), []);
    var s1 := [Letter(v1)] + "==";
    LetterStarts(v0, s1, [a] + []);
    assert [a] + [] == [a];
    assert [Letter(v0)] + s1 == [Letter(v0), Letter(v1), '=', '='];
  }

  lemma DecodeTwo(a: Byte, b: Byte)
    ensures DecodeFrom([Letter(a / 4), Letter(a % 4 * 16 + b / 16), Letter(b % 16 * 4), '='], Quad(0, 0, 0)) == Some([a, b])
  {
    FeedGroup(a, b, 0);
    DecodePadding(Quad(3, 0, 0));
    DecodeTwoLetters(a / 4, a % 4 * 16 + b / 16, b % 16 * 4, Quad(2, b / 16, 0), a, b);
  }

  lemma DecodeTwoLetters(v0: Sextet, v1: Sextet, v2: Sextet, q2: Quad, a: Byte, b: Byte)
    requires Fits(Quad(1, v0, 0)) && Fits(q2)
    requires Feed(Quad(1, v0, 0), v1) == ([a], q2)
    requires Feed(q2, v2) == ([b], Quad(3, 0, 0))
    requires Fits(Quad(3, 0, 0)) && DecodeFrom("=", Quad(3, 0, 0)) == Some([])
    ensures DecodeFrom([Letter(v0), Letter(v1), Letter(v2), '='], Quad(0, 0, 0)) == Some([a, b])
  {
    hide *;
    var s2 := [Letter(v2)] + "=";
    var s1 := [Letter(v1)] + s2;
    LetterGives(v2, "=", q2, b, Quad(3, 0, 0), []);
    LetterGives(v1, s2, Quad(1, v0, 0), a, q2, [b] + []);
    LetterStarts(v0, s1, [a] + ([b] + []));
    assert [a] + ([b] + []) == [a, b];
    assert [Letter(v0)] + s1 == [Letter(v0), Letter(v1), Letter(v2), '='];
  }

  lemma {:induction false} DecodeFromEncode(bs: seq<Byte>)
    ensures DecodeFrom(Encode(bs), Quad(0, 0, 0)) == Some(bs)
  {
    if |bs| <= 2 {
      DecodeShort(bs);
    } else {
      DecodeFromEncode(bs[3..]);
      DecodeGroup(bs[0], bs[1], bs[2], Encode(bs[3..]), bs[3..]);
      hide DecodeFrom, Letter;
      assert bs == [bs[0], bs[1], bs[2]] + bs[3..];
    }
  }

  lemma DecodeShort(bs: seq<Byte>)
    requires |bs| <= 2
    ensures DecodeFrom(Encode(bs), Quad(0, 0, 0)) == Some(bs)
  {
    EncodeShort(bs);
    hide *;
    if bs == [] {
      DecodeNothing();
    } else if |bs| == 1 {
      DecodeOne(bs[0]);
      assert bs == [bs[0]];
    } else {
      DecodeTwo(bs[0], bs[1]);
      assert bs == [bs[0], bs[1]];
    }
  }

  lemma EncodeShort(bs: seq<Byte>)
    ensures bs == [] ==> Encode(bs) == ""
    ensures |bs| == 1 ==> Encode(bs) == [Letter(bs[0] / 4), Letter(bs[0] % 4 * 16), '=', '=']
    ensures |bs| == 2 ==>
      Encode(bs) == [Letter(bs[0] / 4), Letter(bs[0] % 4 * 16 + bs[1] / 16), Letter(bs[1] % 16 * 4), '=']
  {
    hide Letter;
  }

  lemma DecodeNothing()
    ensures DecodeFrom("", Quad(0, 0, 0)) == Some([])
  {
  }

  lemma {:induction false} EncodeIsAscii(bs: seq<Byte>)
    ensures forall i :: 0 <= i < |Encode(bs)| ==> Encode(bs)[i] as nat < 128
  {
    if |bs| > 2 {
      EncodeIsAscii(bs[3..]);
    }
  }

  /** The decoder is lenient: a character outside the alphabet, wherever it stands, changes nothing. */
  lemma {:induction false} OutsidersAreSkipped(s: string, c: char, t: string, q: Quad)
    requires Fits(q) && Value(c) == None && c != '='
    ensures DecodeFrom(s + [c] + t, q) == DecodeFrom(s + t, q)
    decreases |s|
  {
    if s == [] {
      assert s + [c] + t == [c] + t && s + t == t && ([c] + t)[1..] == t;
    } else {
      assert (s + [c] + t)[1..] == s[1..] + [c] + t && (s + t)[1..] == s[1..] + t;
      assert (s + [c] + t)[0] == (s + t)[0] == s[0];
      hide Feed, Value;
      if s[0] == '=' {
        OutsidersAreSkipped(s[1..], c, t, q);
        OutsidersAreSkipped(s[1..], c, t, q.(pads := q.pads + 1));
      } else if Value(s[0]) == None {
        OutsidersAreSkipped(s[1..], c, t, q);
      } else {
        OutsidersAreSkipped(s[1..], c, t, Feed(q, Value(s[0]).value).1);
      }
    }
  }

  /** Every byte string survives encoding and decoding. */
  lemma Base64RoundTrip(bs: seq<Byte>)
    ensures Decode(Encode(bs)) == Some(bs)
  {
    DecodeFromEncode(bs);
    EncodeIsAscii(bs);
  }
}
