/** Decimal text of numbers: `str(n)` for natural numbers, and `int(text)` for ASCII text. */
module Decimals {
  import opened OrderedDicts

  predicate IsDigit(c: char) {
    '0' <= c <= '9'
  }

  function Digit(d: nat): (c: char)
    requires d < 10
    ensures IsDigit(c)
  {
    ('0' as nat + d) as char
  }

  function Decimal(n: nat): (s: string)
    ensures s != [] && forall c :: c in s ==> IsDigit(c)
  {
    if n < 10 then [Digit(n)] else Decimal(n / 10) + [Digit(n % 10)]
  }

  function DigitValue(c: char): (d: nat)
    requires IsDigit(c)
    ensures d < 10 && Digit(d) == c
  {
    c as nat - '0' as nat
  }

  /** The value of a run of digits. */
  function DigitsValue(s: string): nat
    requires forall c :: c in s ==> IsDigit(c)
  {
    if s == [] then 0
    else
      assert s[|s| - 1] in s && forall c :: c in s[..|s| - 1] ==> c in s;
      10 * DigitsValue(s[..|s| - 1]) + DigitValue(s[|s| - 1])
  }

  lemma {:induction false} DecimalRoundTrip(n: nat)
    ensures DigitsValue(Decimal(n)) == n
  {
    var s := Decimal(n);
    if n < 10 {
      assert s[..0] == [];
      assert DigitValue(s[0]) == n;
    } else {
      DecimalRoundTrip(n / 10);
      assert s[..|s| - 1] == Decimal(n / 10);
      assert DigitValue(s[|s| - 1]) == n % 10;
    }
  }

  lemma DecimalInjective(m: nat, n: nat)
    requires Decimal(m) == Decimal(n)
    ensures m == n
  {
    DecimalRoundTrip(m);
    DecimalRoundTrip(n);
  }

  // ---- int(text) ----

  predicate Blank(c: char) {
    c == ' ' || '\t' <= c <= '\r'
  }

  function Stripped(s: string): string {
    if s != [] && Blank(s[0]) then Stripped(s[1..])
    else if s != [] && Blank(s[|s| - 1]) then Stripped(s[..|s| - 1])
    else s
  }

  /** Digits, with single underscores allowed between them. */
  predicate Grouped(s: string) {
    && s != []
    && IsDigit(s[0]) && IsDigit(s[|s| - 1])
    && (forall i :: 0 <= i < |s| ==> IsDigit(s[i]) || s[i] == '_')
    && (forall i :: 0 < i < |s| ==> !(s[i - 1] == '_' && s[i] == '_'))
  }

  function Ungrouped(s: string): (r: string)
    requires forall c :: c in s ==> IsDigit(c) || c == '_'
    ensures forall c :: c in r ==> IsDigit(c)
  {
    if s == [] then []
    else
      assert s[0] in s && forall c :: c in s[1..] ==> c in s;
      (if s[0] == '_' then [] else [s[0]]) + Ungrouped(s[1..])
  }

  /** The interpreter's default limit: `int` refuses more digits than this. */
  const MAX_DIGITS := 4300

  function ParseInt(text: string): Option<int> {
    var s := Stripped(text);
    var negative := s != [] && s[0] == '-';
    var body := if s != [] && (s[0] == '-' || s[0] == '+') then s[1..] else s;
    if !Grouped(body) || |Ungrouped(body)| > MAX_DIGITS then None
    else
      var v: int := DigitsValue(Ungrouped(body));
      Some(if negative then -v else v)
  }

  lemma {:induction false} UngroupedDigits(s: string)
    requires forall c :: c in s ==> IsDigit(c)
    ensures Ungrouped(s) == s
  {
    if s != [] {
      assert s[0] in s && forall c :: c in s[1..] ==> c in s;
      UngroupedDigits(s[1..]);
    }
  }

  lemma PlainDigits(s: string)
    requires s != [] && forall c :: c in s ==> IsDigit(c)
    ensures Stripped(s) == s && Grouped(s) && s[0] != '-' && s[0] != '+'
  {
    assert forall i :: 0 <= i < |s| ==> s[i] in s;
  }

  lemma {:induction false} MoreDigits(m: nat, n: nat)
    requires m <= n
    ensures |Decimal(m)| <= |Decimal(n)|
  {
    if m >= 10 {
      MoreDigits(m / 10, n / 10);
    }
  }

  /** `int(str(n)) == n`, unless there are too many digits. */
  lemma ParseDecimal(n: nat)
    ensures ParseInt(Decimal(n)) == if |Decimal(n)| <= MAX_DIGITS then Some(n) else None
  {
    PlainDigits(Decimal(n));
    UngroupedDigits(Decimal(n));
    DecimalRoundTrip(n);
    hide Decimal, DigitsValue, Ungrouped, Grouped, Stripped;
  }
}
