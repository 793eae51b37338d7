/** Character classes, decimal rendering and parsing, and the string helpers the
    application uses (`startsWith`, `includes`, `split`). */
module Text {

  predicate IsDigit(c: char) { '0' <= c <= '9' }
  predicate IsUpper(c: char) { 'A' <= c <= 'Z' }
  predicate IsLower(c: char) { 'a' <= c <= 'z' }
  predicate IsAsciiAlnum(c: char) { IsDigit(c) || IsUpper(c) || IsLower(c) }

  predicate AllDigits(s: string) {
    forall i :: 0 <= i < |s| ==> IsDigit(s[i])
  }

  /** `s` contains a character satisfying `p`, as a regex character class `/[…]/.test(s)` does. */
  predicate HasChar(s: string, p: char -> bool) {
    exists i :: 0 <= i < |s| && p(s[i])
  }

  function DigitChar(d: nat): (c: char)
    requires d < 10
    ensures IsDigit(c)
  {
    ('0' as int + d) as char
  }

  function DigitValue(c: char): (d: nat)
    requires IsDigit(c)
    ensures d < 10 && DigitChar(d) == c
  {
    (c as int - '0' as int) as nat
  }

  /** Decimal rendering of a natural number, without leading zeros (`${n}` in JavaScript,
      `str(n)` in Python). */
  function NatToString(n: nat): (s: string)
    decreases n
  {
    if n < 10 then [DigitChar(n)] else NatToString(n / 10) + [DigitChar(n % 10)]
  }

  /** Decimal rendering of an integer, with a leading '-' when negative. */
  function IntToString(i: int): string {
    if i < 0 then "-" + NatToString(-i) else NatToString(i)
  }

  /** Value of a string of decimal digits (the empty string reads as 0). */
  function ParseNat(s: string): nat
    requires AllDigits(s)
  {
    if |s| == 0 then 0 else 10 * ParseNat(s[..|s| - 1]) + DigitValue(s[|s| - 1])
  }

  lemma {:induction false} NatToStringDigits(n: nat)
    ensures AllDigits(NatToString(n))
    ensures 1 <= |NatToString(n)|
    ensures n < 10 <==> |NatToString(n)| == 1
    decreases n
  {
    if n >= 10 {
      NatToStringDigits(n / 10);
    }
  }

  /** Reading back a rendered number yields the number. */
  lemma {:induction false} ParseNatToString(n: nat)
    ensures AllDigits(NatToString(n))
    ensures ParseNat(NatToString(n)) == n
    decreases n
  {
    NatToStringDigits(n);
    var s := NatToString(n);
    if n >= 10 {
      ParseNatToString(n / 10);
      assert s[..|s| - 1] == NatToString(n / 10);
    }
  }

  /** Rendering is injective, so distinct numbers never display alike. */
  lemma NatToStringInjective(a: nat, b: nat)
    requires NatToString(a) == NatToString(b)
    ensures a == b
  {
    ParseNatToString(a);
    ParseNatToString(b);
  }

  /** JavaScript `padStart(2, '0')` on a rendered natural number. */
  function PadTwo(n: nat): (s: string)
    ensures AllDigits(s)
  {
    NatToStringDigits(n);
    if n < 10 then "0" + NatToString(n) else NatToString(n)
  }

  lemma PadTwoShape(n: nat)
    requires n < 100
    ensures |PadTwo(n)| == 2
    ensures ParseNat(PadTwo(n)) == n
  {
    NatToStringDigits(n);
    ParseNatToString(n);
    if n < 10 {
      assert PadTwo(n) == ['0', DigitChar(n)];
      assert PadTwo(n)[..1] == "0";
    } else {
      NatToStringDigits(n / 10);
    }
  }

  /** `s.startsWith(prefix)` (JavaScript) / `s.startswith(prefix)` (Python). */
  predicate StartsWith(s: string, prefix: string) {
    |prefix| <= |s| && s[..|prefix|] == prefix
  }

  /** `s.includes(part)`: `part` occurs in `s` at some offset; the empty part occurs everywhere. */
  predicate Contains(s: string, part: string) {
    exists k :: 0 <= k <= |s| - |part| && OccursAt(s, part, k)
  }

  predicate OccursAt(s: string, part: string, k: int)
    requires 0 <= k <= |s| - |part|
  {
    s[k..k + |part|] == part
  }

  lemma EmptyContained(s: string)
    ensures Contains(s, "")
  {
    assert OccursAt(s, "", 0);
  }

  /** Index of the first occurrence of `c` in `s`, or |s| when absent. */
  function IndexOf(s: string, c: char): (i: nat)
    ensures i <= |s|
    ensures forall j :: 0 <= j < i ==> s[j] != c
    ensures i < |s| ==> s[i] == c
  {
    if |s| == 0 then 0 else if s[0] == c then 0 else 1 + IndexOf(s[1..], c)
  }

  /** Python `s.split(sep)` for a one-character separator: empty pieces are kept. */
  function Split(s: string, sep: char): (pieces: seq<string>)
    ensures |pieces| >= 1
    decreases |s|
  {
    var i := IndexOf(s, sep);
    if i == |s| then [s] else [s[..i]] + Split(s[i + 1..], sep)
  }

  function Join(pieces: seq<string>, sep: char): string {
    if |pieces| == 0 then ""
    else if |pieces| == 1 then pieces[0]
    else pieces[0] + [sep] + Join(pieces[1..], sep)
  }

  predicate Free(piece: string, sep: char) {
    forall j :: 0 <= j < |piece| ==> piece[j] != sep
  }

  /** Joining the pieces gives back the input. */
  lemma {:induction false} SplitJoin(s: string, sep: char)
    ensures Join(Split(s, sep), sep) == s
    decreases |s|
  {
    var i := IndexOf(s, sep);
    if i < |s| {
      var head, tail := s[..i], s[i + 1..];
      var rest := Split(tail, sep);
      SplitJoin(tail, sep);
      assert Split(s, sep) == [head] + rest;
      JoinCons(head, rest, sep);
      assert s == head + [sep] + tail;
    }
  }

  /** Joining a piece in front of a non-empty list puts one separator between them. */
  lemma JoinCons(head: string, rest: seq<string>, sep: char)
    requires |rest| >= 1
    ensures Join([head] + rest, sep) == head + [sep] + Join(rest, sep)
  {
    assert ([head] + rest)[1..] == rest;
  }

  /** No piece contains the separator. */
  lemma {:induction false} SplitPiecesFree(s: string, sep: char)
    ensures forall k :: 0 <= k < |Split(s, sep)| ==> Free(Split(s, sep)[k], sep)
    decreases |s|
  {
    var i := IndexOf(s, sep);
    if i < |s| {
      SplitPiecesFree(s[i + 1..], sep);
      var rest := Split(s[i + 1..], sep);
      assert Split(s, sep) == [s[..i]] + rest;
    }
  }

  /** The separator found after a separator-free prefix is the one right after it. */
  lemma {:induction false} IndexOfAfterFree(a: string, sep: char, rest: string)
    requires Free(a, sep)
    ensures IndexOf(a + [sep] + rest, sep) == |a|
  {
    var s := a + [sep] + rest;
    if |a| > 0 {
      assert s[1..] == a[1..] + [sep] + rest;
      IndexOfAfterFree(a[1..], sep, rest);
    }
  }

  /** In a separator-free string the search runs to the end. */
  lemma {:induction false} IndexOfFree(s: string, sep: char)
    requires Free(s, sep)
    ensures IndexOf(s, sep) == |s|
    decreases |s|
  {
    if |s| > 0 {
      assert Free(s[1..], sep);
      IndexOfFree(s[1..], sep);
    }
  }

  /** A separator-free string splits into itself alone. */
  lemma SplitFree(s: string, sep: char)
    requires Free(s, sep)
    ensures Split(s, sep) == [s]
  {
    if IndexOf(s, sep) < |s| {
      assert false;
    }
  }

  /** Two separator-free pieces joined by one separator split back into exactly those two. */
  lemma SplitTwo(a: string, b: string, sep: char)
    requires Free(a, sep) && Free(b, sep)
    ensures Split(a + [sep] + b, sep) == [a, b]
  {
    var s := a + [sep] + b;
    IndexOfAfterFree(a, sep, b);
    assert s[..|a|] == a;
    assert s[|a| + 1..] == b;
    SplitFree(b, sep);
  }

  /** A separator-free prefix followed by the separator splits off as the first piece. */
  lemma SplitCons(a: string, rest: string, sep: char)
    requires Free(a, sep)
    ensures Split(a + [sep] + rest, sep) == [a] + Split(rest, sep)
  {
    var s := a + [sep] + rest;
    IndexOfAfterFree(a, sep, rest);
    assert s[..|a|] == a;
    assert s[|a| + 1..] == rest;
  }

  /** Decimal digits are free of any non-digit separator. */
  lemma DigitsFree(s: string, sep: char)
    requires AllDigits(s) && !IsDigit(sep)
    ensures Free(s, sep)
  {
  }

  /** When two strings start with separator-free prefixes followed by the separator and are equal,
      the prefixes are equal. */
  lemma PrefixBeforeSeparator(a: string, b: string, sep: char, x: string, y: string)
    requires Free(a, sep) && Free(b, sep)
    requires a + [sep] + x == b + [sep] + y
    ensures a == b && x == y
  {
    IndexOfAfterFree(a, sep, x);
    IndexOfAfterFree(b, sep, y);
    assert a == (a + [sep] + x)[..|a|];
    assert b == (b + [sep] + y)[..|b|];
    assert x == (a + [sep] + x)[|a| + 1..];
    assert y == (b + [sep] + y)[|b| + 1..];
  }

  /** A text built as `a`, two marker characters, `b` and a closing character determines `a` and
      `b` when `a` cannot contain the first marker. */
  lemma MarkedPairInjective(a1: string, b1: string, a2: string, b2: string, x: char, y: char, z: char)
    requires Free(a1, x) && Free(a2, x)
    requires a1 + [x, y] + b1 + [z] == a2 + [x, y] + b2 + [z]
    ensures a1 == a2 && b1 == b2
  {
    var t1 := [y] + b1 + [z];
    var t2 := [y] + b2 + [z];
    Regroup(a1, x, y, b1, z);
    Regroup(a2, x, y, b2, z);
    PrefixBeforeSeparator(a1, a2, x, t1, t2);
    assert b1 == t1[1..|t1| - 1];
    assert b2 == t2[1..|t2| - 1];
  }

  /** Regrouping `a + "xy" + b + "z"` around its first marker character. */
  lemma Regroup(a: string, x: char, y: char, b: string, z: char)
    ensures a + [x, y] + b + [z] == a + [x] + ([y] + b + [z])
  {
    var l := a + [x, y] + b + [z];
    var r := a + [x] + ([y] + b + [z]);
    assert |l| == |r|;
    forall k | 0 <= k < |l| ensures l[k] == r[k] {
      if k < |a| {
      } else if k == |a| {
      } else if k == |a| + 1 {
      } else if k < |a| + 2 + |b| {
        assert l[k] == b[k - |a| - 2];
      }
    }
  }

  /** The first piece is the text before the first separator; the second, when there is one,
      is the text between the first and the second. */
  lemma SplitHead(s: string, sep: char)
    ensures Split(s, sep)[0] == s[..IndexOf(s, sep)]
    ensures IndexOf(s, sep) < |s| ==> |Split(s, sep)| >= 2 && Split(s, sep)[1] == Split(s[IndexOf(s, sep) + 1..], sep)[0]
  {
  }
}
