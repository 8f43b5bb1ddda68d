/** Text as sequences of Unicode code points: white space and trimming as Go's `strings.TrimSpace` has them, flattening
    a list of texts, searching as `strings.Index` does, and decimal numbers as `strconv.Itoa` writes them. What other
    modules say about texts rests on the uniqueness lemmas here. */
module Texts {

  /** White space as Go's `unicode.IsSpace` has it. */
  predicate IsSpace(c: char) {
    || '\t' <= c <= '\r'
    || c == ' ' || c == '\U{85}' || c == '\U{A0}' || c == '\U{1680}'
    || c == '\U{2028}' || c == '\U{2029}' || c == '\U{202F}' || c == '\U{205F}' || c == '\U{3000}'
    || '\U{2000}' <= c <= '\U{200A}'
  }

  predicate AsciiSpace(c: char) {
    '\t' <= c <= '\r' || c == ' '
  }

  /** One of the bytes behind the first in the character's UTF-8 form is 85 or A0, which a test of single bytes takes for
      white space. */
  predicate HasSpaceByte(c: char) {
    var n := c as int;
    n >= 0x80
    && (n % 64 in {5, 32} || (n >= 0x800 && n / 64 % 64 in {5, 32}) || (n >= 0x10000 && n / 4096 % 64 in {5, 32}))
  }

  predicate Blank(s: string) {
    forall i :: 0 <= i < |s| ==> IsSpace(s[i])
  }

  function TrimLeft(s: string): string {
    if s != "" && IsSpace(s[0]) then TrimLeft(s[1..]) else s
  }

  function TrimRight(s: string): string {
    if s != "" && IsSpace(s[|s| - 1]) then TrimRight(s[..|s| - 1]) else s
  }

  function TrimSpace(s: string): string {
    TrimRight(TrimLeft(s))
  }

  lemma {:induction false} TrimLeftParts(s: string) returns (a: string)
    ensures s == a + TrimLeft(s) && Blank(a)
    ensures TrimLeft(s) != "" ==> !IsSpace(TrimLeft(s)[0])
  {
    if s != "" && IsSpace(s[0]) {
      var a' := TrimLeftParts(s[1..]);
      a := [s[0]] + a';
      assert s == [s[0]] + s[1..];
    } else {
      a := "";
    }
  }

  lemma {:induction false} TrimRightParts(s: string) returns (b: string)
    ensures s == TrimRight(s) + b && Blank(b)
    ensures TrimRight(s) != "" ==> !IsSpace(TrimRight(s)[|TrimRight(s)| - 1])
  {
    if s != "" && IsSpace(s[|s| - 1]) {
      var b' := TrimRightParts(s[..|s| - 1]);
      b := b' + [s[|s| - 1]];
      assert s == s[..|s| - 1] + [s[|s| - 1]];
    } else {
      b := "";
    }
  }

  /** Trimming takes white space off both ends, and what is left starts and ends with something else. */
  lemma TrimParts(s: string) returns (a: string, b: string)
    ensures s == a + TrimSpace(s) + b && Blank(a) && Blank(b)
    ensures s != "" && !IsSpace(s[|s| - 1]) ==> b == ""
    ensures TrimSpace(s) != "" ==> !IsSpace(TrimSpace(s)[0]) && !IsSpace(TrimSpace(s)[|TrimSpace(s)| - 1])
    ensures TrimSpace(s) == "" <==> Blank(s)
  {
    a := TrimLeftParts(s);
    b := TrimRightParts(TrimLeft(s));
    var l, t := TrimLeft(s), TrimSpace(s);
    assert t != "" ==> l[0] == t[0];
    assert l != "" ==> s[|a|] == l[0];
    Associative(a, t, b);
    assert b != "" ==> l[|l| - 1] == b[|b| - 1] && s[|s| - 1] == l[|l| - 1];
  }

  lemma {:induction false} SameMargin(a: string, x: string, b: string, y: string)
    requires a + x == b + y && Blank(a) && Blank(b)
    requires x != "" && !IsSpace(x[0]) && y != "" && !IsSpace(y[0])
    ensures a == b && x == y
    decreases |a|
  {
    var s := a + x;
    assert s[0] == (if a == "" then x[0] else a[0]);
    assert s[0] == (if b == "" then y[0] else b[0]);
    if a == "" {
      assert s == x && s == y;
    } else {
      assert s[1..] == a[1..] + x && s[1..] == b[1..] + y;
      SameMargin(a[1..], x, b[1..], y);
      assert a == [a[0]] + a[1..] && b == [b[0]] + b[1..];
    }
  }

  lemma {:induction false} SameEnd(x: string, a: string, y: string, b: string)
    requires x + a == y + b && Blank(a) && Blank(b)
    requires x != "" && !IsSpace(x[|x| - 1]) && y != "" && !IsSpace(y[|y| - 1])
    ensures x == y
    decreases |a|
  {
    var s := x + a;
    assert s[|s| - 1] == (if a == "" then x[|x| - 1] else a[|a| - 1]);
    assert s[|s| - 1] == (if b == "" then y[|y| - 1] else b[|b| - 1]);
    if a == "" {
      assert s == x && s == y;
    } else {
      assert s[..|s| - 1] == x + a[..|a| - 1] && s[..|s| - 1] == y + b[..|b| - 1];
      SameEnd(x, a[..|a| - 1], y, b[..|b| - 1]);
    }
  }

  /** The trimmed text is the only one with these properties. */
  lemma TrimUnique(a: string, t: string, b: string)
    requires Blank(a) && Blank(b) && t != "" && !IsSpace(t[0]) && !IsSpace(t[|t| - 1])
    ensures TrimSpace(a + t + b) == t
  {
    var s := a + t + b;
    var a', b' := TrimParts(s);
    var t' := TrimSpace(s);
    assert s[|a|] == t[0];
    assert !Blank(s);
    Associative(a, t, b);
    Associative(a', t', b');
    SameMargin(a, t + b, a', t' + b');
    SameEnd(t, b, t', b');
  }

  lemma Associative<T>(a: seq<T>, b: seq<T>, c: seq<T>)
    ensures (a + b) + c == a + (b + c)
  {
  }

  function Flatten<T>(parts: seq<seq<T>>): seq<T> {
    if parts == [] then [] else parts[0] + Flatten(parts[1..])
  }

  lemma {:induction false} FlattenAppend<T>(a: seq<seq<T>>, b: seq<seq<T>>)
    ensures Flatten(a + b) == Flatten(a) + Flatten(b)
  {
    if a == [] {
      assert a + b == b;
    } else {
      FlattenAppend(a[1..], b);
      Associative(a[0], Flatten(a[1..]), Flatten(b));
      assert (a + b)[0] == a[0] && (a + b)[1..] == a[1..] + b;
    }
  }

  lemma FlattenOne<T>(a: seq<T>)
    ensures Flatten([a]) == a
  {
    assert Flatten([a]) == a + Flatten([]);
  }

  /** A text made of words and what stands before, between and behind them. */
  function Interleaved(gaps: seq<string>, words: seq<string>): string
    requires |gaps| == |words| + 1
  {
    if words == [] then gaps[0] else gaps[0] + (words[0] + Interleaved(gaps[1..], words[1..]))
  }

  predicate AllBlank(gaps: seq<string>) {
    forall i :: 0 <= i < |gaps| ==> Blank(gaps[i])
  }

  /** More in front of the first word. */
  lemma WiderGap(front: string, gaps: seq<string>, words: seq<string>)
    requires |gaps| == |words| + 1
    ensures Interleaved([front + gaps[0]] + gaps[1..], words) == front + Interleaved(gaps, words)
  {
    var gaps' := [front + gaps[0]] + gaps[1..];
    if words == [] {
      assert Interleaved(gaps', words) == front + gaps[0];
    } else {
      var rest := words[0] + Interleaved(gaps[1..], words[1..]);
      assert gaps'[1..] == gaps[1..];
      Associative(front, gaps[0], rest);
    }
  }

  lemma OneWordMore(front: string, word: string, gaps: seq<string>, words: seq<string>)
    requires |gaps| == |words| + 1
    ensures Interleaved([front] + gaps, [word] + words) == front + (word + Interleaved(gaps, words))
  {
    assert ([front] + gaps)[1..] == gaps && ([word] + words)[1..] == words;
  }

  // ---------------------------------------------------------------- searching

  /** An offset moved by `k`; -1 stays -1. */
  function Shift(k: nat, n: int): int {
    if n < 0 then -1 else n + k
  }

  /** The first position of `pattern`, or -1. */
  function Index(s: string, pattern: string): (k: int)
    ensures k >= 0 ==> k + |pattern| <= |s| && s[k..k + |pattern|] == pattern
    ensures k >= 0 && |pattern| == 1 ==> s[k] == pattern[0]
    ensures k < 0 ==> k == -1
  {
    if pattern <= s then 0 else if s == "" then -1 else Shift(1, Index(s[1..], pattern))
  }

  predicate Occurs(s: string, pattern: string) {
    Index(s, pattern) >= 0
  }

  /** An occurrence does not move when text is added behind. */
  lemma {:induction false} IndexExtends(s: string, more: string, pattern: string)
    requires Index(s, pattern) >= 0
    ensures Index(s + more, pattern) == Index(s, pattern)
  {
    if pattern <= s {
      assert pattern <= s + more;
    } else {
      assert (s + more)[1..] == s[1..] + more;
      assert (pattern <= s + more) ==> |pattern| <= |s| || Index(s, pattern) < 0 by {
        IndexFits(s, pattern);
      }
      assert |pattern| <= |s| ==> (s + more)[..|pattern|] == s[..|pattern|];
      IndexExtends(s[1..], more, pattern);
    }
  }

  lemma IndexFits(s: string, pattern: string)
    ensures |s| < |pattern| ==> Index(s, pattern) < 0
  {
  }

  /** What does not occur in a text does not occur in its front or back. */
  lemma {:induction false} OccursNowhere(a: string, b: string, pattern: string)
    requires !Occurs(a + b, pattern)
    ensures !Occurs(a, pattern) && !Occurs(b, pattern)
  {
    if Occurs(a, pattern) {
      IndexExtends(a, b, pattern);
    }
    if a == "" {
      assert a + b == b;
    } else {
      assert (a + b)[1..] == a[1..] + b;
      OccursNowhere(a[1..], b, pattern);
    }
  }

  // ---------------------------------------------------------------- decimal numbers

  function Digits(n: nat): string {
    if n < 10 then [('0' as int + n) as char] else Digits(n / 10) + [('0' as int + n % 10) as char]
  }

  lemma {:induction false} DigitsOnly(n: nat)
    ensures Digits(n) != "" && forall i :: 0 <= i < |Digits(n)| ==> '0' <= Digits(n)[i] <= '9'
  {
    if n >= 10 { DigitsOnly(n / 10); }
  }

  function Number(s: string): int {
    if s == "" then 0 else Number(s[..|s| - 1]) * 10 + (s[|s| - 1] as int - '0' as int)
  }

  lemma {:induction false} NumberOfDigits(n: nat)
    ensures Number(Digits(n)) == n
  {
    if n >= 10 {
      NumberOfDigits(n / 10);
      assert Digits(n)[..|Digits(n)| - 1] == Digits(n / 10);
    } else {
      assert Digits(n)[..0] == "";
    }
  }
}
