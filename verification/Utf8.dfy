/** Byte strings as UTF-8. */
module Utf8 {
  type Byte = n: int | 0 <= n < 256

  type Bytes = seq<Byte>

  predicate Continues(b: Byte) {
    0x80 <= b <= 0xBF
  }

  /** The length of the character at the front, 0 if there is none: the table of section 4 of RFC 3629. */
  function Width(s: Bytes): (n: nat)
    ensures n <= |s| && n <= 4
  {
    if s == [] then 0
    else if s[0] < 0x80 then 1
    else if |s| >= 2 && 0xC2 <= s[0] <= 0xDF && Continues(s[1]) then 2
    else if |s| >= 3 && 0xE0 <= s[0] <= 0xEF && Second(s[0], s[1]) && Continues(s[2]) then 3
    else if |s| >= 4 && 0xF0 <= s[0] <= 0xF4 && Second(s[0], s[1]) && Continues(s[2]) && Continues(s[3]) then 4
    else 0
  }

  /** Overlong forms, surrogates and code points out of range are excluded by the second byte. */
  predicate Second(first: Byte, b: Byte) {
    if first == 0xE0 then 0xA0 <= b <= 0xBF
    else if first == 0xED then 0x80 <= b <= 0x9F
    else if first == 0xF0 then 0x90 <= b <= 0xBF
    else if first == 0xF4 then 0x80 <= b <= 0x8F
    else Continues(b)
  }

  /** What a JSON encoder makes of a byte string: the characters, and one mark for every byte that is in none. The mark
      is an escape sequence, so it differs from the replacement character itself. */
  datatype Unit = Char(bytes: Bytes) | Bad

  function Coerce(s: Bytes): seq<Unit>
    decreases |s|
  {
    if s == [] then []
    else if Width(s) == 0 then [Bad] + Coerce(s[1..])
    else [Char(s[..Width(s)])] + Coerce(s[Width(s)..])
  }

  predicate ValidText(s: Bytes) {
    Bad !in Coerce(s)
  }

  const REPLACEMENT: Bytes := [0xEF, 0xBF, 0xBD]

  /** The bytes that a JSON decoder gives back. */
  function Decoded(units: seq<Unit>): Bytes {
    if units == [] then []
    else (if units[0].Char? then units[0].bytes else REPLACEMENT) + Decoded(units[1..])
  }

  function Repaired(s: Bytes): Bytes {
    Decoded(Coerce(s))
  }

  /** The length of the first unit. */
  function Step(s: Bytes): (n: nat)
    requires s != []
    ensures 0 < n <= |s|
  {
    if Width(s) == 0 then 1 else Width(s)
  }

  lemma AlikeInFront(a: Bytes, b: Bytes)
    requires a != [] && b != [] && Coerce(a) == Coerce(b)
    ensures Step(a) == Step(b) && (Width(a) > 0 <==> Width(b) > 0)
    ensures Width(a) > 0 ==> a[..Step(a)] == b[..Step(b)]
    ensures Coerce(a[Step(a)..]) == Coerce(b[Step(b)..])
  {
    CoerceFront(a);
    CoerceFront(b);
  }

  lemma Glued(a: Bytes, b: Bytes, n: nat)
    requires n <= |a| && n <= |b| && a[..n] == b[..n] && a[n..] == b[n..]
    ensures a == b
  {
    assert a == a[..n] + a[n..] && b == b[..n] + b[n..];
  }

  /** Two byte strings that coerce alike have the same length, and are equal as soon as one of them is valid. */
  lemma {:induction false} SameUnits(a: Bytes, b: Bytes)
    requires Coerce(a) == Coerce(b)
    ensures |a| == |b|
    ensures ValidText(a) || ValidText(b) ==> a == b
    decreases |a|
  {
    if a != [] && b != [] {
      AlikeInFront(a, b);
      SameUnits(a[Step(a)..], b[Step(b)..]);
      if ValidText(a) || ValidText(b) {
        CoerceFront(a);
        CoerceFront(b);
        Glued(a, b, Step(a));
      }
    }
  }

  lemma CoerceFront(s: Bytes)
    requires s != []
    ensures var n := Step(s);
            var first := if Width(s) == 0 then Bad else Char(s[..n]);
            && Coerce(s) != [] && Coerce(s)[0] == first && Coerce(s)[1..] == Coerce(s[n..])
            && (ValidText(s) <==> Width(s) > 0 && ValidText(s[n..]))
  {
  }

  lemma WidthOfFront(s: Bytes, t: Bytes)
    requires Width(s) > 0 && Width(s) <= |t| && t[..Width(s)] == s[..Width(s)]
    ensures Width(t) == Width(s)
  {
    assert forall i :: 0 <= i < Width(s) ==> t[i] == t[..Width(s)][i] == s[i];
  }

  lemma SameFront(s: Bytes, t: Bytes)
    requires s != [] && t != [] && Width(s) == Width(t) && t[..Width(s)] == s[..Width(s)]
    requires Coerce(s[Step(s)..]) == Coerce(t[Step(t)..])
    ensures Coerce(s) == Coerce(t)
  {
  }

  /** Every byte string that is not valid has another one that coerces alike: the first byte in no character can be
      changed. */
  lemma {:induction false} Twin(s: Bytes) returns (t: Bytes)
    requires !ValidText(s)
    ensures t != s && Coerce(t) == Coerce(s)
    decreases |s|
  {
    var n := Step(s);
    CoerceFront(s);
    if Width(s) == 0 {
      t := [if s[0] == 0xFF then 0xFE else 0xFF] + s[1..];
      assert t[1..] == s[1..];
    } else {
      var rest := Twin(s[n..]);
      t := s[..n] + rest;
      assert t[..n] == s[..n] && t[n..] == rest;
      WidthOfFront(s, t);
    }
    SameFront(s, t);
  }

  /** A byte string is the only one that coerces as it does if and only if it is valid. */
  lemma AloneIff(s: Bytes)
    ensures ValidText(s) <==> forall t :: Coerce(t) == Coerce(s) ==> t == s
  {
    if ValidText(s) {
      forall t | Coerce(t) == Coerce(s) ensures t == s { SameUnits(t, s); }
    } else {
      var t := Twin(s);
    }
  }

  /** Repairing leaves a byte string as it is if and only if it is valid. */
  lemma {:induction false} RepairedIff(s: Bytes)
    ensures Repaired(s) == s <==> ValidText(s)
    ensures |Repaired(s)| >= |s|
    decreases |s|
  {
    if s != [] {
      var n := Step(s);
      CoerceFront(s);
      RepairedIff(s[n..]);
      var first := if Width(s) == 0 then REPLACEMENT else s[..n];
      assert Repaired(s) == first + Repaired(s[n..]);
      assert s == s[..n] + s[n..];
      if Width(s) > 0 && Repaired(s) == s {
        assert Repaired(s)[n..] == Repaired(s[n..]) && s[n..] == Repaired(s)[n..];
      }
    }
  }
}
