/** Letter case. ASCII, and the code points beyond it whose other case is in it, are spelled out. The rest of the Unicode
    tables are arbitrary constants, so what is proved holds for every version of them. */
module Letters {
  const UPPER: set<char>
  const LOWERED: map<char, char>
  const UPPERED: map<char, char>
  const FOLDED: map<char, char>

  predicate Ascii(c: char) {
    c < '\U{80}'
  }

  /** A table gives characters beyond ASCII only. */
  function Mapped(table: map<char, char>, c: char): char {
    if c in table && !Ascii(table[c]) then table[c] else c
  }

  predicate IsUpper(c: char) {
    if Ascii(c) then 'A' <= c <= 'Z' else c in UPPER
  }

  function LowerChar(c: char): char {
    if Ascii(c) then (if 'A' <= c <= 'Z' then c - 'A' + 'a' else c)
    else if c == '\U{130}' then 'i'
    else if c == '\U{212A}' then 'k'
    else Mapped(LOWERED, c)
  }

  function Lower(s: string): string {
    seq(|s|, i requires 0 <= i < |s| => LowerChar(s[i]))
  }

  function UpperChar(c: char): char {
    if Ascii(c) then (if 'a' <= c <= 'z' then (c as int - 32) as char else c)
    else if c == '\U{131}' then 'I'
    else if c == '\U{17F}' then 'S'
    else Mapped(UPPERED, c)
  }

  function Upper(s: string): string {
    seq(|s|, i requires 0 <= i < |s| => UpperChar(s[i]))
  }

  /** The same for all characters that are equal up to case. */
  function FoldChar(c: char): char {
    if Ascii(c) then LowerChar(c)
    else if c == '\U{17F}' then 's'
    else if c == '\U{212A}' then 'k'
    else Mapped(FOLDED, c)
  }

  function Folded(s: string): string {
    seq(|s|, i requires 0 <= i < |s| => FoldChar(s[i]))
  }

  predicate EqualFold(a: string, b: string) {
    Folded(a) == Folded(b)
  }
}
