/** Where an opening tag ends: at the first bracket outside quotes, in which a backslash takes the next character with it. */
module TagEnds {
  import opened Texts
  import opened TemplateParser

  datatype QuotedPart = Lone(c: char) | Escaped(c: char)

  /** A tag's text is made of characters outside quotes and of quoted stretches. */
  datatype TagPart = Unquoted(c: char) | InQuotes(mark: char, parts: seq<QuotedPart>)

  predicate Mark(c: char) {
    c == '\'' || c == '"'
  }

  function QuotedText(parts: seq<QuotedPart>): string {
    if parts == [] then ""
    else if parts[0].Lone? then [parts[0].c] + QuotedText(parts[1..])
    else ['\\', parts[0].c] + QuotedText(parts[1..])
  }

  function PartText(p: TagPart): string {
    match p
    case Unquoted(c) => [c]
    case InQuotes(mark, parts) => [mark] + (QuotedText(parts) + [mark])
  }

  function TagText(parts: seq<TagPart>): string {
    if parts == [] then "" else PartText(parts[0]) + TagText(parts[1..])
  }

  predicate GoodQuoted(mark: char, parts: seq<QuotedPart>) {
    forall i :: 0 <= i < |parts| && parts[i].Lone? ==> parts[i].c != mark && parts[i].c != '\\'
  }

  predicate GoodPart(p: TagPart) {
    match p
    case Unquoted(c) => !Mark(c) && c != '>'
    case InQuotes(mark, parts) => Mark(mark) && GoodQuoted(mark, parts)
  }

  predicate GoodParts(parts: seq<TagPart>) {
    forall i :: 0 <= i < |parts| ==> GoodPart(parts[i])
  }

  // ---------------------------------------------------------------- one step of the scan

  lemma Outside(c: char, more: string)
    requires !Mark(c) && c != '>'
    ensures TagEnd([c] + more, NONE) == Shift(1, TagEnd(more, NONE))
  {
    assert ([c] + more)[1..] == more;
  }

  lemma Opens(mark: char, more: string)
    requires Mark(mark)
    ensures TagEnd([mark] + more, NONE) == Shift(1, TagEnd(more, mark))
  {
    assert ([mark] + more)[1..] == more;
  }

  lemma Inside(c: char, mark: char, more: string)
    requires Mark(mark) && c != mark && c != '\\'
    ensures TagEnd([c] + more, mark) == Shift(1, TagEnd(more, mark))
  {
    assert ([c] + more)[1..] == more;
  }

  lemma Skips(c: char, mark: char, more: string)
    requires Mark(mark)
    ensures TagEnd(['\\', c] + more, mark) == Shift(2, TagEnd(more, mark))
  {
    assert (['\\', c] + more)[2..] == more;
  }

  lemma Closes(mark: char, more: string)
    requires Mark(mark)
    ensures TagEnd([mark] + more, mark) == Shift(1, TagEnd(more, NONE))
  {
    assert ([mark] + more)[1..] == more;
  }

  // ---------------------------------------------------------------- parts to the end

  lemma {:induction false} ThroughQuotes(mark: char, parts: seq<QuotedPart>, rest: string)
    requires Mark(mark) && GoodQuoted(mark, parts)
    ensures TagEnd(QuotedText(parts) + ([mark] + rest), mark) == Shift(|QuotedText(parts)| + 1, TagEnd(rest, NONE))
    decreases |parts|
  {
    if parts == [] {
      Closes(mark, rest);
      assert QuotedText(parts) + ([mark] + rest) == [mark] + rest;
    } else {
      ThroughQuotes(mark, parts[1..], rest);
      var c, more := parts[0].c, QuotedText(parts[1..]);
      if parts[0].Lone? {
        Inside(c, mark, more + ([mark] + rest));
        Associative([c], more, [mark] + rest);
      } else {
        Skips(c, mark, more + ([mark] + rest));
        Associative(['\\', c], more, [mark] + rest);
      }
    }
  }

  lemma OverPart(p: TagPart, more: string)
    requires GoodPart(p)
    ensures TagEnd(PartText(p) + more, NONE) == Shift(|PartText(p)|, TagEnd(more, NONE))
  {
    match p
    case Unquoted(c) => Outside(c, more);
    case InQuotes(mark, parts) =>
      var quoted := QuotedText(parts);
      ThroughQuotes(mark, parts, more);
      Opens(mark, quoted + ([mark] + more));
      assert PartText(p) + more == [mark] + (quoted + ([mark] + more));
  }

  /** A tag made of such parts ends at the bracket behind them. */
  lemma {:induction false} TagEndsOutside(parts: seq<TagPart>, rest: string)
    requires GoodParts(parts)
    ensures TagEnd(TagText(parts) + (">" + rest), NONE) == |TagText(parts)|
    decreases |parts|
  {
    if parts == [] {
      assert TagText(parts) + (">" + rest) == ">" + rest;
    } else {
      TagEndsOutside(parts[1..], rest);
      OverPart(parts[0], TagText(parts[1..]) + (">" + rest));
      Associative(PartText(parts[0]), TagText(parts[1..]), ">" + rest);
    }
  }

  // ---------------------------------------------------------------- from the end to parts

  lemma LoneFirst(c: char, mark: char, parts: seq<QuotedPart>, tail: string)
    requires GoodQuoted(mark, parts) && c != mark && c != '\\'
    ensures GoodQuoted(mark, [Lone(c)] + parts)
    ensures QuotedText([Lone(c)] + parts) + tail == [c] + (QuotedText(parts) + tail)
    ensures |QuotedText([Lone(c)] + parts)| == 1 + |QuotedText(parts)|
  {
    assert ([Lone(c)] + parts)[1..] == parts;
    Associative([c], QuotedText(parts), tail);
  }

  lemma EscapedFirst(c: char, mark: char, parts: seq<QuotedPart>, tail: string)
    requires GoodQuoted(mark, parts)
    ensures GoodQuoted(mark, [Escaped(c)] + parts)
    ensures QuotedText([Escaped(c)] + parts) + tail == ['\\', c] + (QuotedText(parts) + tail)
    ensures |QuotedText([Escaped(c)] + parts)| == 2 + |QuotedText(parts)|
  {
    assert ([Escaped(c)] + parts)[1..] == parts;
    Associative(['\\', c], QuotedText(parts), tail);
  }

  lemma Cut(s: string)
    requires s != ""
    ensures s == [s[0]] + s[1..]
    ensures |s| > 1 ==> s == [s[0], s[1]] + s[2..]
  {
  }

  /** The quotes close: the stretch up to its mark, and where the tag then ends. */
  ghost predicate ClosesAt(s: string, mark: char, parts: seq<QuotedPart>, rest: string) {
    && GoodQuoted(mark, parts) && s == QuotedText(parts) + ([mark] + rest)
    && TagEnd(rest, NONE) >= 0 && TagEnd(s, mark) == |QuotedText(parts)| + 1 + TagEnd(rest, NONE)
  }

  lemma {:induction false} QuotesClose(s: string, mark: char) returns (parts: seq<QuotedPart>, rest: string)
    requires Mark(mark) && TagEnd(s, mark) >= 0
    ensures ClosesAt(s, mark, parts, rest)
    decreases |s|
  {
    Cut(s);
    var c := s[0];
    if c == mark {
      parts, rest := [], s[1..];
      Closes(mark, rest);
      assert QuotedText([]) + ([mark] + rest) == [mark] + rest;
    } else if c == '\\' {
      Skips(s[1], mark, s[2..]);
      var more;
      more, rest := QuotesClose(s[2..], mark);
      EscapedFirst(s[1], mark, more, [mark] + rest);
      parts := [Escaped(s[1])] + more;
    } else {
      Inside(c, mark, s[1..]);
      var more;
      more, rest := QuotesClose(s[1..], mark);
      LoneFirst(c, mark, more, [mark] + rest);
      parts := [Lone(c)] + more;
    }
  }

  lemma FirstPart(p: TagPart, parts: seq<TagPart>, rest: string)
    requires GoodPart(p) && GoodParts(parts)
    ensures GoodParts([p] + parts) && TagText([p] + parts) + (">" + rest) == PartText(p) + (TagText(parts) + (">" + rest))
  {
    assert ([p] + parts)[1..] == parts;
    Associative(PartText(p), TagText(parts), ">" + rest);
  }

  /** A tag that ends is made of such parts up to its end. */
  lemma {:induction false} TagEndFound(s: string) returns (parts: seq<TagPart>, rest: string)
    requires TagEnd(s, NONE) >= 0
    ensures GoodParts(parts) && s == TagText(parts) + (">" + rest)
    decreases |s|
  {
    var c, more := s[0], s[1..];
    Cut(s);
    if c == '>' {
      parts, rest := [], more;
      assert TagText([]) + (">" + more) == [c] + more;
    } else if Mark(c) {
      Opens(c, more);
      parts, rest := QuotedFirst(c, more);
    } else {
      Outside(c, more);
      parts, rest := TagEndFound(more);
      FirstPart(Unquoted(c), parts, rest);
      parts := [Unquoted(c)] + parts;
    }
  }

  lemma {:induction false} QuotedFirst(mark: char, s: string) returns (parts: seq<TagPart>, rest: string)
    requires Mark(mark) && TagEnd(s, mark) >= 0
    ensures GoodParts(parts) && [mark] + s == TagText(parts) + (">" + rest)
    decreases |s|
  {
    var quoted, behind := QuotesClose(s, mark);
    parts, rest := TagEndFound(behind);
    var p := InQuotes(mark, quoted);
    FirstPart(p, parts, rest);
    Associative([mark], QuotedText(quoted) + [mark], behind);
    Associative(QuotedText(quoted), [mark], behind);
    parts := [p] + parts;
  }
}
