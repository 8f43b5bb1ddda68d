/** The recursive-descent template parser. Error positions are not part of the model. */
module TemplateParser {
  import opened Letters
  import opened Options
  import opened Texts
  import opened Templates

  datatype ParseError =
    | UnclosedComment | UnclosedInterpolation | UnclosedDeclaration | UnclosedClosingTag | EmptyClosingTag
    | NotATag | UnclosedOpeningTag | EmptyTag
    | UnclosedElement(tag: string) | Mismatch(expected: string, got: string) | Unexpected(tag: string)
    | NoAttributeName | NoAttributeValue(name: string) | UnclosedValue(name: string)

  /** Nodes, the name of the closing tag that ended them ("" at the end of input), and what was not read. */
  datatype Parsed = Done(nodes: seq<Node>, closing: string, rest: string) | Failed(error: ParseError)

  datatype ParsedElement = DoneElement(node: Node, rest: string) | FailedElement(error: ParseError)

  datatype ParsedAttributes = DoneAttributes(attrs: seq<Attribute>) | FailedAttributes(error: ParseError)

  // ---------------------------------------------------------------- scanning

  const NONE: char := '\0'

  /** The position of the '>' that ends a tag, outside quoted values; a backslash in a value skips a character. */
  function TagEnd(s: string, quote: char): (k: int)
    ensures -1 <= k < |s|
    ensures k >= 0 ==> s[k] == '>'
    decreases |s|
  {
    if s == "" then -1
    else if quote != NONE then
      if s[0] == '\\' then (if |s| < 2 then -1 else Shift(2, TagEnd(s[2..], quote)))
      else Shift(1, TagEnd(s[1..], if s[0] == quote then NONE else quote))
    else if s[0] == '\'' || s[0] == '"' then Shift(1, TagEnd(s[1..], s[0]))
    else if s[0] == '>' then 0
    else Shift(1, TagEnd(s[1..], NONE))
  }

  /** The same in the whole text, from position `i`. */
  function EndFrom(source: string, i: nat, quote: char): int {
    if i >= |source| then -1 else Shift(i, TagEnd(source[i..], quote))
  }

  method FindTagEnd(source: string, start: nat) returns (end: int)
    requires start <= |source|
    ensures end == EndFrom(source, start, NONE)
  {
    var quote := NONE;
    var i := start;
    while i < |source|
      invariant start <= i
      invariant EndFrom(source, i, quote) == EndFrom(source, start, NONE)
    {
      var c := source[i];
      EndStep(source, i, quote);
      if quote != NONE {
        if c == '\\' {
          i := i + 2;
          continue;
        }
        if c == quote {
          quote := NONE;
        }
      } else if c == '\'' || c == '"' {
        quote := c;
      } else if c == '>' {
        return i;
      }
      i := i + 1;
    }
    return -1;
  }

  lemma EndStep(source: string, i: nat, quote: char)
    requires i < |source|
    ensures var c, e := source[i], EndFrom(source, i, quote);
            if quote != NONE && c == '\\' then e == EndFrom(source, i + 2, quote)
            else if quote != NONE then e == EndFrom(source, i + 1, if c == quote then NONE else quote)
            else if c == '\'' || c == '"' then e == EndFrom(source, i + 1, c)
            else if c == '>' then e == i
            else e == EndFrom(source, i + 1, NONE)
  {
    assert source[i..][1..] == source[i + 1..];
    if i + 2 <= |source| {
      assert source[i..][2..] == source[i + 2..];
    }
  }

  /** The text in front of the first white space. The program looks at single bytes, so a character with a space byte in
      it ends a word: the program cuts inside the character, the model behind it. */
  function WordLength(s: string): (n: nat)
    ensures n <= |s|
    ensures forall i :: 0 <= i < n ==> !AsciiSpace(s[i])
    ensures s != "" && !AsciiSpace(s[0]) ==> n > 0
  {
    if s == "" || AsciiSpace(s[0]) then 0
    else if HasSpaceByte(s[0]) then 1
    else 1 + WordLength(s[1..])
  }

  function SplitTagName(raw: string): (string, string) {
    (raw[..WordLength(raw)], TrimSpace(raw[WordLength(raw)..]))
  }

  function NameLength(s: string): (n: nat)
    ensures n <= |s|
    ensures forall i :: 0 <= i < n ==> !AsciiSpace(s[i]) && s[i] != '='
  {
    if s == "" || AsciiSpace(s[0]) || s[0] == '=' then 0
    else if HasSpaceByte(s[0]) then 1
    else 1 + NameLength(s[1..])
  }

  function DropSpaces(s: string): string {
    if s != "" && AsciiSpace(s[0]) then DropSpaces(s[1..]) else s
  }

  function NewAttribute(name: string, value: string, boolean: bool): Attribute {
    Attribute(name, value, IsDynamicName(name), IsEventName(name), IsDirectiveName(name), boolean)
  }

  function WithAttribute(a: Attribute, more: ParsedAttributes): ParsedAttributes {
    if more.DoneAttributes? then DoneAttributes([a] + more.attrs) else more
  }

  lemma {:induction false} DropShorter(s: string)
    ensures |DropSpaces(s)| <= |s|
    ensures DropSpaces(s) != "" ==> !AsciiSpace(DropSpaces(s)[0])
  {
    if s != "" && AsciiSpace(s[0]) { DropShorter(s[1..]); }
  }

  function ParseAttributes(input: string): ParsedAttributes
    decreases |input|
  {
    DropShorter(input);
    var s := DropSpaces(input);
    if s == "" then DoneAttributes([])
    else
      var n := NameLength(s);
      var name := s[..n];
      if name == "" then FailedAttributes(NoAttributeName)
      else
        DropShorter(s[n..]);
        var after := DropSpaces(s[n..]);
        if after == "" || after[0] != '=' then WithAttribute(NewAttribute(name, "", true), ParseAttributes(after))
        else
          DropShorter(after[1..]);
          ParseValue(name, DropSpaces(after[1..]))
  }

  function ParseValue(name: string, s: string): ParsedAttributes
    requires s != "" ==> !AsciiSpace(s[0])
    decreases |s|, 1
  {
    if s == "" then FailedAttributes(NoAttributeValue(name))
    else if s[0] == '\'' || s[0] == '"' then
      var k := Index(s[1..], [s[0]]);
      if k < 0 then FailedAttributes(UnclosedValue(name))
      else WithAttribute(NewAttribute(name, s[1..1 + k], false), ParseAttributes(s[k + 2..]))
    else
      var k := WordLength(s);
      WithAttribute(NewAttribute(name, s[..k], false), ParseAttributes(s[k..]))
  }

  // ---------------------------------------------------------------- the grammar

  function Prepend(node: Node, more: Parsed): Parsed {
    if more.Done? then more.(nodes := [node] + more.nodes) else more
  }

  function NewElement(tag: string, selfClosing: bool, attrs: seq<Attribute>, children: seq<Node>): Node {
    Element(tag, IsComponentTag(tag), selfClosing || IsVoidHTMLTag(tag), attrs, children, [], "")
  }

  function TextLength(s: string): (n: nat)
    ensures n <= |s|
    ensures s != "" && s[0] != '<' && !("{{" <= s) ==> n > 0
  {
    if s == "" || s[0] == '<' || "{{" <= s then 0 else 1 + TextLength(s[1..])
  }

  datatype Closing = Closing(name: string, rest: string) | BadClosing(error: ParseError)

  /** The closing tag at the front, and what follows it. */
  function ReadClosing(s: string): (r: Closing)
    requires "</" <= s
    ensures r.Closing? ==> |r.rest| < |s| && r.name != ""
  {
    var k := Index(s, ">");
    if k < 0 then BadClosing(UnclosedClosingTag)
    else
      BracketBehind(s, k);
      var raw := TrimSpace(s[2..k]);
      TrimmedWord(s[2..k]);
      if raw == "" then BadClosing(EmptyClosingTag) else Closing(SplitTagName(raw).0, s[k + 1..])
  }

  lemma BracketBehind(s: string, k: nat)
    requires "</" <= s && k < |s| && s[k..k + 1] == ">"
    ensures k >= 2
  {
    assert s[k] == s[k..k + 1][0] == '>' && s[0] == "</"[0] && s[1] == "</"[1];
  }

  /** The node at the front, and what follows it. */
  function ReadNode(s: string): (r: ParsedElement)
    requires s != ""
    ensures r.DoneElement? ==> |r.rest| <= |s|
    ensures !("</" <= s) && r.DoneElement? ==> |r.rest| < |s|
    decreases |s|, 1
  {
    if "<!--" <= s then
      var k := Index(s[4..], "-->");
      if k < 0 then FailedElement(UnclosedComment) else DoneElement(Comment(s[4..4 + k]), s[k + 7..])
    else if "{{" <= s then
      var k := Index(s[2..], "}}");
      if k < 0 then FailedElement(UnclosedInterpolation) else DoneElement(Interpolation(TrimSpace(s[2..2 + k])), s[k + 4..])
    else if "<!" <= s then
      var k := Index(s, ">");
      if k < 0 then FailedElement(UnclosedDeclaration) else DoneElement(Text(s[..k + 1]), s[k + 1..])
    else if s[0] == '<' then ParseElement(s)
    else DoneElement(Text(s[..TextLength(s)]), s[TextLength(s)..])
  }

  function ParseNodes(s: string, expected: string): (r: Parsed)
    ensures r.Done? ==> |r.rest| <= |s|
    ensures r.Done? && r.closing == "" ==> r.rest == ""
    decreases |s|, 2
  {
    if s == "" then (if expected != "" then Failed(UnclosedElement(expected)) else Done([], "", ""))
    else if "</" <= s then
      var c := ReadClosing(s);
      if c.BadClosing? then Failed(c.error)
      else if expected != "" && !EqualFold(c.name, expected) then Failed(Mismatch(expected, c.name))
      else Done([], c.name, c.rest)
    else
      var n := ReadNode(s);
      if n.FailedElement? then Failed(n.error) else Prepend(n.node, ParseNodes(n.rest, expected))
  }

  /** A trimmed text starts with a word. */
  lemma TrimmedWord(s: string)
    ensures TrimSpace(s) != "" ==> SplitTagName(TrimSpace(s)).0 != ""
  {
    var a, b := TrimParts(s);
  }

  datatype Opening = Opening(tag: string, selfClosing: bool, attrs: seq<Attribute>) | BadOpening(error: ParseError)

  /** The tag and its attributes, without the mark of a self-closing tag. */
  function ReadNames(body: string, selfClosing: bool): Opening {
    var (tag, more) := SplitTagName(body);
    if tag == "" then BadOpening(EmptyTag)
    else
      var attrs := ParseAttributes(more);
      if attrs.FailedAttributes? then BadOpening(attrs.error) else Opening(tag, selfClosing, attrs.attrs)
  }

  /** What stands between the angle brackets of an opening tag. */
  function ReadOpening(inside: string): Opening {
    var raw := TrimSpace(inside);
    if HasSuffix(raw, "/") then ReadNames(TrimSpace(raw[..|raw| - 1]), true) else ReadNames(raw, false)
  }

  /** The text between the angle brackets of the opening tag at the front, and what follows the tag. */
  datatype Tag = Tag(raw: string, rest: string) | NoTag(error: ParseError)

  function FirstTag(s: string): (r: Tag)
    ensures r.Tag? ==> |r.rest| < |s|
  {
    if s == "" || s[0] != '<' then NoTag(NotATag)
    else
      var end := TagEnd(s, NONE);
      if end < 0 then NoTag(UnclosedOpeningTag) else Tag(s[1..end], s[end + 1..])
  }

  function ParseElement(s: string): (r: ParsedElement)
    ensures r.DoneElement? ==> |r.rest| < |s|
    decreases |s|, 0
  {
    var t := FirstTag(s);
    if t.NoTag? then FailedElement(t.error) else ParseBody(ReadOpening(t.raw), t.rest)
  }

  /** The element whose opening tag has been read: a self-closing one has no body. */
  function ParseBody(o: Opening, s: string): (r: ParsedElement)
    ensures r.DoneElement? ==> |r.rest| <= |s|
    decreases |s|, 3
  {
    if o.BadOpening? then FailedElement(o.error)
    else if o.selfClosing || IsVoidHTMLTag(o.tag) then DoneElement(NewElement(o.tag, o.selfClosing, o.attrs, []), s)
    else
      var inner := ParseNodes(s, o.tag);
      if inner.Failed? then FailedElement(inner.error)
      else DoneElement(NewElement(o.tag, false, o.attrs, inner.nodes), inner.rest)
  }

  /** A whole template: its nodes, or the first error. */
  datatype Template = Template(nodes: seq<Node>) | Malformed(error: ParseError)

  function ParseTemplate(source: string): Template {
    var r := ParseNodes(source, "");
    if r.Failed? then Malformed(r.error) else if r.closing != "" then Malformed(Unexpected(r.closing)) else Template(r.nodes)
  }

  // ---------------------------------------------------------------- the parser object

  function Append(nodes: seq<Node>, more: Parsed): Parsed {
    if more.Done? then more.(nodes := nodes + more.nodes) else more
  }

  lemma AppendOne(nodes: seq<Node>, node: Node, more: Parsed)
    ensures Append(nodes, Prepend(node, more)) == Append(nodes + [node], more)
  {
    if more.Done? { Associative(nodes, [node], more.nodes); }
  }

  class Parser {
    const source: string
    var pos: nat

    ghost predicate Valid()
      reads this
    {
      pos <= |source|
    }

    ghost function Rest(): string
      reads this
      requires Valid()
    {
      source[pos..]
    }

    constructor (source: string)
      ensures Valid() && this.source == source && pos == 0
    {
      this.source := source;
      pos := 0;
    }

    /** Parsing ends; it succeeds only when all input has been read. */
    method Parse() returns (result: Template)
      requires Valid() && pos == 0
      modifies this
      ensures Valid()
      ensures result == ParseTemplate(source)
      ensures result.Template? ==> pos == |source|
    {
      var nodes, closing, error := ParseNodeList("");
      assert source[0..] == source;
      if error.Some? {
        return Malformed(error.value);
      }
      if closing != "" {
        return Malformed(Unexpected(closing));
      }
      return Template(nodes);
    }

    method ParseNodeList(expected: string) returns (nodes: seq<Node>, closing: string, error: Option<ParseError>)
      requires Valid()
      modifies this
      ensures Valid() && (error.None? ==> pos >= old(pos))
      ensures var r := ParseNodes(old(Rest()), expected);
              if error.Some? then r == Failed(error.value) else r == Done(nodes, closing, Rest())
      decreases |source| - pos, 2
    {
      nodes, closing, error := [], "", None;
      ghost var whole := Rest();
      assert Append([], ParseNodes(whole, expected)) == ParseNodes(whole, expected);
      while pos < |source|
        invariant Valid() && old(pos) <= pos
        invariant ParseNodes(whole, expected) == Append(nodes, ParseNodes(Rest(), expected))
        invariant error.None? && closing == ""
        decreases |source| - pos
      {
        if "</" <= source[pos..] {
          var name;
          name, error := ParseClosingTag();
          if error.Some? { return; }
          assert nodes + [] == nodes;
          if expected != "" && !EqualFold(name, expected) {
            return [], "", Some(Mismatch(expected, name));
          }
          return nodes, name, None;
        }
        var node;
        node, error := ParseNode();
        if error.Some? { return; }
        AppendOne(nodes, node, ParseNodes(Rest(), expected));
        nodes := nodes + [node];
      }
      assert nodes + [] == nodes;
      if expected != "" {
        return [], "", Some(UnclosedElement(expected));
      }
    }

    /** One node: anything but a closing tag. */
    method ParseNode() returns (node: Node, error: Option<ParseError>)
      requires Valid() && pos < |source| && !("</" <= Rest())
      modifies this
      ensures Valid()
      ensures error.None? ==> pos > old(pos)
      ensures ReadNode(old(Rest())) == if error.Some? then FailedElement(error.value) else DoneElement(node, Rest())
      decreases |source| - pos, 1
    {
      node, error := Text(""), None;
      if "<!--" <= source[pos..] {
        node, error := ParseComment();
        return;
      }
      if "{{" <= source[pos..] {
        node, error := ParseInterpolation();
        return;
      }
      if source[pos] == '<' {
        if "<!" <= source[pos..] {
          var text;
          text, error := ParseDeclaration();
          return Text(text), error;
        }
        var element;
        element, error := ParseElementNode();
        if error.None? {
          node := element.value;
        }
        return;
      }
      var text := ParseText();
      node := Text(text);
    }

    method ParseComment() returns (comment: Node, error: Option<ParseError>)
      requires Valid() && "<!--" <= Rest()
      modifies this
      ensures Valid()
      ensures var s := old(Rest());
              var k := Index(s[4..], "-->");
              if k < 0 then error == Some(UnclosedComment)
              else error.None? && comment == Comment(s[4..4 + k]) && Rest() == s[k + 7..] && pos > old(pos)
    {
      comment, error := Comment(""), None;
      var start := pos + 4;
      var endOffset := Index(source[start..], "-->");
      assert source[pos..][4..] == source[start..];
      if endOffset < 0 {
        return comment, Some(UnclosedComment);
      }
      var end := start + endOffset;
      comment := Comment(source[start..end]);
      pos := end + 3;
    }

    method ParseInterpolation() returns (expr: Node, error: Option<ParseError>)
      requires Valid() && "{{" <= Rest()
      modifies this
      ensures Valid()
      ensures var s := old(Rest());
              var k := Index(s[2..], "}}");
              if k < 0 then error == Some(UnclosedInterpolation)
              else error.None? && expr == Interpolation(TrimSpace(s[2..2 + k])) && Rest() == s[k + 4..] && pos > old(pos)
    {
      expr, error := Interpolation(""), None;
      var start := pos + 2;
      var endOffset := Index(source[start..], "}}");
      assert source[pos..][2..] == source[start..];
      if endOffset < 0 {
        return expr, Some(UnclosedInterpolation);
      }
      var end := start + endOffset;
      assert source[pos..][2..2 + endOffset] == source[start..end];
      expr := Interpolation(TrimSpace(source[start..end]));
      pos := end + 2;
    }

    method ParseDeclaration() returns (text: string, error: Option<ParseError>)
      requires Valid() && pos < |source|
      modifies this
      ensures Valid()
      ensures var s := old(Rest());
              var k := Index(s, ">");
              if k < 0 then error == Some(UnclosedDeclaration)
              else error.None? && text == s[..k + 1] && Rest() == s[k + 1..] && pos > old(pos)
    {
      text, error := "", None;
      var start := pos;
      var end := Index(source[start..], ">");
      if end < 0 {
        return text, Some(UnclosedDeclaration);
      }
      end := end + start;
      pos := end + 1;
      text := source[start..pos];
    }

    method ParseClosingTag() returns (name: string, error: Option<ParseError>)
      requires Valid() && "</" <= Rest()
      modifies this
      ensures Valid()
      ensures ReadClosing(old(Rest())) == if error.Some? then BadClosing(error.value) else Closing(name, Rest())
      ensures error.None? ==> pos > old(pos)
    {
      name, error := "", None;
      var start := pos;
      var end := Index(source[start..], ">");
      if end < 0 {
        return name, Some(UnclosedClosingTag);
      }
      assert source[start..][end] == '>';
      assert source[start..][2..end] == source[start + 2..start + end];
      end := end + start;
      var raw := TrimSpace(source[start + 2..end]);
      if raw == "" {
        return name, Some(EmptyClosingTag);
      }
      name := SplitTagName(raw).0;
      pos := end + 1;
    }

    method ParseText() returns (text: string)
      requires Valid()
      modifies this
      ensures Valid()
      ensures var s := old(Rest()); var n := TextLength(s); text == s[..n] && Rest() == s[n..] && pos == old(pos) + n
    {
      var start := pos;
      while pos < |source|
        invariant start <= pos <= |source|
        invariant TextLength(source[start..]) == pos - start + TextLength(source[pos..])
      {
        if source[pos] == '<' || "{{" <= source[pos..] {
          break;
        }
        assert source[pos..][1..] == source[pos + 1..];
        pos := pos + 1;
      }
      return source[start..pos];
    }

    method ParseElementNode() returns (element: Option<Node>, error: Option<ParseError>)
      requires Valid()
      modifies this
      ensures Valid()
      ensures error.Some? ==> ParseElement(old(Rest())) == FailedElement(error.value)
      ensures error.None? ==> element.Some? && pos > old(pos) && ParseElement(old(Rest())) == DoneElement(element.value, Rest())
      decreases |source| - pos, 0
    {
      element := None;
      var raw;
      raw, error := ReadTag();
      if error.None? {
        var opening := ParseOpening(raw);
        element, error := ParseElementBody(opening);
      }
    }

    method ReadTag() returns (raw: string, error: Option<ParseError>)
      requires Valid()
      modifies this
      ensures Valid()
      ensures error.Some? ==> FirstTag(old(Rest())) == NoTag(error.value)
      ensures error.None? ==> pos > old(pos) && FirstTag(old(Rest())) == Tag(raw, Rest())
    {
      raw, error := "", None;
      if pos >= |source| || source[pos] != '<' {
        return "", Some(NotATag);
      }
      var end := FindTagEnd(source, pos);
      if end < 0 {
        return "", Some(UnclosedOpeningTag);
      }
      TagSlice(source, pos, end);
      raw := source[pos + 1..end];
      pos := end + 1;
    }

    method ParseElementBody(opening: Opening) returns (element: Option<Node>, error: Option<ParseError>)
      requires Valid()
      modifies this
      ensures Valid() && (error.None? ==> pos >= old(pos))
      ensures error.Some? ==> ParseBody(opening, old(Rest())) == FailedElement(error.value)
      ensures error.None? ==> element.Some? && ParseBody(opening, old(Rest())) == DoneElement(element.value, Rest())
      decreases |source| - pos, 3
    {
      element, error := None, None;
      if opening.BadOpening? {
        return None, Some(opening.error);
      }
      if opening.selfClosing || IsVoidHTMLTag(opening.tag) {
        return Some(NewElement(opening.tag, opening.selfClosing, opening.attrs, [])), None;
      }
      var children, closing;
      children, closing, error := ParseNodeList(opening.tag);
      if error.Some? { return None, error; }
      element := Some(NewElement(opening.tag, false, opening.attrs, children));
    }
  }

  lemma TagSlice(source: string, start: nat, end: nat)
    requires start < |source| && source[start] == '<' && end == Shift(start, TagEnd(source[start..], NONE))
    ensures start < end < |source| && FirstTag(source[start..]) == Tag(source[start + 1..end], source[end + 1..])
  {
    assert source[start..][end - start] == '>';
    assert source[start..][1..end - start] == source[start + 1..end];
    assert source[start..][end - start + 1..] == source[end + 1..];
  }

  method ParseOpening(inside: string) returns (opening: Opening)
    ensures opening == ReadOpening(inside)
  {
    var raw := TrimSpace(inside);
    var selfClosing := HasSuffix(raw, "/");
    if selfClosing {
      raw := TrimSpace(raw[..|raw| - 1]);
    }
    assert ReadOpening(inside) == ReadNames(raw, selfClosing);
    var (tag, more) := SplitTagName(raw);
    if tag == "" {
      return BadOpening(EmptyTag);
    }
    var attrs := ParseTemplateAttributes(more);
    if attrs.FailedAttributes? {
      return BadOpening(attrs.error);
    }
    return Opening(tag, selfClosing, attrs.attrs);
  }

  // ---------------------------------------------------------------- the attribute loop

  function AppendAttributes(attrs: seq<Attribute>, more: ParsedAttributes): ParsedAttributes {
    if more.DoneAttributes? then DoneAttributes(attrs + more.attrs) else more
  }

  lemma AppendAttribute(attrs: seq<Attribute>, a: Attribute, more: ParsedAttributes)
    ensures AppendAttributes(attrs, WithAttribute(a, more)) == AppendAttributes(attrs + [a], more)
  {
    if more.DoneAttributes? { Associative(attrs, [a], more.attrs); }
  }

  method SkipSpaces(input: string, start: nat) returns (pos: nat)
    requires start <= |input|
    ensures start <= pos <= |input| && input[pos..] == DropSpaces(input[start..])
    ensures pos < |input| ==> !AsciiSpace(input[pos])
  {
    pos := start;
    while pos < |input| && AsciiSpace(input[pos])
      invariant start <= pos <= |input|
      invariant DropSpaces(input[start..]) == DropSpaces(input[pos..])
    {
      assert input[pos..][1..] == input[pos + 1..];
      pos := pos + 1;
    }
  }

  method ParseTemplateAttributes(input: string) returns (r: ParsedAttributes)
    ensures r == ParseAttributes(input)
  {
    var attrs: seq<Attribute> := [];
    var pos := 0;
    assert input[0..] == input;
    assert AppendAttributes([], ParseAttributes(input)) == ParseAttributes(input);
    while pos < |input|
      invariant pos <= |input|
      invariant ParseAttributes(input) == AppendAttributes(attrs, ParseAttributes(input[pos..]))
    {
      ghost var was := input[pos..];
      pos := SkipSpaces(input, pos);
      DropShorter(was);
      if pos >= |input| {
        break;
      }
      TrimmedAlready(was);
      var attr, next, error := ParseAttribute(input, pos);
      if error.Some? {
        return FailedAttributes(error.value);
      }
      pos := next;
      AppendAttribute(attrs, attr, ParseAttributes(input[pos..]));
      attrs := attrs + [attr];
    }
    assert attrs + [] == attrs;
    return DoneAttributes(attrs);
  }

  lemma TrimmedAlready(s: string)
    ensures ParseAttributes(DropSpaces(s)) == ParseAttributes(s)
  {
    DropShorter(s);
    assert DropSpaces(DropSpaces(s)) == DropSpaces(s);
  }

  /** One turn of the attribute loop, from the first character of a name. */
  lemma AttributeFirst(s: string)
    requires s != "" && !AsciiSpace(s[0])
    ensures var n := NameLength(s);
            var after := DropSpaces(s[n..]);
            ParseAttributes(s) ==
            if n == 0 then FailedAttributes(NoAttributeName)
            else if after == "" || after[0] != '=' then WithAttribute(NewAttribute(s[..n], "", true), ParseAttributes(after))
            else (DropShorter(after[1..]); ParseValue(s[..n], DropSpaces(after[1..])))
  {
    assert DropSpaces(s) == s;
  }

  method ParseAttribute(input: string, start: nat) returns (attr: Attribute, pos: nat, error: Option<ParseError>)
    requires start < |input| && !AsciiSpace(input[start])
    ensures start <= pos <= |input| && (error.None? ==> start < pos)
    ensures ParseAttributes(input[start..]) ==
            if error.Some? then FailedAttributes(error.value) else WithAttribute(attr, ParseAttributes(input[pos..]))
  {
    attr := NewAttribute("", "", true);
    ghost var s := input[start..];
    AttributeFirst(s);
    pos := ScanName(input, start);
    var name := input[start..pos];
    assert s[..pos - start] == name && s[pos - start..] == input[pos..];
    if name == "" {
      return attr, pos, Some(NoAttributeName);
    }
    pos := SkipSpaces(input, pos);
    if pos >= |input| || input[pos] != '=' {
      return NewAttribute(name, "", true), pos, None;
    }
    attr, pos, error := ParseAfterEquals(input, pos, name);
  }

  method ParseAfterEquals(input: string, start: nat, name: string) returns (attr: Attribute, pos: nat, error: Option<ParseError>)
    requires start < |input|
    ensures start < pos <= |input|
    ensures var s := DropSpaces(input[start..][1..]);
            && (s != "" ==> !AsciiSpace(s[0]))
            && ParseValue(name, s) ==
               if error.Some? then FailedAttributes(error.value) else WithAttribute(attr, ParseAttributes(input[pos..]))
  {
    attr, error := NewAttribute(name, "", false), None;
    assert input[start..][1..] == input[start + 1..];
    DropShorter(input[start + 1..]);
    pos := SkipSpaces(input, start + 1);
    if pos >= |input| {
      return attr, pos, Some(NoAttributeValue(name));
    }
    var value, ok;
    value, pos, ok := ScanValue(input, pos, name);
    if !ok {
      return attr, pos, Some(UnclosedValue(name));
    }
    attr := NewAttribute(name, value, false);
  }

  /** The byte before `pos` of the text that is being scanned is white space inside a character. */
  predicate CutBehind(input: string, start: nat, pos: nat)
    requires pos <= |input|
  {
    start < pos && HasSpaceByte(input[pos - 1])
  }

  method ScanName(input: string, start: nat) returns (pos: nat)
    requires start <= |input|
    ensures pos == start + NameLength(input[start..])
  {
    pos := start;
    while pos < |input| && !AsciiSpace(input[pos]) && input[pos] != '=' && !CutBehind(input, start, pos)
      invariant start <= pos <= |input|
      invariant start + NameLength(input[start..]) == pos + if CutBehind(input, start, pos) then 0 else NameLength(input[pos..])
    {
      assert input[pos..][1..] == input[pos + 1..];
      pos := pos + 1;
    }
  }

  method ScanValue(input: string, start: nat, ghost name: string) returns (value: string, pos: nat, ok: bool)
    requires start < |input| && !AsciiSpace(input[start])
    ensures start <= pos <= |input|
    ensures ParseValue(name, input[start..]) ==
            if ok then WithAttribute(NewAttribute(name, value, false), ParseAttributes(input[pos..])) else FailedAttributes(UnclosedValue(name))
    ensures ok ==> pos > start
  {
    if input[start] == '\'' || input[start] == '"' {
      var quote := input[start];
      pos := ScanQuoted(input, start + 1, quote);
      assert input[start..][1..] == input[start + 1..];
      if pos >= |input| {
        return "", pos, false;
      }
      value := input[start + 1..pos];
      pos := pos + 1;
      assert input[start..][1..pos - start - 1] == value && input[start..][pos - start..] == input[pos..];
    } else {
      pos := ScanWord(input, start);
      value := input[start..pos];
      assert input[start..][..pos - start] == value && input[start..][pos - start..] == input[pos..];
    }
    ok := true;
  }

  method ScanQuoted(input: string, start: nat, quote: char) returns (pos: nat)
    requires start <= |input|
    ensures start <= pos <= |input|
    ensures var k := Index(input[start..], [quote]); pos == if k < 0 then |input| else start + k
  {
    pos := start;
    while pos < |input| && input[pos] != quote
      invariant start <= pos <= |input|
      invariant Shift(start, Index(input[start..], [quote])) == Shift(pos, Index(input[pos..], [quote]))
    {
      assert input[pos..][1..] == input[pos + 1..];
      pos := pos + 1;
    }
    if pos < |input| {
      assert [quote] <= input[pos..];
    }
  }

  method ScanWord(input: string, start: nat) returns (pos: nat)
    requires start <= |input|
    ensures pos == start + WordLength(input[start..])
  {
    pos := start;
    while pos < |input| && !AsciiSpace(input[pos]) && !CutBehind(input, start, pos)
      invariant start <= pos <= |input|
      invariant start + WordLength(input[start..]) == pos + if CutBehind(input, start, pos) then 0 else WordLength(input[pos..])
    {
      assert input[pos..][1..] == input[pos + 1..];
      pos := pos + 1;
    }
  }
}
