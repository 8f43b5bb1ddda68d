/** Template sources: what the parser makes of every well-formed source, and with which error it refuses one whose tags do
    not pair. Sources are written from trees that record how they are spelled. */
module TemplateSource {
  import opened Letters
  import opened Options
  import opened Texts
  import opened Templates
  import opened TemplateParser
  import TagEnds

  // ---------------------------------------------------------------- how a template is spelled

  /** No white space, neither the character nor one of its bytes, and none of the characters that end a name or a tag. */
  predicate NameChar(c: char) {
    !IsSpace(c) && !HasSpaceByte(c) && c != '=' && c != '>' && c != '"' && c != '\''
  }

  predicate PlainName(s: string) {
    s != "" && (forall i :: 0 <= i < |s| ==> NameChar(s[i])) && s[|s| - 1] != '/'
  }

  /** Read as an attribute value, the text leaves a backslash that would hide the closing quote. */
  predicate Dangles(s: string)
    decreases |s|
  {
    s != "" && (if s[0] == '\\' then |s| == 1 || Dangles(s[2..]) else Dangles(s[1..]))
  }

  predicate Spaces(s: string) {
    forall i :: 0 <= i < |s| ==> AsciiSpace(s[i])
  }

  /** An attribute value in quotes, without them, or missing. */
  datatype Spelling = Quoted(mark: char) | Bare | Missing

  /** `lead` stands in front of the name, `before` and `behind` around the equals sign. */
  datatype Attr = Attr(lead: string, name: string, before: string, behind: string, spelling: Spelling, value: string)

  function ValueText(a: Attr): string {
    match a.spelling
    case Quoted(mark) => [mark] + (a.value + [mark])
    case Bare => a.value
    case Missing => ""
  }

  function AttrTail(a: Attr): string {
    if a.spelling.Missing? then "" else a.before + ("=" + (a.behind + ValueText(a)))
  }

  function AttrText(a: Attr): string {
    a.lead + (a.name + AttrTail(a))
  }

  function AttrsText(attrs: seq<Attr>): string {
    if attrs == [] then "" else AttrText(attrs[0]) + AttrsText(attrs[1..])
  }

  predicate BareChar(c: char) {
    !IsSpace(c) && !HasSpaceByte(c) && c != '>' && c != '"' && c != '\''
  }

  predicate GoodAttr(a: Attr) {
    && a.lead != "" && Spaces(a.lead) && Spaces(a.before) && Spaces(a.behind) && PlainName(a.name)
    && match a.spelling
       case Quoted(mark) => (mark == '"' || mark == '\'') && mark !in a.value && !Dangles(a.value)
       case Bare => a.value != "" && a.value[|a.value| - 1] != '/' && forall i :: 0 <= i < |a.value| ==> BareChar(a.value[i])
       case Missing => a.value == ""
  }

  predicate GoodAttrs(attrs: seq<Attr>) {
    attrs == [] || (GoodAttr(attrs[0]) && GoodAttrs(attrs[1..]))
  }

  predicate Starts(s: string, front: string) {
    |front| <= |s| && s[..|front|] == front
  }

  /** What the attribute means: bound with a colon or v-bind, an event with an at sign or v-on, a directive with any of
      these, a number sign or v-. */
  function AttrMeaning(a: Attr): Attribute {
    Attribute(a.name, a.value,
              Starts(a.name, ":") || Starts(a.name, "v-bind:"),
              Starts(a.name, "@") || Starts(a.name, "v-on:"),
              Starts(a.name, ":") || Starts(a.name, "@") || Starts(a.name, "#") || Starts(a.name, "v-"),
              a.spelling.Missing?)
  }

  function AttrsMeaning(attrs: seq<Attr>): seq<Attribute> {
    if attrs == [] then [] else [AttrMeaning(attrs[0])] + AttrsMeaning(attrs[1..])
  }

  /** `closing` is the name in the closing tag; `trail` stands in front of the end of the opening tag. */
  datatype Source =
    | Words(text: string)
    | Braces(expression: string)
    | Remark(text: string)
    | Declared(text: string)
    | Pair(tag: string, attrs: seq<Attr>, trail: string, children: seq<Source>, closing: string)
    | Single(tag: string, attrs: seq<Attr>, trail: string, slash: bool)

  function Opened(tag: string, attrs: seq<Attr>, trail: string, slash: bool): string {
    "<" + ((tag + (AttrsText(attrs) + (trail + if slash then "/" else ""))) + ">")
  }

  function Closed(name: string): string {
    "</" + (name + ">")
  }

  function Write(s: Source): string
    decreases s, 1
  {
    match s
    case Words(text) => text
    case Braces(e) => "{{" + (e + "}}")
    case Remark(text) => "<!--" + text + "-->"
    case Declared(text) => "<!" + (text + ">")
    case Pair(tag, attrs, trail, children, closing) => Opened(tag, attrs, trail, false) + (WriteAll(children) + Closed(closing))
    case Single(tag, attrs, trail, slash) => Opened(tag, attrs, trail, slash)
  }

  function WriteAll(sources: seq<Source>): string
    decreases sources, 0
  {
    if sources == [] then "" else Write(sources[0]) + WriteAll(sources[1..])
  }

  predicate GoodTag(tag: string) {
    PlainName(tag) && tag[0] != '/' && tag[0] != '!'
  }

  predicate Good(s: Source)
    decreases s, 1
  {
    match s
    case Words(text) => text != "" && !Occurs(text, "<") && !Occurs(text, "{{")
    case Braces(e) => !Occurs(e, "}}") && (e != "" ==> e[|e| - 1] != '}')
    case Remark(text) => !Occurs(text, "-->")
    case Declared(text) => '>' !in text && !Starts(text, "--")
    case Pair(tag, attrs, trail, children, closing) =>
      GoodTag(tag) && !IsVoidHTMLTag(tag) && GoodAttrs(attrs) && Spaces(trail) && GoodAll(children)
      && PlainName(closing) && EqualFold(closing, tag)
    case Single(tag, attrs, trail, slash) =>
      GoodTag(tag) && (slash || IsVoidHTMLTag(tag)) && GoodAttrs(attrs) && Spaces(trail)
  }

  /** A text ends in front of the next node: no other text follows it, and no brace runs into an interpolation. */
  predicate Parts(a: Source, b: Source) {
    a.Words? ==> !b.Words? && (b.Braces? && a.text != "" ==> a.text[|a.text| - 1] != '{')
  }

  predicate GoodAll(sources: seq<Source>)
    decreases sources, 0
  {
    sources == []
    || (Good(sources[0]) && (|sources| > 1 ==> Parts(sources[0], sources[1])) && GoodAll(sources[1..]))
  }

  /** The tree that a source stands for. */
  function Meaning(s: Source): Node
    decreases s, 1
  {
    match s
    case Words(text) => Text(text)
    case Braces(e) => Interpolation(TrimSpace(e))
    case Remark(text) => Comment(text)
    case Declared(text) => Text("<!" + (text + ">"))
    case Pair(tag, attrs, _, children, _) =>
      Element(tag, IsComponentTag(tag), false, AttrsMeaning(attrs), MeaningAll(children), [], "")
    case Single(tag, attrs, _, _) => Element(tag, IsComponentTag(tag), true, AttrsMeaning(attrs), [], [], "")
  }

  function MeaningAll(sources: seq<Source>): seq<Node>
    decreases sources, 0
  {
    if sources == [] then [] else [Meaning(sources[0])] + MeaningAll(sources[1..])
  }

  // ---------------------------------------------------------------- the end of a tag

  /** The quote state after `s`, when `s` contains no unquoted '>' and no dangling backslash. */
  function After(s: string, quote: char): Option<char>
    decreases |s|
  {
    if s == "" then Some(quote)
    else if quote != NONE then
      if s[0] == '\\' then (if |s| < 2 then None else After(s[2..], quote))
      else After(s[1..], if s[0] == quote then NONE else quote)
    else if s[0] == '\'' || s[0] == '"' then After(s[1..], s[0])
    else if s[0] == '>' then None
    else After(s[1..], NONE)
  }

  lemma {:induction false} AfterAppend(a: string, b: string, quote: char)
    requires After(a, quote).Some?
    ensures After(a + b, quote) == After(b, After(a, quote).value)
    decreases |a|
  {
    if a == "" {
      assert a + b == b;
    } else {
      assert (a + b)[0] == a[0] && (a + b)[1..] == a[1..] + b;
      if quote != NONE && a[0] == '\\' {
        assert (a + b)[2..] == a[2..] + b;
        AfterAppend(a[2..], b, quote);
      } else {
        AfterAppend(a[1..], b,
                    if quote != NONE then (if a[0] == quote then NONE else quote)
                    else if a[0] == '\'' || a[0] == '"' then a[0] else NONE);
      }
    }
  }

  lemma {:induction false} TagEndAfter(a: string, b: string, quote: char)
    requires After(a, quote).Some?
    ensures TagEnd(a + b, quote) == Shift(|a|, TagEnd(b, After(a, quote).value))
    decreases |a|
  {
    if a == "" {
      assert a + b == b;
    } else {
      assert (a + b)[0] == a[0] && (a + b)[1..] == a[1..] + b;
      if quote != NONE && a[0] == '\\' {
        assert (a + b)[2..] == a[2..] + b;
        TagEndAfter(a[2..], b, quote);
      } else {
        TagEndAfter(a[1..], b,
                    if quote != NONE then (if a[0] == quote then NONE else quote)
                    else if a[0] == '\'' || a[0] == '"' then a[0] else NONE);
      }
    }
  }

  lemma {:induction false} AfterName(s: string)
    requires forall i :: 0 <= i < |s| ==> NameChar(s[i])
    ensures After(s, NONE) == Some(NONE)
  {
    if s != "" {
      assert NameChar(s[0]);
      AfterName(s[1..]);
    }
  }

  lemma {:induction false} AfterSpaces(s: string)
    requires Spaces(s)
    ensures After(s, NONE) == Some(NONE)
  {
    if s != "" { AfterSpaces(s[1..]); }
  }

  lemma {:induction false} AfterBare(s: string)
    requires forall i :: 0 <= i < |s| ==> BareChar(s[i])
    ensures After(s, NONE) == Some(NONE)
  {
    if s != "" {
      assert BareChar(s[0]);
      AfterBare(s[1..]);
    }
  }

  lemma {:induction false} AfterQuoted(s: string, mark: char)
    requires !Dangles(s) && mark !in s && mark != NONE
    ensures After(s, mark) == Some(mark)
    decreases |s|
  {
    if s != "" {
      assert s[0] in s;
      AfterQuoted(if s[0] == '\\' then s[2..] else s[1..], mark);
    }
  }

  lemma AfterValueText(a: Attr)
    requires GoodAttr(a)
    ensures After(ValueText(a), NONE) == Some(NONE)
  {
    match a.spelling
    case Quoted(mark) =>
      AfterQuoted(a.value, mark);
      assert After([mark], NONE) == Some(mark) && After([mark], mark) == Some(NONE) by { assert [mark][1..] == ""; }
      AfterAppend(a.value, [mark], mark);
      AfterAppend([mark], a.value + [mark], NONE);
    case Bare => AfterBare(a.value);
    case Missing =>
  }

  lemma AfterAttr(a: Attr)
    requires GoodAttr(a)
    ensures After(AttrText(a), NONE) == Some(NONE)
  {
    AfterSpaces(a.lead);
    AfterName(a.name);
    if !a.spelling.Missing? {
      AfterSpaces(a.before);
      AfterSpaces(a.behind);
      AfterValueText(a);
      assert After("=", NONE) == Some(NONE) by { assert "="[1..] == ""; }
      AfterAppend(a.behind, ValueText(a), NONE);
      AfterAppend("=", a.behind + ValueText(a), NONE);
      AfterAppend(a.before, "=" + (a.behind + ValueText(a)), NONE);
    }
    AfterAppend(a.name, AttrTail(a), NONE);
    AfterAppend(a.lead, a.name + AttrTail(a), NONE);
  }

  lemma {:induction false} AfterAttrs(attrs: seq<Attr>)
    requires GoodAttrs(attrs)
    ensures After(AttrsText(attrs), NONE) == Some(NONE)
  {
    if attrs != [] {
      AfterAttr(attrs[0]);
      AfterAttrs(attrs[1..]);
      AfterAppend(AttrText(attrs[0]), AttrsText(attrs[1..]), NONE);
    }
  }

  function Inside(tag: string, attrs: seq<Attr>, trail: string, slash: bool): string {
    tag + (AttrsText(attrs) + (trail + if slash then "/" else ""))
  }

  lemma TagFound(tag: string, attrs: seq<Attr>, trail: string, slash: bool, rest: string)
    requires GoodTag(tag) && GoodAttrs(attrs) && Spaces(trail)
    ensures var inside := Inside(tag, attrs, trail, slash);
            TagEnd("<" + (inside + (">" + rest)), NONE) == |inside| + 1
  {
    var end := if slash then "/" else "";
    var inside := Inside(tag, attrs, trail, slash);
    AfterSpaces(trail);
    assert After(end, NONE) == Some(NONE) by { assert slash ==> "/"[1..] == ""; }
    AfterAppend(trail, end, NONE);
    AfterAttrs(attrs);
    AfterAppend(AttrsText(attrs), trail + end, NONE);
    AfterName(tag);
    AfterAppend(tag, AttrsText(attrs) + (trail + end), NONE);
    EndFound(inside, rest);
  }

  lemma EndFound(inside: string, rest: string)
    requires After(inside, NONE) == Some(NONE)
    ensures TagEnd("<" + (inside + (">" + rest)), NONE) == |inside| + 1
  {
    assert After("<", NONE) == Some(NONE) by { assert "<"[1..] == ""; }
    AfterAppend("<", inside, NONE);
    TagEndAfter("<" + inside, ">" + rest, NONE);
    Associative("<", inside, ">" + rest);
    assert TagEnd(">" + rest, NONE) == 0;
  }

  // ---------------------------------------------------------------- attributes

  lemma {:induction false} NameRead(name: string, rest: string)
    requires (forall i :: 0 <= i < |name| ==> NameChar(name[i]))
    requires rest != "" ==> rest[0] == '=' || AsciiSpace(rest[0])
    ensures NameLength(name + rest) == |name|
  {
    if name == "" {
      assert name + rest == rest;
    } else {
      assert NameChar(name[0]);
      assert (name + rest)[0] == name[0] && (name + rest)[1..] == name[1..] + rest;
      NameRead(name[1..], rest);
    }
  }

  lemma {:induction false} SpacesDropped(s: string, rest: string)
    requires Spaces(s) && (rest != "" ==> !AsciiSpace(rest[0]))
    ensures DropSpaces(s + rest) == rest
  {
    if s == "" {
      assert s + rest == rest;
    } else {
      assert (s + rest)[0] == s[0] && (s + rest)[1..] == s[1..] + rest;
      SpacesDropped(s[1..], rest);
    }
  }

  lemma {:induction false} MarkFound(value: string, mark: char, rest: string)
    requires mark !in value
    ensures Index(value + ([mark] + rest), [mark]) == |value|
  {
    var s := value + ([mark] + rest);
    if value == "" {
      assert s == [mark] + rest;
      assert [mark] <= s;
    } else {
      assert s[0] == value[0] && s[1..] == value[1..] + ([mark] + rest) && value[0] in value;
      assert [mark] <= s <==> s[0] == mark;
      MarkFound(value[1..], mark, rest);
    }
  }

  /** What follows an attribute in a tag: nothing, or white space and the next name. */
  predicate TagRest(rest: string) {
    rest == "" || (AsciiSpace(rest[0]) && (DropSpaces(rest) != "" ==> NameChar(DropSpaces(rest)[0])))
  }

  lemma QuotedRead(name: string, value: string, mark: char, rest: string)
    requires (mark == '"' || mark == '\'') && mark !in value
    ensures ParseValue(name, [mark] + (value + ([mark] + rest))) == WithAttribute(NewAttribute(name, value, false), ParseAttributes(rest))
  {
    var s := [mark] + (value + ([mark] + rest));
    assert s[1..] == value + ([mark] + rest) && [s[0]] == [mark];
    MarkFound(value, mark, rest);
    assert s[1..1 + |value|] == value && s[|value| + 2..] == rest;
  }

  lemma {:induction false} WordRead(word: string, rest: string)
    requires forall i :: 0 <= i < |word| ==> !AsciiSpace(word[i]) && !HasSpaceByte(word[i])
    requires rest != "" ==> AsciiSpace(rest[0])
    ensures WordLength(word + rest) == |word|
  {
    if word == "" {
      assert word + rest == rest;
    } else {
      assert (word + rest)[0] == word[0] && (word + rest)[1..] == word[1..] + rest;
      WordRead(word[1..], rest);
    }
  }

  lemma BareRead(name: string, value: string, rest: string)
    requires value != "" && (forall i :: 0 <= i < |value| ==> BareChar(value[i])) && (rest != "" ==> AsciiSpace(rest[0]))
    ensures (value + rest)[0] == value[0] && !AsciiSpace(value[0])
    ensures ParseValue(name, value + rest) == WithAttribute(NewAttribute(name, value, false), ParseAttributes(rest))
  {
    var s := value + rest;
    assert forall i :: 0 <= i < |value| ==> BareChar(value[i]) ==> !AsciiSpace(value[i]) && !HasSpaceByte(value[i]);
    assert BareChar(value[0]) && s[0] == value[0];
    WordRead(value, rest);
    assert s[..|value|] == value && s[|value|..] == rest;
  }

  lemma ValueRead(a: Attr, rest: string)
    requires GoodAttr(a) && !a.spelling.Missing? && TagRest(rest)
    ensures ValueText(a) + rest != "" && !AsciiSpace((ValueText(a) + rest)[0])
    ensures ParseValue(a.name, ValueText(a) + rest) == WithAttribute(NewAttribute(a.name, a.value, false), ParseAttributes(rest))
  {
    match a.spelling
    case Quoted(mark) =>
      Associative([mark], a.value + [mark], rest);
      Associative(a.value, [mark], rest);
      QuotedRead(a.name, a.value, mark, rest);
    case Bare => BareRead(a.name, a.value, rest);
  }

  lemma NameSplit(name: string, after: string)
    requires PlainName(name) && (after != "" ==> after[0] == '=' || AsciiSpace(after[0]))
    ensures var s := name + after;
            s != "" && NameLength(s) == |name| && s[..|name|] == name && s[|name|..] == after
  {
    NameRead(name, after);
  }

  lemma AttributeWithValue(whole: string, s: string, n: nat, after: string)
    requires DropSpaces(whole) == s && s != "" && n == NameLength(s) > 0
    requires DropSpaces(s[n..]) == after && after != "" && after[0] == '='
    requires DropSpaces(after[1..]) != "" ==> !AsciiSpace(DropSpaces(after[1..])[0])
    ensures ParseAttributes(whole) == ParseValue(s[..n], DropSpaces(after[1..]))
  {
  }

  lemma NameOnly(whole: string, s: string, n: nat)
    requires DropSpaces(whole) == s && s != "" && n == NameLength(s) > 0
    requires var after := DropSpaces(s[n..]); after == "" || after[0] != '='
    ensures ParseAttributes(whole) == WithAttribute(NewAttribute(s[..n], "", true), ParseAttributes(DropSpaces(s[n..])))
  {
    DropShorter(s[n..]);
  }

  lemma SameWithoutSpaces(rest: string)
    ensures ParseAttributes(DropSpaces(rest)) == ParseAttributes(rest)
  {
    TrimmedAlready(rest);
  }

  lemma SameMeaning(a: Attr)
    requires GoodAttr(a)
    ensures AttrMeaning(a) == NewAttribute(a.name, a.value, a.spelling.Missing?)
  {
  }

  lemma AttrRead(a: Attr, rest: string)
    requires GoodAttr(a) && TagRest(rest)
    ensures ParseAttributes(AttrText(a) + rest) == WithAttribute(AttrMeaning(a), ParseAttributes(rest))
  {
    SameMeaning(a);
    assert NameChar(a.name[0]);
    if a.spelling.Missing? {
      assert AttrTail(a) == "" && AttrText(a) == a.lead + a.name by { assert a.name + "" == a.name; }
      Associative(a.lead, a.name, rest);
      SpacesDropped(a.lead, a.name + rest);
      NameSplit(a.name, rest);
      assert DropSpaces(rest) != "" ==> DropSpaces(rest)[0] != '=';
      NameOnly(AttrText(a) + rest, a.name + rest, |a.name|);
      SameWithoutSpaces(rest);
    } else {
      ValuedRead(a, rest);
    }
  }

  lemma ValuedRead(a: Attr, rest: string)
    requires GoodAttr(a) && TagRest(rest) && !a.spelling.Missing?
    ensures ParseAttributes(AttrText(a) + rest) == WithAttribute(NewAttribute(a.name, a.value, false), ParseAttributes(rest))
  {
    var value := ValueText(a) + rest;
    var after := a.before + ("=" + (a.behind + value));
    Regrouped(a, rest);
    ValueRead(a, rest);
    assert NameChar(a.name[0]);
    SpacesDropped(a.lead, a.name + after);
    assert after[0] == if a.before == "" then '=' else a.before[0];
    NameSplit(a.name, after);
    SpacesDropped(a.before, "=" + (a.behind + value));
    var behind := "=" + (a.behind + value);
    assert behind[1..] == a.behind + value;
    SpacesDropped(a.behind, value);
    AttributeWithValue(AttrText(a) + rest, a.name + after, |a.name|, behind);
  }

  lemma Regrouped(a: Attr, rest: string)
    requires !a.spelling.Missing?
    ensures AttrText(a) + rest == a.lead + (a.name + (a.before + ("=" + (a.behind + (ValueText(a) + rest)))))
  {
    Associative(a.behind, ValueText(a), rest);
    Associative("=", a.behind + ValueText(a), rest);
    Associative(a.before, "=" + (a.behind + ValueText(a)), rest);
    Associative(a.name, AttrTail(a), rest);
    Associative(a.lead, a.name + AttrTail(a), rest);
  }

  lemma {:induction false} AttrsRead(attrs: seq<Attr>)
    requires GoodAttrs(attrs)
    ensures ParseAttributes(AttrsText(attrs)) == DoneAttributes(AttrsMeaning(attrs)) && TagRest(AttrsText(attrs))
  {
    if attrs != [] {
      AttrsRead(attrs[1..]);
      AttrRead(attrs[0], AttrsText(attrs[1..]));
      AttrFront(attrs[0], AttrsText(attrs[1..]));
    }
  }

  lemma AttrFront(a: Attr, rest: string)
    requires GoodAttr(a)
    ensures TagRest(AttrText(a) + rest)
    ensures DropSpaces(AttrText(a) + rest) == (a.name + AttrTail(a)) + rest && NameChar(a.name[0])
  {
    assert NameChar(a.name[0]);
    Associative(a.lead, a.name + AttrTail(a), rest);
    SpacesDropped(a.lead, (a.name + AttrTail(a)) + rest);
  }

  // ---------------------------------------------------------------- opening tags

  lemma TrimNothing(s: string)
    requires s != "" && !IsSpace(s[0]) && !IsSpace(s[|s| - 1])
    ensures TrimSpace(s) == s
  {
    TrimUnique("", s, "");
    assert "" + s + "" == s;
  }

  lemma SpacesAreBlank(s: string)
    requires Spaces(s)
    ensures Blank(s)
  {
  }

  lemma AttrEnd(a: Attr)
    requires GoodAttr(a)
    ensures var t := AttrText(a); t != "" && !IsSpace(t[|t| - 1]) && t[|t| - 1] != '/'
  {
    var t := AttrText(a);
    assert NameChar(a.name[|a.name| - 1]);
    match a.spelling
    case Quoted(mark) => assert t[|t| - 1] == mark;
    case Bare =>
      assert BareChar(a.value[|a.value| - 1]);
      assert t[|t| - 1] == a.value[|a.value| - 1];
    case Missing => assert t[|t| - 1] == a.name[|a.name| - 1];
  }

  lemma {:induction false} AttrsEnd(attrs: seq<Attr>)
    requires GoodAttrs(attrs) && attrs != []
    ensures var t := AttrsText(attrs); t != "" && !IsSpace(t[|t| - 1]) && t[|t| - 1] != '/'
  {
    AttrEnd(attrs[0]);
    if |attrs| > 1 {
      AttrsEnd(attrs[1..]);
    } else {
      assert AttrsText(attrs) == AttrText(attrs[0]) + "" == AttrText(attrs[0]);
    }
  }

  /** The tag with its attributes starts and ends in characters that are not trimmed. */
  lemma NamesEnds(tag: string, attrs: seq<Attr>)
    requires GoodTag(tag) && GoodAttrs(attrs)
    ensures var t := tag + AttrsText(attrs); t != "" && !IsSpace(t[0]) && !IsSpace(t[|t| - 1]) && t[|t| - 1] != '/'
  {
    assert NameChar(tag[0]) && NameChar(tag[|tag| - 1]);
    if attrs != [] { AttrsEnd(attrs); } else { assert tag + AttrsText(attrs) == tag; }
  }

  lemma NamesRead(tag: string, attrs: seq<Attr>, selfClosing: bool)
    requires GoodTag(tag) && GoodAttrs(attrs)
    ensures ReadNames(tag + AttrsText(attrs), selfClosing) == Opening(tag, selfClosing, AttrsMeaning(attrs))
  {
    var m := AttrsText(attrs);
    AttrsRead(attrs);
    WordRead(tag, m);
    assert (tag + m)[..|tag|] == tag && (tag + m)[|tag|..] == m;
    TrimAttrs(attrs);
  }

  lemma TrimAttrs(attrs: seq<Attr>)
    requires GoodAttrs(attrs)
    ensures ParseAttributes(TrimSpace(AttrsText(attrs))) == ParseAttributes(AttrsText(attrs))
  {
    var m := AttrsText(attrs);
    if attrs != [] {
      var a, rest := attrs[0], AttrsText(attrs[1..]);
      AttrsEnd(attrs);
      AttrFront(a, rest);
      var names := (a.name + AttrTail(a)) + rest;
      Associative(a.lead, a.name + AttrTail(a), rest);
      SpacesAreBlank(a.lead);
      assert names[0] == a.name[0] && m[|m| - 1] == names[|names| - 1];
      TrimUnique(a.lead, names, "");
      assert a.lead + names + "" == m;
      SameWithoutSpaces(m);
    }
  }

  lemma TrimTrail(names: string, trail: string)
    requires names != "" && !IsSpace(names[0]) && !IsSpace(names[|names| - 1]) && Spaces(trail)
    ensures TrimSpace(names + trail) == names
  {
    SpacesAreBlank(trail);
    TrimUnique("", names, trail);
    assert "" + names + trail == names + trail;
  }

  lemma InsideText(tag: string, attrs: seq<Attr>, trail: string, slash: bool)
    ensures Inside(tag, attrs, trail, slash) == ((tag + AttrsText(attrs)) + trail) + if slash then "/" else ""
  {
    var end := if slash then "/" else "";
    Associative(tag, AttrsText(attrs), trail + end);
    Associative(tag + AttrsText(attrs), trail, end);
  }

  lemma OpeningRead(tag: string, attrs: seq<Attr>, trail: string, slash: bool)
    requires GoodTag(tag) && GoodAttrs(attrs) && Spaces(trail)
    ensures ReadOpening(Inside(tag, attrs, trail, slash)) == Opening(tag, slash, AttrsMeaning(attrs))
  {
    var names := tag + AttrsText(attrs);
    InsideText(tag, attrs, trail, slash);
    NamesEnds(tag, attrs);
    NamesRead(tag, attrs, slash);
    TrimTrail(names, trail);
    PaddedRead(names + trail, names, slash);
  }

  lemma PaddedRead(padded: string, names: string, slash: bool)
    requires padded != "" && !IsSpace(padded[0]) && TrimSpace(padded) == names && names != "" && names[|names| - 1] != '/'
    ensures ReadOpening(padded + if slash then "/" else "") == ReadNames(names, slash)
  {
    if slash {
      SlashRead(padded, names);
    } else {
      NoSlashRead(padded, names);
      assert padded + "" == padded;
    }
  }

  lemma SlashRead(padded: string, names: string)
    requires padded != "" && !IsSpace(padded[0]) && TrimSpace(padded) == names
    ensures ReadOpening(padded + "/") == ReadNames(names, true)
  {
    var raw := padded + "/";
    TrimNothing(raw);
    assert raw[|raw| - 1..] == "/" && raw[..|raw| - 1] == padded;
  }

  lemma NoSlashRead(padded: string, names: string)
    requires TrimSpace(padded) == names && names != "" && names[|names| - 1] != '/'
    ensures ReadOpening(padded) == ReadNames(names, false)
  {
    assert names[|names| - 1..] == [names[|names| - 1]];
  }

  lemma ElementAt(s: string, inside: string, rest: string)
    requires s == "<" + (inside + (">" + rest)) && TagEnd(s, NONE) == |inside| + 1
    ensures ParseElement(s) == ParseBody(ReadOpening(inside), rest)
  {
    TagSlices(inside, rest);
  }

  lemma TagSlices(inside: string, rest: string)
    ensures var s := "<" + (inside + (">" + rest));
            s != "" && s[0] == '<' && |s| > |inside| + 1 && s[1..|inside| + 1] == inside && s[|inside| + 1 + 1..] == rest
  {
  }

  lemma OpenedFirst(tag: string, attrs: seq<Attr>, trail: string, slash: bool, rest: string)
    requires GoodTag(tag) && GoodAttrs(attrs) && Spaces(trail)
    ensures ParseElement(Opened(tag, attrs, trail, slash) + rest) == ParseBody(Opening(tag, slash, AttrsMeaning(attrs)), rest)
    ensures var s := Opened(tag, attrs, trail, slash) + rest; |s| > 1 && s[0] == '<' && s[1] == tag[0]
  {
    var inside := Inside(tag, attrs, trail, slash);
    TagFound(tag, attrs, trail, slash, rest);
    OpeningRead(tag, attrs, trail, slash);
    Associative("<", inside + ">", rest);
    Associative(inside, ">", rest);
    assert inside[0] == tag[0];
    ElementAt("<" + (inside + (">" + rest)), inside, rest);
  }

  // ---------------------------------------------------------------- closing tags

  lemma BracketLater(c: char, s: string)
    requires c != '>'
    ensures Index([c] + s, ">") == Shift(1, Index(s, ">"))
  {
    assert ([c] + s)[0] == c && ([c] + s)[1..] == s;
  }

  lemma {:induction false} NoClosingBracket(name: string, rest: string)
    requires forall i :: 0 <= i < |name| ==> NameChar(name[i])
    ensures Index(name + (">" + rest), ">") == |name|
  {
    var s := name + (">" + rest);
    if name == "" {
      assert s == ">" + rest;
      assert ">" <= s;
    } else {
      assert NameChar(name[0]) && s[0] == name[0] && s[1..] == name[1..] + (">" + rest);
      NoClosingBracket(name[1..], rest);
    }
  }

  lemma ClosingFound(name: string, rest: string)
    requires PlainName(name)
    ensures Index("</" + (name + (">" + rest)), ">") == |name| + 2
  {
    var t := name + (">" + rest);
    NoClosingBracket(name, rest);
    BracketLater('/', t);
    BracketLater('<', ['/'] + t);
    Associative(['<'], ['/'], t);
    assert "</" == ['<'] + ['/'];
  }

  lemma ClosingName(name: string)
    requires PlainName(name)
    ensures TrimSpace(name) == name && SplitTagName(name).0 == name
  {
    assert NameChar(name[0]) && NameChar(name[|name| - 1]);
    TrimNothing(name);
    WordRead(name, "");
    assert name + "" == name;
  }

  lemma ClosedText(name: string, rest: string)
    ensures Closed(name) + rest == "</" + (name + (">" + rest))
    ensures Closed(name) + rest != "" && "</" <= Closed(name) + rest && (Closed(name) + rest)[0] == '<'
  {
    Associative("</", name + ">", rest);
    Associative(name, ">", rest);
  }

  lemma ClosingRead(name: string, rest: string)
    requires PlainName(name)
    ensures "</" <= Closed(name) + rest && ReadClosing(Closed(name) + rest) == Closing(name, rest)
  {
    var s := "</" + (name + (">" + rest));
    ClosedText(name, rest);
    ClosingFound(name, rest);
    assert s[2..|name| + 2] == name && s[|name| + 3..] == rest;
    ClosingName(name);
  }

  /** A closing tag ends the list, or is refused. */
  lemma ClosingDecides(name: string, rest: string, expected: string)
    requires PlainName(name)
    ensures ParseNodes(Closed(name) + rest, expected) ==
            if expected == "" || EqualFold(name, expected) then Done([], name, rest) else Failed(Mismatch(expected, name))
  {
    ClosedText(name, rest);
    ClosingRead(name, rest);
  }

  // ---------------------------------------------------------------- nodes

  lemma {:induction false} OccursLater(s: string, pattern: string)
    requires s != "" && !Occurs(s, pattern)
    ensures !Occurs(s[1..], pattern) && !(pattern <= s)
  {
  }

  /** A text is read up to a tag, or to an interpolation that its last brace does not run into. */
  lemma {:induction false} TextRead(t: string, rest: string)
    requires !Occurs(t, "<") && !Occurs(t, "{{")
    requires rest != "" ==> rest[0] == '<' || (|rest| > 1 && rest[0] == rest[1] == '{' && (t != "" ==> t[|t| - 1] != '{'))
    ensures TextLength(t + rest) == |t|
  {
    var s := t + rest;
    if t == "" {
      assert s == rest;
      TwoBraces(s);
    } else {
      OccursLater(t, "<");
      OccursLater(t, "{{");
      assert s[0] == t[0] && s[1..] == t[1..] + rest;
      assert ("<" <= t) <==> t[0] == '<';
      TwoBraces(s);
      TwoBraces(t);
      assert |s| > 1 ==> s[1] == if |t| > 1 then t[1] else rest[0];
      TextRead(t[1..], rest);
    }
  }

  lemma TwoBraces(s: string)
    ensures ("{{" <= s) <==> |s| > 1 && s[0] == '{' && s[1] == '{'
  {
  }

  lemma CommentMark(s: string)
    ensures ("-->" <= s) <==> |s| > 2 && s[0] == '-' && s[1] == '-' && s[2] == '>'
  {
  }

  lemma {:induction false} CommentEnd(t: string, rest: string)
    requires !Occurs(t, "-->")
    ensures Index(t + ("-->" + rest), "-->") == |t|
  {
    var s := t + ("-->" + rest);
    if t == "" {
      assert s == "-->" + rest;
      assert "-->" <= s;
    } else {
      OccursLater(t, "-->");
      assert s[0] == t[0] && s[1..] == t[1..] + ("-->" + rest);
      assert |t| <= 2 ==> s[2] == '-';
      assert |t| > 2 ==> s[1] == t[1] && s[2] == t[2];
      CommentMark(s);
      CommentMark(t);
      CommentEnd(t[1..], rest);
    }
  }

  lemma {:induction false} BracesEnd(e: string, rest: string)
    requires !Occurs(e, "}}") && (e != "" ==> e[|e| - 1] != '}')
    ensures Index(e + ("}}" + rest), "}}") == |e|
  {
    var s := e + ("}}" + rest);
    if e == "" {
      assert s == "}}" + rest;
      assert "}}" <= s;
    } else {
      OccursLater(e, "}}");
      assert s[0] == e[0] && s[1..] == e[1..] + ("}}" + rest);
      assert s[1] == if |e| > 1 then e[1] else '}';
      assert ("}}" <= s) <==> s[0] == '}' && s[1] == '}';
      assert ("}}" <= e) <==> |e| > 1 && e[0] == '}' && e[1] == '}';
      BracesEnd(e[1..], rest);
    }
  }

  /** What is already read of an element list never depends on what follows it. */
  function PrependAll(nodes: seq<Node>, more: Parsed): Parsed {
    if more.Done? then more.(nodes := nodes + more.nodes) else more
  }

  lemma PrependFirst(node: Node, nodes: seq<Node>, more: Parsed)
    ensures Prepend(node, PrependAll(nodes, more)) == PrependAll([node] + nodes, more)
  {
    if more.Done? { Associative([node], nodes, more.nodes); }
  }

  /** The node at the front is read, the rest is parsed behind it. */
  lemma NodeNext(s: string, node: Node, rest: string, expected: string)
    requires s != "" && !("</" <= s) && ReadNode(s) == DoneElement(node, rest)
    ensures ParseNodes(s, expected) == Prepend(node, ParseNodes(rest, expected))
  {
  }

  lemma NotClosing(s: string)
    requires s != "" && (s[0] == '<' ==> |s| > 1 && s[1] != '/')
    ensures !("</" <= s)
  {
    assert "</"[0] == '<' && "</"[1] == '/';
  }

  lemma WordsRead(t: string, rest: string, expected: string)
    requires Good(Words(t))
    requires rest != "" ==> rest[0] == '<' || (|rest| > 1 && rest[0] == rest[1] == '{' && t[|t| - 1] != '{')
    ensures ParseNodes(t + rest, expected) == Prepend(Text(t), ParseNodes(rest, expected))
  {
    var s := t + rest;
    TextRead(t, rest);
    OccursLater(t, "<");
    OccursLater(t, "{{");
    assert ("<" <= t) <==> t[0] == '<';
    TwoBraces(s);
    TwoBraces(t);
    assert s[0] == t[0] && (|s| > 1 ==> s[1] == if |t| > 1 then t[1] else rest[0]);
    assert s[..|t|] == t && s[|t|..] == rest;
    NotClosing(s);
    assert "<!--"[0] == '<' && "<!"[0] == '<';
    NodeNext(s, Text(t), rest, expected);
  }

  lemma BracesRead(e: string, rest: string, expected: string)
    requires Good(Braces(e))
    ensures ParseNodes("{{" + (e + "}}") + rest, expected) == Prepend(Interpolation(TrimSpace(e)), ParseNodes(rest, expected))
  {
    var s := "{{" + (e + "}}") + rest;
    BracesParts(e, rest);
    BracesEnd(e, rest);
    NotClosing(s);
    assert "<!--"[0] == '<';
    NodeNext(s, Interpolation(TrimSpace(e)), rest, expected);
  }

  lemma BracesParts(e: string, rest: string)
    ensures var s := "{{" + (e + "}}") + rest;
            && s[0] == '{' && "{{" <= s && s[2..] == e + ("}}" + rest)
            && s[2..2 + |e|] == e && s[|e| + 4..] == rest
  {
    Associative("{{", e + "}}", rest);
    Associative(e, "}}", rest);
  }

  lemma CommentRead(t: string, rest: string, expected: string)
    requires !Occurs(t, "-->")
    ensures ParseNodes("<!--" + t + "-->" + rest, expected) == Prepend(Comment(t), ParseNodes(rest, expected))
  {
    var s := "<!--" + t + "-->" + rest;
    assert s[1] == '!' && "</"[1] == '/';
    CommentParts(t, rest);
    CommentEnd(t, rest);
  }

  lemma CommentParts(t: string, rest: string)
    ensures var s := "<!--" + t + "-->" + rest;
            && s == "<!--" + (t + ("-->" + rest)) && s[4..] == t + ("-->" + rest)
            && s[4..4 + |t|] == t && s[|t| + 7..] == rest
  {
  }

  lemma DeclaredRead(t: string, rest: string, expected: string)
    requires Good(Declared(t))
    ensures ParseNodes("<!" + (t + ">") + rest, expected) == Prepend(Text("<!" + (t + ">")), ParseNodes(rest, expected))
  {
    var s := "<!" + (t + ">") + rest;
    DeclaredParts(t, rest);
    DeclaredEnd(t, rest);
    NotClosing(s);
    assert "{{"[0] == '{';
    NodeNext(s, Text("<!" + (t + ">")), rest, expected);
  }

  lemma DeclaredParts(t: string, rest: string)
    requires !Starts(t, "--") && '>' !in t
    ensures var s := "<!" + (t + ">") + rest;
            && s[0] == '<' && s[1] == '!' && "<!" <= s && !("<!--" <= s)
            && s[..|t| + 3] == "<!" + (t + ">") && s[|t| + 3..] == rest
  {
    var s := "<!" + (t + ">") + rest;
    assert ("<!--" <= s) <==> |s| > 3 && s[2] == '-' && s[3] == '-';
    assert s[2] == if |t| > 0 then t[0] else '>';
    assert |t| > 0 ==> s[3] == if |t| > 1 then t[1] else '>';
    assert |t| > 1 ==> t[..2] == [t[0], t[1]];
  }

  lemma DeclaredEnd(t: string, rest: string)
    requires '>' !in t
    ensures Index("<!" + (t + ">") + rest, ">") == |t| + 2
  {
    MarkFound(t, '>', rest);
    BracketLater('!', t + (">" + rest));
    BracketLater('<', ['!'] + (t + (">" + rest)));
    Associative("<!", t + ">", rest);
    Associative(t, ">", rest);
    Associative(['<'], ['!'], t + (">" + rest));
    assert "<!" == ['<'] + ['!'] && [">"[0]] == ">";
  }

  lemma ElementFirst(s: string)
    requires |s| > 1 && s[0] == '<' && s[1] != '/' && s[1] != '!'
    ensures !("</" <= s) && ReadNode(s) == ParseElement(s)
  {
    assert "</"[1] == '/' && "<!"[1] == '!' && "<!--"[1] == '!' && "{{"[0] == '{';
  }

  lemma ElementNext(tag: string, attrs: seq<Attr>, trail: string, slash: bool, more: string, node: Node, rest: string, expected: string)
    requires GoodTag(tag) && GoodAttrs(attrs) && Spaces(trail)
    requires ParseBody(Opening(tag, slash, AttrsMeaning(attrs)), more) == DoneElement(node, rest)
    ensures ParseNodes(Opened(tag, attrs, trail, slash) + more, expected) == Prepend(node, ParseNodes(rest, expected))
  {
    var s := Opened(tag, attrs, trail, slash) + more;
    OpenedFirst(tag, attrs, trail, slash, more);
    ElementFirst(s);
    NodeNext(s, node, rest, expected);
  }

  lemma ElementFails(tag: string, attrs: seq<Attr>, trail: string, more: string, error: ParseError, expected: string)
    requires GoodTag(tag) && GoodAttrs(attrs) && Spaces(trail) && !IsVoidHTMLTag(tag)
    requires ParseNodes(more, tag) == Failed(error)
    ensures ParseNodes(Opened(tag, attrs, trail, false) + more, expected) == Failed(error)
  {
    OpenedFirst(tag, attrs, trail, false, more);
    ElementFirst(Opened(tag, attrs, trail, false) + more);
  }

  lemma StartsRightly(sources: seq<Source>, tail: string, before: Source)
    requires GoodAll(sources) && (tail != "" ==> tail[0] == '<') && (sources != [] ==> Parts(before, sources[0]))
    requires before.Words? && before.text != ""
    ensures var rest := WriteAll(sources) + tail;
            rest != "" ==> rest[0] == '<' || (|rest| > 1 && rest[0] == rest[1] == '{' && before.text[|before.text| - 1] != '{')
  {
    if sources != [] {
      var first := Write(sources[0]);
      assert WriteAll(sources) + tail == first + (WriteAll(sources[1..]) + tail) by { Associative(first, WriteAll(sources[1..]), tail); }
      assert sources[0].Braces? ==> first[0] == '{' && first[1] == '{';
      assert !sources[0].Braces? ==> first[0] == '<';
    } else {
      assert WriteAll(sources) + tail == tail;
    }
  }

  /** A good source in front of anything that starts a tag is read as its meaning. */
  lemma {:induction false} SourcesRead(sources: seq<Source>, tail: string, expected: string)
    requires GoodAll(sources) && (tail != "" ==> tail[0] == '<')
    ensures ParseNodes(WriteAll(sources) + tail, expected) == PrependAll(MeaningAll(sources), ParseNodes(tail, expected))
    decreases sources, 0
  {
    if sources == [] {
      assert WriteAll(sources) + tail == tail;
    } else {
      var first, more := sources[0], sources[1..];
      var rest := WriteAll(more) + tail;
      SourcesRead(more, tail, expected);
      PrependFirst(Meaning(first), MeaningAll(more), ParseNodes(tail, expected));
      Associative(Write(first), WriteAll(more), tail);
      if first.Words? {
        StartsRightly(more, tail, first);
        WordsRead(first.text, rest, expected);
      } else {
        SourceRead(first, rest, expected);
      }
    }
  }

  lemma {:induction false} SourceRead(s: Source, rest: string, expected: string)
    requires Good(s) && !s.Words?
    ensures ParseNodes(Write(s) + rest, expected) == Prepend(Meaning(s), ParseNodes(rest, expected))
    decreases s, 1
  {
    match s
    case Braces(e) => BracesRead(e, rest, expected);
    case Remark(text) => CommentRead(text, rest, expected);
    case Declared(text) => DeclaredRead(text, rest, expected);
    case Pair(tag, attrs, trail, children, closing) =>
      Associative(Opened(tag, attrs, trail, false), WriteAll(children) + Closed(closing), rest);
      Associative(WriteAll(children), Closed(closing), rest);
      PairBody(s, rest);
      ElementNext(tag, attrs, trail, false, WriteAll(children) + (Closed(closing) + rest), Meaning(s), rest, expected);
    case Single(tag, attrs, trail, slash) =>
      ElementNext(tag, attrs, trail, slash, rest, Meaning(s), rest, expected);
  }

  lemma {:induction false} PairBody(s: Source, rest: string)
    requires Good(s) && s.Pair?
    ensures ParseBody(Opening(s.tag, false, AttrsMeaning(s.attrs)), WriteAll(s.children) + (Closed(s.closing) + rest))
            == DoneElement(Meaning(s), rest)
    decreases s, 0
  {
    ClosedText(s.closing, rest);
    SourcesRead(s.children, Closed(s.closing) + rest, s.tag);
    ClosingDecides(s.closing, rest, s.tag);
    assert MeaningAll(s.children) + [] == MeaningAll(s.children);
  }

  // ---------------------------------------------------------------- main results

  /** Every good source is parsed as the tree it stands for. */
  lemma ParseOfSource(sources: seq<Source>)
    requires GoodAll(sources)
    ensures ParseTemplate(WriteAll(sources)) == Template(MeaningAll(sources))
  {
    SourcesRead(sources, "", "");
    assert WriteAll(sources) + "" == WriteAll(sources);
    assert MeaningAll(sources) + [] == MeaningAll(sources);
  }

  /** The opening tags around a place in a template, with what stands in front of each. */
  datatype Around = Top | Under(outer: Around, before: seq<Source>, tag: string, attrs: seq<Attr>, trail: string)

  function Front(around: Around): string {
    if around.Top? then ""
    else Front(around.outer) + (WriteAll(around.before) + Opened(around.tag, around.attrs, around.trail, false))
  }

  predicate GoodAround(around: Around) {
    around.Under? ==>
      && GoodAround(around.outer) && GoodAll(around.before) && GoodTag(around.tag) && !IsVoidHTMLTag(around.tag)
      && GoodAttrs(around.attrs) && Spaces(around.trail)
  }

  /** The element that is open at the place. */
  function OpenTag(around: Around): string {
    if around.Top? then "" else around.tag
  }

  /** An error inside open elements is the error of the template. */
  lemma {:induction false} FailsInside(around: Around, more: string, error: ParseError)
    requires GoodAround(around) && ParseNodes(more, OpenTag(around)) == Failed(error)
    ensures ParseTemplate(Front(around) + more) == Malformed(error)
  {
    if around.Top? {
      assert Front(around) + more == more;
    } else {
      var start := Opened(around.tag, around.attrs, around.trail, false);
      ElementFails(around.tag, around.attrs, around.trail, more, error, OpenTag(around.outer));
      OpenedFirst(around.tag, around.attrs, around.trail, false, more);
      SourcesRead(around.before, start + more, OpenTag(around.outer));
      FailsInside(around.outer, WriteAll(around.before) + (start + more), error);
      Associative(Front(around.outer), WriteAll(around.before) + start, more);
      Associative(WriteAll(around.before), start, more);
    }
  }

  /** A closing tag must name the element that is open, up to case: any other one is refused, wherever it stands and
      whatever follows it. */
  lemma MismatchRefused(around: Around, sources: seq<Source>, name: string, more: string)
    requires GoodAround(around) && around.Under? && GoodAll(sources) && PlainName(name) && !EqualFold(name, around.tag)
    ensures ParseTemplate(Front(around) + (WriteAll(sources) + (Closed(name) + more))) == Malformed(Mismatch(around.tag, name))
  {
    ClosedText(name, more);
    SourcesRead(sources, Closed(name) + more, around.tag);
    ClosingDecides(name, more, around.tag);
    FailsInside(around, WriteAll(sources) + (Closed(name) + more), Mismatch(around.tag, name));
  }

  /** An element that is not closed is refused. */
  lemma UnclosedRefused(around: Around, sources: seq<Source>)
    requires GoodAround(around) && around.Under? && GoodAll(sources)
    ensures ParseTemplate(Front(around) + WriteAll(sources)) == Malformed(UnclosedElement(around.tag))
  {
    SourcesRead(sources, "", around.tag);
    assert WriteAll(sources) + "" == WriteAll(sources);
    FailsInside(around, WriteAll(sources), UnclosedElement(around.tag));
  }

  /** A closing tag without an open element is refused. */
  lemma UnexpectedRefused(sources: seq<Source>, name: string, more: string)
    requires GoodAll(sources) && PlainName(name)
    ensures ParseTemplate(WriteAll(sources) + (Closed(name) + more)) == Malformed(Unexpected(name))
  {
    ClosedText(name, more);
    SourcesRead(sources, Closed(name) + more, "");
    ClosingDecides(name, more, "");
  }

  /** A pair of tags around a good source is a template if and only if their names are equal up to case. */
  lemma PairsIff(tag: string, attrs: seq<Attr>, trail: string, sources: seq<Source>, name: string)
    requires GoodTag(tag) && !IsVoidHTMLTag(tag) && GoodAttrs(attrs) && Spaces(trail) && GoodAll(sources) && PlainName(name)
    ensures ParseTemplate(Opened(tag, attrs, trail, false) + (WriteAll(sources) + Closed(name))).Template? <==> EqualFold(name, tag)
  {
    if EqualFold(name, tag) {
      var s := Pair(tag, attrs, trail, sources, name);
      ParseOfSource([s]);
      assert WriteAll([s]) == Write(s) + "" == Write(s);
    } else {
      var around := Under(Top, [], tag, attrs, trail);
      MismatchRefused(around, sources, name, "");
      assert Closed(name) + "" == Closed(name);
      assert Front(around) == "" + ("" + Opened(tag, attrs, trail, false)) == Opened(tag, attrs, trail, false);
    }
  }

  /** Comments, interpolations, declarations and closing tags that do not end are refused as such. */
  lemma EndlessRefused(around: Around, sources: seq<Source>, t: string)
    requires GoodAround(around) && GoodAll(sources)
    ensures !Occurs(t, "-->") ==> ParseTemplate(Front(around) + (WriteAll(sources) + ("<!--" + t))) == Malformed(UnclosedComment)
    ensures !Occurs(t, "}}") ==> ParseTemplate(Front(around) + ("{{" + t)) == Malformed(UnclosedInterpolation)
    ensures '>' !in t && !Starts(t, "--") ==>
              ParseTemplate(Front(around) + (WriteAll(sources) + ("<!" + t))) == Malformed(UnclosedDeclaration)
    ensures '>' !in t ==> ParseTemplate(Front(around) + (WriteAll(sources) + ("</" + t))) == Malformed(UnclosedClosingTag)
  {
    if !Occurs(t, "-->") {
      EndlessComment(t, OpenTag(around));
      Refused(around, sources, "<!--" + t, UnclosedComment);
    }
    if !Occurs(t, "}}") {
      EndlessBraces(t, OpenTag(around));
      FailsInside(around, "{{" + t, UnclosedInterpolation);
    }
    if '>' !in t {
      EndlessClosing(t, OpenTag(around));
      Refused(around, sources, "</" + t, UnclosedClosingTag);
      if !Starts(t, "--") {
        EndlessDeclaration(t, OpenTag(around));
        Refused(around, sources, "<!" + t, UnclosedDeclaration);
      }
    }
  }

  lemma Refused(around: Around, sources: seq<Source>, tail: string, error: ParseError)
    requires GoodAround(around) && GoodAll(sources) && tail != "" && tail[0] == '<'
    requires ParseNodes(tail, OpenTag(around)) == Failed(error)
    ensures ParseTemplate(Front(around) + (WriteAll(sources) + tail)) == Malformed(error)
  {
    SourcesRead(sources, tail, OpenTag(around));
    FailsInside(around, WriteAll(sources) + tail, error);
  }

  lemma EndlessComment(t: string, expected: string)
    requires !Occurs(t, "-->")
    ensures ParseNodes("<!--" + t, expected) == Failed(UnclosedComment)
  {
    var s := "<!--" + t;
    assert s[4..] == t && s[1] == '!';
    NotClosing(s);
  }

  lemma EndlessBraces(t: string, expected: string)
    requires !Occurs(t, "}}")
    ensures ParseNodes("{{" + t, expected) == Failed(UnclosedInterpolation)
  {
    var s := "{{" + t;
    assert s[2..] == t && s[0] == '{' && "<!--"[0] == '<';
    NotClosing(s);
  }

  lemma {:induction false} NoBracket(t: string)
    requires '>' !in t
    ensures Index(t, ">") < 0
  {
    if t != "" {
      assert t[0] in t;
      NoBracket(t[1..]);
    }
  }

  lemma EndlessDeclaration(t: string, expected: string)
    requires '>' !in t && !Starts(t, "--")
    ensures ParseNodes("<!" + t, expected) == Failed(UnclosedDeclaration)
  {
    var s := "<!" + t;
    NoBracket(s);
    assert s[0] == '<' && s[1] == '!' && "{{"[0] == '{';
    assert ("<!--" <= s) <==> |s| > 3 && s[2] == '-' && s[3] == '-';
    assert |t| > 1 ==> t[..2] == [t[0], t[1]] == [s[2], s[3]];
    NotClosing(s);
  }

  lemma EndlessClosing(t: string, expected: string)
    requires '>' !in t
    ensures ParseNodes("</" + t, expected) == Failed(UnclosedClosingTag)
  {
    NoBracket("</" + t);
  }

  lemma {:induction false} AttrsFail(attrs: seq<Attr>, tail: string, error: ParseError)
    requires GoodAttrs(attrs) && TagRest(tail) && ParseAttributes(tail) == FailedAttributes(error)
    ensures ParseAttributes(AttrsText(attrs) + tail) == FailedAttributes(error) && TagRest(AttrsText(attrs) + tail)
  {
    if attrs == [] {
      assert AttrsText(attrs) + tail == tail;
    } else {
      AttrsFail(attrs[1..], tail, error);
      Associative(AttrText(attrs[0]), AttrsText(attrs[1..]), tail);
      AttrRead(attrs[0], AttrsText(attrs[1..]) + tail);
      AttrFront(attrs[0], AttrsText(attrs[1..]) + tail);
    }
  }

  lemma NoValueRead(name: string)
    requires PlainName(name)
    ensures ParseAttributes(" " + (name + "=")) == FailedAttributes(NoAttributeValue(name)) && TagRest(" " + (name + "="))
  {
    assert NameChar(name[0]);
    SpacesDropped(" ", name + "=");
    NameSplit(name, "=");
    assert "="[1..] == "" && DropSpaces("=") == "=" && DropSpaces("") == "";
    AttributeWithValue(" " + (name + "="), name + "=", |name|, "=");
  }

  lemma NoNameRead(text: string)
    ensures ParseAttributes(" " + ("=" + text)) == FailedAttributes(NoAttributeName)
  {
    SpacesDropped(" ", "=" + text);
  }

  /** A tag whose attributes are refused. */
  lemma TagFails(tag: string, text: string, rest: string, error: ParseError, expected: string)
    requires GoodTag(tag) && text != "" && text[0] == ' ' && !IsSpace(text[|text| - 1]) && text[|text| - 1] != '/'
    requires |text| > 1 && !IsSpace(text[1]) && After(text, NONE) == Some(NONE) && ParseAttributes(text) == FailedAttributes(error)
    ensures ParseNodes("<" + ((tag + text) + (">" + rest)), expected) == Failed(error)
  {
    var inside := tag + text;
    AfterName(tag);
    AfterAppend(tag, text, NONE);
    EndFound(inside, rest);
    NameChars(tag);
    TrimNothing(inside);
    NoSlashRead(inside, inside);
    NamesFail(tag, text, error);
    InsideFails(inside, rest, error, expected);
  }

  lemma InsideFails(inside: string, rest: string, error: ParseError, expected: string)
    requires inside != "" && inside[0] != '/' && inside[0] != '!' && ReadOpening(inside) == BadOpening(error)
    requires TagEnd("<" + (inside + (">" + rest)), NONE) == |inside| + 1
    ensures ParseNodes("<" + (inside + (">" + rest)), expected) == Failed(error)
  {
    var s := "<" + (inside + (">" + rest));
    ElementAt(s, inside, rest);
    assert s[1] == inside[0];
    ElementFirst(s);
  }

  lemma NameChars(tag: string)
    requires PlainName(tag)
    ensures !IsSpace(tag[0]) && !IsSpace(tag[|tag| - 1])
  {
    assert NameChar(tag[0]) && NameChar(tag[|tag| - 1]);
  }

  lemma NamesFail(tag: string, text: string, error: ParseError)
    requires GoodTag(tag) && |text| > 1 && text[0] == ' ' && !IsSpace(text[1]) && !IsSpace(text[|text| - 1])
    requires ParseAttributes(text) == FailedAttributes(error)
    ensures ReadNames(tag + text, false) == BadOpening(error)
  {
    WordRead(tag, text);
    assert (tag + text)[..|tag|] == tag && (tag + text)[|tag|..] == text;
    TrimUnique(" ", text[1..], "");
    assert " " + text[1..] + "" == text;
    SpacesDropped(" ", text[1..]);
    SameWithoutSpaces(text);
  }

  /** An attribute without a value behind its equals sign, or without a name in front of it, is refused. */
  lemma BadAttributeRefused(around: Around, sources: seq<Source>, tag: string, attrs: seq<Attr>, name: string, value: string, rest: string)
    requires GoodAround(around) && GoodAll(sources) && GoodTag(tag) && GoodAttrs(attrs) && PlainName(name)
    requires (attrs != [] ==> attrs[0].lead == " ")
    requires (forall i :: 0 <= i < |value| ==> BareChar(value[i])) && (value != "" ==> value[|value| - 1] != '/')
    ensures var valueless := AttrsText(attrs) + (" " + (name + "="));
            ParseTemplate(Front(around) + (WriteAll(sources) + ("<" + ((tag + valueless) + (">" + rest))))) == Malformed(NoAttributeValue(name))
    ensures var nameless := " " + ("=" + value);
            ParseTemplate(Front(around) + (WriteAll(sources) + ("<" + ((tag + nameless) + (">" + rest))))) == Malformed(NoAttributeName)
  {
    ValuelessTag(tag, attrs, name, rest, OpenTag(around));
    Refused(around, sources, "<" + ((tag + (AttrsText(attrs) + (" " + (name + "=")))) + (">" + rest)), NoAttributeValue(name));
    NamelessTag(tag, value, rest, OpenTag(around));
    Refused(around, sources, "<" + ((tag + (" " + ("=" + value))) + (">" + rest)), NoAttributeName);
  }

  lemma NamelessTag(tag: string, value: string, rest: string, expected: string)
    requires GoodTag(tag) && (forall i :: 0 <= i < |value| ==> BareChar(value[i])) && (value != "" ==> value[|value| - 1] != '/')
    ensures ParseNodes("<" + ((tag + (" " + ("=" + value))) + (">" + rest)), expected) == Failed(NoAttributeName)
  {
    var text := " " + ("=" + value);
    NoNameRead(value);
    AfterBare("=" + value);
    AfterSpaces(" ");
    AfterAppend(" ", "=" + value, NONE);
    assert value != "" ==> BareChar(value[|value| - 1]) && text[|text| - 1] == value[|value| - 1];
    TagFails(tag, text, rest, NoAttributeName, expected);
  }

  lemma ValuelessTag(tag: string, attrs: seq<Attr>, name: string, rest: string, expected: string)
    requires GoodTag(tag) && GoodAttrs(attrs) && PlainName(name) && (attrs != [] ==> attrs[0].lead == " ")
    ensures ParseNodes("<" + ((tag + (AttrsText(attrs) + (" " + (name + "=")))) + (">" + rest)), expected) == Failed(NoAttributeValue(name))
  {
    var last := " " + (name + "=");
    var text := AttrsText(attrs) + last;
    NoValueRead(name);
    AttrsFail(attrs, last, NoAttributeValue(name));
    AfterSpaces(" ");
    AfterName(name);
    assert After("=", NONE) == Some(NONE) by { assert "="[1..] == ""; }
    AfterAppend(name, "=", NONE);
    AfterAppend(" ", name + "=", NONE);
    AfterAttrs(attrs);
    AfterAppend(AttrsText(attrs), last, NONE);
    SecondChar(attrs, last);
    assert NameChar(name[0]) && text[|text| - 1] == '=';
    TagFails(tag, text, rest, NoAttributeValue(name), expected);
  }

  lemma SecondChar(attrs: seq<Attr>, last: string)
    requires GoodAttrs(attrs) && (attrs != [] ==> attrs[0].lead == " ") && |last| > 1 && last[0] == ' ' && !IsSpace(last[1])
    ensures var text := AttrsText(attrs) + last; text[0] == ' ' && !IsSpace(text[1])
  {
    if attrs == [] {
      assert AttrsText(attrs) + last == last;
    } else {
      var a := attrs[0];
      assert NameChar(a.name[0]);
      assert AttrsText(attrs)[0] == ' ' && AttrsText(attrs)[1] == a.name[0];
    }
  }

  /** An opening tag that does not end is refused. */
  lemma EndlessTagRefused(around: Around, sources: seq<Source>, t: string)
    requires GoodAround(around) && GoodAll(sources) && (t != "" ==> t[0] !in {'/', '!'})
    requires forall parts, rest :: TagEnds.GoodParts(parts) ==> "<" + t != TagEnds.TagText(parts) + (">" + rest)
    ensures ParseTemplate(Front(around) + (WriteAll(sources) + ("<" + t))) == Malformed(UnclosedOpeningTag)
  {
    NoEnd("<" + t);
    EndlessTag(t, OpenTag(around));
    Refused(around, sources, "<" + t, UnclosedOpeningTag);
  }

  lemma NoEnd(s: string)
    requires forall parts, rest :: TagEnds.GoodParts(parts) ==> s != TagEnds.TagText(parts) + (">" + rest)
    ensures TagEnd(s, NONE) < 0
  {
    if TagEnd(s, NONE) >= 0 {
      var parts, rest := TagEnds.TagEndFound(s);
    }
  }

  lemma EndlessTag(t: string, expected: string)
    requires (t != "" ==> t[0] !in {'/', '!'}) && TagEnd("<" + t, NONE) < 0
    ensures ParseNodes("<" + t, expected) == Failed(UnclosedOpeningTag)
  {
    var s := "<" + t;
    assert "{{"[0] == '{' && "</"[1] == '/' && "<!"[1] == "<!--"[1] == '!';
    assert s[0] == '<' && (t != "" ==> s[1] == t[0]);
    assert ParseElement(s) == FailedElement(UnclosedOpeningTag);
    assert ReadNode(s) == ParseElement(s);
  }
}
