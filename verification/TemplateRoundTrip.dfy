/** Parsing the HTML of a static tree gives the tree back: what the renderer writes is the source of the tree, up to the
    escaping of attribute values, and every source is parsed as its tree. */
module TemplateRoundTrip {
  import opened Options
  import opened Texts
  import opened Templates
  import opened TemplateParser
  import opened TemplateRenderer
  import opened TemplateSource

  // ---------------------------------------------------------------- the trees in question

  /** A plain attribute as the parser makes it: no directive, no flags, no value unless it has one. */
  predicate PlainAttribute(a: Attribute) {
    && PlainName(a.name) && !IsDirectiveName(a.name) && !IsStructuralDirective(a.name)
    && !a.dynamic && !a.event && !a.directive
    && (a.boolean ==> a.value == "")
    && !Dangles(EscapeString(a.value))
  }

  predicate PlainAttributes(attrs: seq<Attribute>) {
    forall i :: 0 <= i < |attrs| ==> PlainAttribute(attrs[i])
  }

  predicate PlainText(t: string) {
    t != "" && !Occurs(t, "<") && !Occurs(t, "{{")
  }

  predicate PlainTag(tag: string) {
    PlainName(tag) && tag[0] != '/' && tag[0] != '!' && !IsComponentTag(tag)
  }

  /** A static element without reveal or scope attributes, self-closing exactly when its tag is void. */
  predicate PlainNode(n: Node)
    decreases n, 1
  {
    match n
    case Text(t) => PlainText(t)
    case Comment(t) => !Occurs(t, "-->")
    case Interpolation(_) => false
    case Element(tag, isComponent, selfClosing, attrs, children, scopeAttrs, fragment) =>
      && PlainTag(tag) && !isComponent && !IsSlot(n) && !IsClientOnly(n)
      && PlainAttributes(attrs) && RevealClasses(attrs) == ""
      && selfClosing == IsVoidHTMLTag(tag) && (selfClosing ==> children == [])
      && scopeAttrs == [] && fragment == ""
      && PlainNodes(children)
  }

  /** No two text nodes stand side by side. */
  predicate PlainNodes(nodes: seq<Node>)
    decreases nodes, 0
  {
    nodes == []
    || (PlainNode(nodes[0]) && (nodes[0].Text? && |nodes| > 1 ==> !nodes[1].Text?) && PlainNodes(nodes[1..]))
  }

  // ---------------------------------------------------------------- what comes back

  function Escaped(a: Attribute): Attribute {
    a.(value := EscapeString(a.value))
  }

  function EscapedAttributes(attrs: seq<Attribute>): seq<Attribute> {
    if attrs == [] then [] else [Escaped(attrs[0])] + EscapedAttributes(attrs[1..])
  }

  /** The tree with every attribute value escaped. */
  function EscapedNode(n: Node): Node
    decreases n, 1
  {
    if n.Element? then n.(attrs := EscapedAttributes(n.attrs), children := EscapedNodes(n.children)) else n
  }

  function EscapedNodes(nodes: seq<Node>): seq<Node>
    decreases nodes, 0
  {
    if nodes == [] then [] else [EscapedNode(nodes[0])] + EscapedNodes(nodes[1..])
  }

  /** No attribute value in the tree contains a character that HTML escapes. */
  predicate NothingToEscape(n: Node)
    decreases n, 1
  {
    n.Element? ==>
      (forall i :: 0 <= i < |n.attrs| ==> NeedsNoEscape(n.attrs[i].value)) && NothingToEscapeIn(n.children)
  }

  predicate NothingToEscapeIn(nodes: seq<Node>)
    decreases nodes, 0
  {
    nodes == [] || (NothingToEscape(nodes[0]) && NothingToEscapeIn(nodes[1..]))
  }

  // ---------------------------------------------------------------- the markup is a source

  lemma {:induction false} EscapedHasNoQuote(s: string)
    ensures '"' !in EscapeString(s)
  {
    if s != "" {
      EscapedHasNoQuote(s[1..]);
    }
  }

  function AttrOf(a: Attribute): Attr {
    if a.boolean then Attr(" ", a.name, "", "", Missing, "") else Attr(" ", a.name, "", "", Quoted('"'), EscapeString(a.value))
  }

  function AttrsOf(attrs: seq<Attribute>): seq<Attr> {
    if attrs == [] then [] else [AttrOf(attrs[0])] + AttrsOf(attrs[1..])
  }

  /** The source that a plain tree is rendered to. */
  function SourceOf(n: Node): Source
    decreases n, 1
  {
    match n
    case Text(t) => Words(t)
    case Interpolation(e) => Braces(e)
    case Comment(t) => Remark(t)
    case Element(tag, _, _, attrs, children, _, _) =>
      if IsVoidHTMLTag(tag) then Single(tag, AttrsOf(attrs), "", false) else Pair(tag, AttrsOf(attrs), "", SourcesOf(children), tag)
  }

  function SourcesOf(nodes: seq<Node>): seq<Source>
    decreases nodes, 0
  {
    if nodes == [] then [] else [SourceOf(nodes[0])] + SourcesOf(nodes[1..])
  }

  lemma AttrIsSource(a: Attribute)
    requires PlainAttribute(a)
    ensures GoodAttr(AttrOf(a)) && AttrText(AttrOf(a)) == StaticAttribute(a.name, a) && AttrMeaning(AttrOf(a)) == Escaped(a)
    ensures !ShouldSkip(a) && RenderedName(a.name) == a.name
  {
    EscapedHasNoQuote(a.value);
    NameUnchanged(a);
    NoFlags(a.name);
    if a.boolean {
      assert a.name + "" == a.name && EscapeString("") == "";
    } else {
      var v := EscapeString(a.value);
      assert "" + ("=" + ("" + (['"'] + (v + ['"'])))) == "=\"" + (v + "\"");
      assert StaticAttribute(a.name, a) == " " + (a.name + ("=\"" + (v + "\"")));
    }
  }

  lemma NoFlags(name: string)
    requires !IsDirectiveName(name)
    ensures !Starts(name, ":") && !Starts(name, "v-bind:") && !Starts(name, "@") && !Starts(name, "v-on:") && !Starts(name, "#") && !Starts(name, "v-")
  {
    StartsShorter(name, "v-", "bind:");
    StartsShorter(name, "v-", "on:");
    assert "v-" + "bind:" == "v-bind:" && "v-" + "on:" == "v-on:";
  }

  lemma StartsShorter(s: string, a: string, b: string)
    ensures Starts(s, a + b) ==> Starts(s, a)
  {
    assert |a + b| <= |s| ==> s[..|a|] == s[..|a + b|][..|a|] && (a + b)[..|a|] == a;
  }

  lemma NameUnchanged(a: Attribute)
    requires PlainAttribute(a)
    ensures !ShouldSkip(a) && RenderedName(a.name) == a.name
  {
    if IsEventName(a.name) { assert HasPrefix(a.name, "v-"); }
    if HasPrefix(a.name, "v-bind:") { assert HasPrefix(a.name, "v-"); }
  }

  lemma {:induction false} AttrsAreSource(attrs: seq<Attribute>)
    requires PlainAttributes(attrs)
    ensures GoodAttrs(AttrsOf(attrs)) && AttrsText(AttrsOf(attrs)) == StaticAttributesMarkup(attrs, "")
    ensures AttrsMeaning(AttrsOf(attrs)) == EscapedAttributes(attrs)
  {
    if attrs != [] {
      var a, rest := attrs[0], attrs[1..];
      assert PlainAttribute(a);
      assert forall i :: 0 <= i < |rest| ==> rest[i] == attrs[i + 1];
      AttrIsSource(a);
      AttrsAreSource(rest);
      assert AttrsOf(attrs)[0] == AttrOf(a) && AttrsOf(attrs)[1..] == AttrsOf(rest);
    }
  }

  lemma OpeningText(tag: string, attrs: seq<Attr>)
    ensures Opened(tag, attrs, "", false) == "<" + tag + AttrsText(attrs) + "" + "" + ">"
  {
    assert AttrsText(attrs) + ("" + "") == AttrsText(attrs);
  }

  lemma {:induction false} ElementIsSource(n: Node)
    requires PlainNode(n) && n.Element?
    ensures Good(SourceOf(n)) && Write(SourceOf(n)) == Markup(n) && Meaning(SourceOf(n)) == EscapedNode(n)
    decreases n, 1
  {
    AttrsAreSource(n.attrs);
    NodesAreSource(n.children);
    OpeningText(n.tag, AttrsOf(n.attrs));
    if !IsVoidHTMLTag(n.tag) {
      assert Closed(n.tag) == EndTag(n.tag);
      Associative(Opened(n.tag, AttrsOf(n.attrs), "", false), MarkupNodes(n.children), EndTag(n.tag));
    }
  }

  lemma {:induction false} NodesAreSource(nodes: seq<Node>)
    requires PlainNodes(nodes)
    ensures GoodAll(SourcesOf(nodes)) && WriteAll(SourcesOf(nodes)) == MarkupNodes(nodes)
    ensures MeaningAll(SourcesOf(nodes)) == EscapedNodes(nodes)
    decreases nodes, 0
  {
    if nodes != [] {
      NodesAreSource(nodes[1..]);
      if nodes[0].Element? { ElementIsSource(nodes[0]); }
      var sources := SourcesOf(nodes);
      assert sources[0] == SourceOf(nodes[0]) && sources[1..] == SourcesOf(nodes[1..]);
      if |nodes| > 1 { NextSource(nodes); }
      assert Good(sources[0]);
    }
  }

  lemma NextSource(nodes: seq<Node>)
    requires PlainNodes(nodes) && |nodes| > 1
    ensures |SourcesOf(nodes)| > 1 && Parts(SourceOf(nodes[0]), SourcesOf(nodes)[1])
  {
    var rest := nodes[1..];
    assert PlainNode(nodes[0]) && rest != [] && PlainNode(rest[0]) && rest[0] == nodes[1];
    var more := SourcesOf(rest);
    assert more == [SourceOf(rest[0])] + SourcesOf(rest[1..]);
    assert SourcesOf(nodes) == [SourceOf(nodes[0])] + more;
  }

  // ---------------------------------------------------------------- main results

  /** Parsing the HTML of a plain tree gives the tree with its attribute values escaped. */
  lemma ParseOfMarkup(nodes: seq<Node>)
    requires PlainNodes(nodes)
    ensures ParseTemplate(MarkupNodes(nodes)) == Template(EscapedNodes(nodes))
  {
    NodesAreSource(nodes);
    ParseOfSource(SourcesOf(nodes));
  }

  lemma {:induction false} EscapeChangesNothing(s: string)
    ensures EscapeString(s) == s <==> NeedsNoEscape(s)
    ensures |EscapeString(s)| >= |s|
  {
    if s != "" {
      var rest := s[1..];
      EscapeChangesNothing(rest);
      var e := EscapeChar(s[0]);
      assert e == [s[0]] <==> s[0] !in {'&', '\'', '<', '>', '"'};
      assert s == [s[0]] + rest;
      assert NeedsNoEscape(s) <==> s[0] !in {'&', '\'', '<', '>', '"'} && NeedsNoEscape(rest);
      assert |e| > 1 ==> |EscapeString(s)| > |s|;
      assert |e| == 1 ==> EscapeString(s)[1..] == EscapeString(rest);
    }
  }

  lemma {:induction false} SameAttributes(attrs: seq<Attribute>)
    ensures EscapedAttributes(attrs) == attrs <==> forall i :: 0 <= i < |attrs| ==> NeedsNoEscape(attrs[i].value)
    ensures |EscapedAttributes(attrs)| == |attrs|
  {
    if attrs != [] {
      var rest := attrs[1..];
      SameAttributes(rest);
      EscapeChangesNothing(attrs[0].value);
      assert attrs == [attrs[0]] + rest;
      assert EscapedAttributes(attrs)[0] == Escaped(attrs[0]) && EscapedAttributes(attrs)[1..] == EscapedAttributes(rest);
      assert forall i :: 0 < i < |attrs| ==> attrs[i] == rest[i - 1];
      assert forall i :: 0 <= i < |rest| ==> rest[i] == attrs[i + 1];
    }
  }

  lemma {:induction false} SameNode(n: Node)
    ensures EscapedNode(n) == n <==> NothingToEscape(n)
    decreases n, 1
  {
    if n.Element? {
      SameAttributes(n.attrs);
      SameNodes(n.children);
    }
  }

  lemma {:induction false} SameNodes(nodes: seq<Node>)
    ensures EscapedNodes(nodes) == nodes <==> NothingToEscapeIn(nodes)
    ensures |EscapedNodes(nodes)| == |nodes|
    decreases nodes, 0
  {
    if nodes != [] {
      SameNode(nodes[0]);
      SameNodes(nodes[1..]);
      assert EscapedNodes(nodes)[0] == EscapedNode(nodes[0]) && EscapedNodes(nodes)[1..] == EscapedNodes(nodes[1..]);
      assert nodes == [nodes[0]] + nodes[1..];
    }
  }

  lemma {:induction false} PlainIsStatic(nodes: seq<Node>)
    requires PlainNodes(nodes)
    ensures StaticNodes(nodes) && UnpreparedNodes(nodes)
    decreases nodes
  {
    if nodes != [] {
      if nodes[0].Element? {
        PlainIsStatic(nodes[0].children);
        assert forall i :: 0 <= i < |nodes[0].attrs| ==> PlainAttribute(nodes[0].attrs[i]);
      }
      PlainIsStatic(nodes[1..]);
    }
  }

  /** Parsing inverts rendering. A plain tree, rendered by any engine in any context that is not a component root,
      with its fragments precomputed, parses back to itself exactly when no attribute value needs escaping. */
  lemma ParseInvertsRender(engine: Engine, fuel: nat, nodes: seq<Node>, ctx: Context, st: State)
    requires PlainNodes(nodes) && !ctx.root
    ensures var html := RenderNodes(engine, fuel, PrepareNodes(engine.core, nodes), ctx, st, false, false).html;
            && ParseTemplate(html).Template?
            && (ParseTemplate(html) == Template(nodes) <==> NothingToEscapeIn(nodes))
  {
    PlainIsStatic(nodes);
    PrepareNodesFacts(engine.core, nodes);
    StaticNodesRender(engine, fuel, PrepareNodes(engine.core, nodes), ctx, st, false, false);
    ParseOfMarkup(nodes);
    SameNodes(nodes);
  }
}
