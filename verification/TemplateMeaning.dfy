/** What a template shows, said without the renderer's own functions: which nodes of a list are rendered, what each kind of
    node and attribute writes, and where the content of a slot goes. */
module TemplateMeaning {
  import opened Letters
  import opened Options
  import opened Texts
  import opened Templates
  import opened TemplateRenderer
  import opened TemplateSource

  // ---------------------------------------------------------------- directives

  /** The element has the attribute, and the first one of that name has this value, trimmed. */
  predicate Says(n: Node, name: string, value: string) {
    n.Element? && exists i :: 0 <= i < |n.attrs| && FirstNamed(n.attrs, name, i) && value == TrimSpace(n.attrs[i].value)
  }

  predicate FirstNamed(attrs: seq<Attribute>, name: string, i: nat) {
    i < |attrs| && attrs[i].name == name && forall j :: 0 <= j < i ==> attrs[j].name != name
  }

  predicate Has(n: Node, name: string) {
    n.Element? && exists i :: 0 <= i < |n.attrs| && n.attrs[i].name == name
  }

  /** An expression that evaluates to a true value; one that fails does not. */
  predicate True(core: Core, expression: string, scope: Scope) {
    match core.eval(expression, scope)
    case Some(v) => core.truthy(v)
    case None => false
  }

  lemma {:induction false} Directive(attrs: seq<Attribute>, name: string)
    ensures FindDirective(attrs, name).None? <==> forall i :: 0 <= i < |attrs| ==> attrs[i].name != name
    ensures FindDirective(attrs, name).Some? ==>
              exists i :: 0 <= i < |attrs| && FirstNamed(attrs, name, i) && FindDirective(attrs, name).value == TrimSpace(attrs[i].value)
  {
    if attrs != [] {
      var rest := attrs[1..];
      Directive(rest, name);
      assert forall i :: 0 <= i < |rest| ==> rest[i] == attrs[i + 1];
      if attrs[0].name == name {
        assert FirstNamed(attrs, name, 0);
      } else if FindDirective(rest, name).Some? {
        var i :| 0 <= i < |rest| && FirstNamed(rest, name, i) && FindDirective(rest, name).value == TrimSpace(rest[i].value);
        assert FirstNamed(attrs, name, i + 1);
      } else {
        assert forall i :: 0 < i < |attrs| ==> attrs[i] == rest[i - 1];
      }
    }
  }

  lemma DirectiveMeans(n: Node, name: string)
    requires n.Element?
    ensures FindDirective(n.attrs, name).Some? <==> Has(n, name)
    ensures forall v :: Says(n, name, v) <==> FindDirective(n.attrs, name) == Some(v)
  {
    Directive(n.attrs, name);
    forall v | Says(n, name, v) ensures FindDirective(n.attrs, name) == Some(v) {
      var i :| 0 <= i < |n.attrs| && FirstNamed(n.attrs, name, i) && v == TrimSpace(n.attrs[i].value);
      var j :| 0 <= j < |n.attrs| && FirstNamed(n.attrs, name, j) && FindDirective(n.attrs, name).value == TrimSpace(n.attrs[j].value);
      assert i == j;
    }
  }

  // ---------------------------------------------------------------- chains

  predicate IsIf(n: Node) {
    Has(n, "m-if")
  }

  predicate IsElseIf(n: Node) {
    Has(n, "m-else-if") && !Has(n, "m-if")
  }

  predicate IsElse(n: Node) {
    Has(n, "m-else") && !Has(n, "m-if") && !Has(n, "m-else-if")
  }

  predicate BlankText(n: Node) {
    n.Text? && Blank(n.text)
  }

  /** The i-th node is an m-if, and only blank text and m-else-ifs stand between it and position `k`. */
  predicate ChainFrom(nodes: seq<Node>, i: nat, k: nat) {
    i < k <= |nodes| && IsIf(nodes[i]) && forall j :: i < j < k ==> BlankText(nodes[j]) || IsElseIf(nodes[j])
  }

  /** The condition of the node holds. */
  ghost predicate Taken(core: Core, scope: Scope, n: Node) {
    || (IsIf(n) && forall v :: Says(n, "m-if", v) ==> True(core, v, scope))
    || (IsElseIf(n) && forall v :: Says(n, "m-else-if", v) ==> True(core, v, scope))
  }

  ghost predicate SomeTaken(core: Core, scope: Scope, nodes: seq<Node>, i: nat, k: nat)
    requires k <= |nodes|
  {
    exists j :: i <= j < k && Taken(core, scope, nodes[j])
  }

  ghost predicate InChain(nodes: seq<Node>, k: nat) {
    exists i :: ChainFrom(nodes, i, k)
  }

  /** The k-th node is shown: an m-if when its condition holds; an m-else-if or m-else of a chain when no condition in front
      of it holds and its own, if it has one, does; every other node, those outside a chain too. */
  ghost predicate Shows(core: Core, scope: Scope, nodes: seq<Node>, k: nat)
    requires k < |nodes|
  {
    if IsIf(nodes[k]) then Taken(core, scope, nodes[k])
    else if IsElseIf(nodes[k]) then
      forall i :: ChainFrom(nodes, i, k) ==> !SomeTaken(core, scope, nodes, i, k) && Taken(core, scope, nodes[k])
    else if IsElse(nodes[k]) then forall i :: ChainFrom(nodes, i, k) ==> !SomeTaken(core, scope, nodes, i, k)
    else true
  }

  /** The first `k` nodes in order, those that are shown. */
  ghost function ShownUpTo(engine: Engine, fuel: nat, nodes: seq<Node>, ctx: Context, st: State, k: nat): Output
    requires k <= |nodes|
    decreases k
  {
    if k == 0 then Output("", st)
    else
      var before := ShownUpTo(engine, fuel, nodes, ctx, st, k - 1);
      if Shows(engine.core, ctx.scope, nodes, k - 1) then
        var out := RenderNode(engine, fuel, nodes[k - 1], ctx, before.state);
        Output(before.html + out.html, out.state)
      else before
  }

  /** What the flags of the loop stand for at position `k`. */
  ghost predicate Flags(core: Core, scope: Scope, nodes: seq<Node>, k: nat, active: bool, matched: bool)
    requires k <= |nodes|
  {
    && (active <==> InChain(nodes, k))
    && forall i :: ChainFrom(nodes, i, k) ==> (matched <==> SomeTaken(core, scope, nodes, i, k))
  }

  lemma ConditionMeans(core: Core, scope: Scope, n: Node, name: string)
    requires n.Element? && Has(n, name)
    ensures FindDirective(n.attrs, name).Some?
    ensures (forall v :: Says(n, name, v) ==> True(core, v, scope)) <==> Holds(core, FindDirective(n.attrs, name).value, scope)
  {
    DirectiveMeans(n, name);
    assert Says(n, name, FindDirective(n.attrs, name).value);
  }

  /** The chain function's answer, in terms of what stands in front. */
  lemma ChainAnswer(core: Core, scope: Scope, nodes: seq<Node>, k: nat, active: bool, matched: bool)
    requires k < |nodes| && Flags(core, scope, nodes, k, active, matched)
    ensures Chain(core, nodes[k], scope, active, matched).0 == Shows(core, scope, nodes, k)
  {
    var n := nodes[k];
    if n.Element? {
      DirectiveMeans(n, "m-if");
      DirectiveMeans(n, "m-else-if");
      DirectiveMeans(n, "m-else");
      if Has(n, "m-if") { ConditionMeans(core, scope, n, "m-if"); }
      if Has(n, "m-else-if") { ConditionMeans(core, scope, n, "m-else-if"); }
      if active {
        var i :| ChainFrom(nodes, i, k);
      }
    }
  }

  lemma ChainOneFrom(nodes: seq<Node>, i: nat, h: nat, k: nat)
    requires ChainFrom(nodes, i, k) && ChainFrom(nodes, h, k)
    ensures i == h
  {
  }

  lemma ChainNext(nodes: seq<Node>, i: nat, k: nat)
    requires k < |nodes|
    ensures ChainFrom(nodes, i, k + 1) <==>
            (i == k && IsIf(nodes[k])) || (ChainFrom(nodes, i, k) && (BlankText(nodes[k]) || IsElseIf(nodes[k])))
  {
  }

  lemma TakenNext(core: Core, scope: Scope, nodes: seq<Node>, i: nat, k: nat)
    requires i <= k < |nodes|
    ensures SomeTaken(core, scope, nodes, i, k + 1) <==> SomeTaken(core, scope, nodes, i, k) || Taken(core, scope, nodes[k])
  {
  }

  /** The flags that the chain function sets. */
  lemma ChainResult(core: Core, n: Node, scope: Scope, active: bool, matched: bool)
    ensures var r := Chain(core, n, scope, active, matched);
            && (IsIf(n) ==> r.1 && (r.2 <==> Taken(core, scope, n)))
            && (BlankText(n) ==> r.1 == active && r.2 == matched)
            && (IsElseIf(n) && active ==> r.1 && (r.2 <==> matched || Taken(core, scope, n)))
            && (!IsIf(n) && !BlankText(n) && !(IsElseIf(n) && active) ==> !r.1)
  {
    if n.Element? {
      DirectiveMeans(n, "m-if");
      DirectiveMeans(n, "m-else-if");
      DirectiveMeans(n, "m-else");
      if Has(n, "m-if") { ConditionMeans(core, scope, n, "m-if"); }
      if Has(n, "m-else-if") { ConditionMeans(core, scope, n, "m-else-if"); }
    }
  }

  /** The flags after the k-th node. */
  lemma ChainFlags(core: Core, scope: Scope, nodes: seq<Node>, k: nat, active: bool, matched: bool)
    requires k < |nodes| && Flags(core, scope, nodes, k, active, matched)
    ensures var r := Chain(core, nodes[k], scope, active, matched); Flags(core, scope, nodes, k + 1, r.1, r.2)
  {
    var r := Chain(core, nodes[k], scope, active, matched);
    ChainResult(core, nodes[k], scope, active, matched);
    FlagsNext(core, scope, nodes, k, active, matched, r.1, r.2);
  }

  lemma FlagsNext(core: Core, scope: Scope, nodes: seq<Node>, k: nat, active: bool, matched: bool, active': bool, matched': bool)
    requires k < |nodes| && Flags(core, scope, nodes, k, active, matched)
    requires var n := nodes[k];
             && (IsIf(n) ==> active' && (matched' <==> Taken(core, scope, n)))
             && (BlankText(n) ==> active' == active && matched' == matched)
             && (IsElseIf(n) && active ==> active' && (matched' <==> matched || Taken(core, scope, n)))
             && (!IsIf(n) && !BlankText(n) && !(IsElseIf(n) && active) ==> !active')
    ensures Flags(core, scope, nodes, k + 1, active', matched')
  {
    var next := k + 1;
    if IsIf(nodes[k]) {
      assert ChainFrom(nodes, k, next);
    } else if active && (BlankText(nodes[k]) || IsElseIf(nodes[k])) {
      var i :| ChainFrom(nodes, i, k);
      ChainNext(nodes, i, k);
    }
    forall i: nat | ChainFrom(nodes, i, next) ensures active' && (matched' <==> SomeTaken(core, scope, nodes, i, next)) {
      ChainNext(nodes, i, k);
      TakenNext(core, scope, nodes, i, k);
      assert !SomeTaken(core, scope, nodes, k, k);
    }
  }

  /** One step of the loop, with the nodes that are left. */
  lemma RenderStep(engine: Engine, fuel: nat, nodes: seq<Node>, k: nat, ctx: Context, st: State, active: bool, matched: bool)
    requires k < |nodes|
    ensures var r := Chain(engine.core, nodes[k], ctx.scope, active, matched);
            var first := if r.0 then RenderNode(engine, fuel, nodes[k], ctx, st) else Output("", st);
            var rest := RenderNodes(engine, fuel, nodes[k + 1..], ctx, first.state, r.1, r.2);
            RenderNodes(engine, fuel, nodes[k..], ctx, st, active, matched) == Output(first.html + rest.html, rest.state)
  {
    assert nodes[k..][0] == nodes[k] && nodes[k..][1..] == nodes[k + 1..];
  }

  lemma ShownStep(engine: Engine, fuel: nat, nodes: seq<Node>, ctx: Context, st: State, k: nat)
    requires k < |nodes|
    ensures var before := ShownUpTo(engine, fuel, nodes, ctx, st, k);
            var out := if Shows(engine.core, ctx.scope, nodes, k) then RenderNode(engine, fuel, nodes[k], ctx, before.state) else Output("", before.state);
            ShownUpTo(engine, fuel, nodes, ctx, st, k + 1) == Output(before.html + out.html, out.state)
  {
    var before := ShownUpTo(engine, fuel, nodes, ctx, st, k);
    assert before.html + "" == before.html;
  }

  lemma {:induction false} ShownSuffix(engine: Engine, fuel: nat, nodes: seq<Node>, ctx: Context, st: State, k: nat, active: bool, matched: bool)
    requires k <= |nodes| && Flags(engine.core, ctx.scope, nodes, k, active, matched)
    ensures var before := ShownUpTo(engine, fuel, nodes, ctx, st, k);
            var rest := RenderNodes(engine, fuel, nodes[k..], ctx, before.state, active, matched);
            ShownUpTo(engine, fuel, nodes, ctx, st, |nodes|) == Output(before.html + rest.html, rest.state)
    decreases |nodes| - k
  {
    var before := ShownUpTo(engine, fuel, nodes, ctx, st, k);
    if k == |nodes| {
      assert before.html + "" == before.html;
    } else {
      var r := Chain(engine.core, nodes[k], ctx.scope, active, matched);
      ChainAnswer(engine.core, ctx.scope, nodes, k, active, matched);
      ChainFlags(engine.core, ctx.scope, nodes, k, active, matched);
      ShownSuffix(engine, fuel, nodes, ctx, st, k + 1, r.1, r.2);
      RenderStep(engine, fuel, nodes, k, ctx, before.state, active, matched);
      ShownStep(engine, fuel, nodes, ctx, st, k);
      var first := if r.0 then RenderNode(engine, fuel, nodes[k], ctx, before.state) else Output("", before.state);
      Associative(before.html, first.html, RenderNodes(engine, fuel, nodes[k + 1..], ctx, first.state, r.1, r.2).html);
    }
  }

  /** A list of nodes renders to those that are shown, in order. */
  lemma ListShows(engine: Engine, fuel: nat, nodes: seq<Node>, ctx: Context, st: State)
    ensures RenderNodes(engine, fuel, nodes, ctx, st, false, false) == ShownUpTo(engine, fuel, nodes, ctx, st, |nodes|)
  {
    assert nodes[0..] == nodes;
    ShownSuffix(engine, fuel, nodes, ctx, st, 0, false, false);
    var all := RenderNodes(engine, fuel, nodes, ctx, st, false, false);
    assert "" + all.html == all.html;
  }

  /** A node of the chain that starts at `i`: the m-if itself, or a branch behind it. */
  ghost predicate BranchOf(nodes: seq<Node>, i: nat, a: nat) {
    a < |nodes| && ((a == i && IsIf(nodes[a])) || (ChainFrom(nodes, i, a) && (IsElseIf(nodes[a]) || IsElse(nodes[a]))))
  }

  lemma BranchShown(core: Core, scope: Scope, nodes: seq<Node>, i: nat, a: nat)
    requires BranchOf(nodes, i, a) && !IsElse(nodes[a])
    ensures Shows(core, scope, nodes, a) <==> Taken(core, scope, nodes[a]) && !SomeTaken(core, scope, nodes, i, a)
  {
    forall h: nat | ChainFrom(nodes, i, a) && ChainFrom(nodes, h, a) ensures h == i {
      ChainOneFrom(nodes, i, h, a);
    }
  }

  lemma ElseShown(core: Core, scope: Scope, nodes: seq<Node>, i: nat, a: nat)
    requires ChainFrom(nodes, i, a) && a < |nodes| && IsElse(nodes[a])
    ensures Shows(core, scope, nodes, a) <==> !SomeTaken(core, scope, nodes, i, a)
  {
    forall h: nat | ChainFrom(nodes, h, a) ensures h == i {
      ChainOneFrom(nodes, i, h, a);
    }
  }

  lemma {:induction false} FirstTaken(core: Core, scope: Scope, nodes: seq<Node>, i: nat, k: nat) returns (j: nat)
    requires k <= |nodes| && SomeTaken(core, scope, nodes, i, k)
    ensures i <= j < k && Taken(core, scope, nodes[j]) && !SomeTaken(core, scope, nodes, i, j)
    decreases k
  {
    j :| i <= j < k && Taken(core, scope, nodes[j]);
    if SomeTaken(core, scope, nodes, i, j) {
      j := FirstTaken(core, scope, nodes, i, j);
    }
  }

  /** Of the branches of a chain at most one is shown, and with an m-else exactly one. */
  lemma OneBranch(core: Core, scope: Scope, nodes: seq<Node>, i: nat, b: nat) returns (shown: nat)
    requires BranchOf(nodes, i, b)
    ensures forall a, c :: BranchOf(nodes, i, a) && BranchOf(nodes, i, c) && Shows(core, scope, nodes, a) && Shows(core, scope, nodes, c) ==> a == c
    ensures IsElse(nodes[b]) ==> shown <= b && BranchOf(nodes, i, shown) && Shows(core, scope, nodes, shown)
  {
    forall a, c | BranchOf(nodes, i, a) && BranchOf(nodes, i, c) && Shows(core, scope, nodes, a) && Shows(core, scope, nodes, c)
      ensures a == c
    {
      if a < c { EarlierWins(core, scope, nodes, i, a, c); }
      if c < a { EarlierWins(core, scope, nodes, i, c, a); }
    }
    shown := b;
    if IsElse(nodes[b]) {
      ElseShown(core, scope, nodes, i, b);
      if SomeTaken(core, scope, nodes, i, b) {
        shown := FirstTaken(core, scope, nodes, i, b);
        BranchBefore(core, scope, nodes, i, shown, b);
        BranchShown(core, scope, nodes, i, shown);
      }
    }
  }

  lemma BranchBefore(core: Core, scope: Scope, nodes: seq<Node>, i: nat, a: nat, b: nat)
    requires ChainFrom(nodes, i, b) && i <= a < b && Taken(core, scope, nodes[a])
    ensures BranchOf(nodes, i, a) && !IsElse(nodes[a])
  {
    assert a > i ==> ChainFrom(nodes, i, a);
  }

  /** A branch that is shown hides the later ones. */
  lemma EarlierWins(core: Core, scope: Scope, nodes: seq<Node>, i: nat, a: nat, c: nat)
    requires BranchOf(nodes, i, a) && BranchOf(nodes, i, c) && a < c && Shows(core, scope, nodes, a)
    ensures !Shows(core, scope, nodes, c)
  {
    assert a > i ==> BlankText(nodes[a]) || IsElseIf(nodes[a]);
    BranchShown(core, scope, nodes, i, a);
    assert SomeTaken(core, scope, nodes, i, c);
    if IsElse(nodes[c]) { ElseShown(core, scope, nodes, i, c); } else { BranchShown(core, scope, nodes, i, c); }
  }

  // ---------------------------------------------------------------- escaping

  /** What a browser reads: the five character references are replaced by their characters. */
  function Unescaped(s: string): string
    decreases |s|
  {
    if s == "" then ""
    else if Starts(s, "&amp;") then "&" + Unescaped(s[5..])
    else if Starts(s, "&#39;") then "'" + Unescaped(s[5..])
    else if Starts(s, "&#34;") then "\"" + Unescaped(s[5..])
    else if Starts(s, "&lt;") then "<" + Unescaped(s[4..])
    else if Starts(s, "&gt;") then ">" + Unescaped(s[4..])
    else [s[0]] + Unescaped(s[1..])
  }

  lemma UnescapedChar(c: char, rest: string)
    ensures Unescaped(EscapeChar(c) + rest) == [c] + Unescaped(rest)
  {
    var s := EscapeChar(c) + rest;
    match EscapeChar(c)
    case _ =>
      assert s[|EscapeChar(c)|..] == rest;
      assert c == '&' ==> s[..5] == "&amp;";
      assert c == '\'' ==> s[..5] == "&#39;" && s[1] == '#';
      assert c == '"' ==> s[..5] == "&#34;" && s[1] == '#' && s[3] == '4';
      assert c == '<' ==> s[..4] == "&lt;" && s[1] == 'l';
      assert c == '>' ==> s[..4] == "&gt;" && s[1] == 'g';
      assert c !in {'&', '\'', '"', '<', '>'} ==> s[0] == c;
      assert forall k :: 0 < k <= |s| ==> s[..k][0] == s[0];
      assert forall k :: 1 < k <= |s| ==> s[..k][1] == s[1];
      assert forall k :: 3 < k <= |s| ==> s[..k][3] == s[3];
      assert "&amp;"[0] == "&#39;"[0] == "&#34;"[0] == "&lt;"[0] == "&gt;"[0] == '&';
      assert "&amp;"[1] == 'a' && "&#39;"[1] == "&#34;"[1] == '#' && "&#39;"[3] == '9';
  }

  /** Escaped text reads back as the text, and has nothing in it that could end a value or start a tag. */
  lemma {:induction false} EscapedMeans(s: string)
    ensures Unescaped(EscapeString(s)) == s
    ensures forall i :: 0 <= i < |EscapeString(s)| ==> EscapeString(s)[i] !in {'<', '>', '"', '\''}
  {
    if s != "" {
      EscapedMeans(s[1..]);
      UnescapedChar(s[0], EscapeString(s[1..]));
      assert s == [s[0]] + s[1..];
      assert forall i :: 0 <= i < |EscapeChar(s[0])| ==> EscapeChar(s[0])[i] !in {'<', '>', '"', '\''};
    }
  }

  // ---------------------------------------------------------------- what a node writes

  /** Text and comments write themselves. An interpolation writes text that reads as its value, with no markup in it, and
      nothing when its expression fails. None of them changes the state. */
  lemma LeafWrites(engine: Engine, fuel: nat, n: Node, ctx: Context, st: State)
    requires !n.Element?
    ensures var out := RenderNode(engine, fuel, n, ctx, st);
            out.state == st
            && match n
               case Text(t) => out.html == t
               case Comment(t) => out.html == "<!--" + t + "-->"
               case Interpolation(e) =>
                 match engine.core.eval(e, ctx.scope)
                 case None => out.html == ""
                 case Some(v) =>
                   && Unescaped(out.html) == engine.core.stringify(v)
                   && forall i :: 0 <= i < |out.html| ==> out.html[i] !in {'<', '>', '"', '\''}
  {
    if n.Interpolation? {
      var v := engine.core.eval(n.expression, ctx.scope);
      if v.Some? { EscapedMeans(engine.core.stringify(v.value)); }
    }
  }

  /** An element whose m-if does not hold writes nothing and changes nothing. */
  lemma HiddenWritesNothing(engine: Engine, fuel: nat, e: Node, ctx: Context, st: State, condition: string)
    requires e.Element? && e.fragment == "" && Says(e, "m-if", condition) && !True(engine.core, condition, ctx.scope)
    ensures RenderNode(engine, fuel, e, ctx, st) == Output("", st)
  {
    DirectiveMeans(e, "m-if");
  }

  /** No m-if, or one that holds. */
  predicate Open(core: Core, e: Node, scope: Scope) {
    e.Element? && match FindDirective(e.attrs, "m-if")
                  case None => true
                  case Some(condition) => True(core, condition, scope)
  }

  predicate Ordinary(e: Node) {
    e.Element? && !IsSlot(e) && !IsClientOnly(e) && !e.isComponent
  }

  // ---------------------------------------------------------------- attributes

  /** The attribute text of one attribute as the parser makes it; an expression that fails writes none. */
  lemma EventWrites(core: Core, a: Attr, event: string, classes: string, scope: Scope)
    requires event != "" && ((a.name == "@" + event && !Starts(event, "v-on:")) || a.name == "v-on:" + event)
    ensures RenderAttribute(core, AttrMeaning(a), classes, scope)
            == Some((" data-gosh-on-" + EscapeString(event) + "=\"" + EscapeString(a.value) + "\"", false))
  {
    assert a.name == "@" + event ==> a.name[0] == '@' && a.name[..1] == "@" && a.name[1..] == event;
    assert a.name == "v-on:" + event ==> a.name[0] == 'v' && a.name[..5] == "v-on:" && a.name[5..] == event;
    assert HasPrefix(event, "v-on:") <==> Starts(event, "v-on:");
    assert "@"[0] == '@';
  }

  /** A bound attribute writes its value under the name behind the colon, and with a reveal class it adds that to the
      class. */
  lemma BoundWrites(core: Core, a: Attr, name: string, classes: string, scope: Scope)
    requires name != "" && (a.name == ":" + name || a.name == "v-bind:" + name)
    ensures var written := RenderAttribute(core, AttrMeaning(a), classes, scope);
            match core.eval(TrimSpace(a.value), scope)
            case None => written == None
            case Some(v) =>
              if name == "class" && classes != ""
              then written == Some((" class=\"" + EscapeString(AppendHTMLClass(core.stringify(v), classes)) + "\"", true))
              else written == Some((core.dynamicAttribute(name, v), false))
  {
    assert a.name == ":" + name ==> a.name[0] == ':' && a.name[..1] == ":" && a.name[1..] == name;
    assert a.name == "v-bind:" + name ==> a.name[0] == 'v' && a.name[2] == 'b' && a.name[..7] == "v-bind:" && a.name[..2] == "v-" && a.name[7..] == name;
    assert forall k :: 0 < k <= |a.name| ==> a.name[..k][0] == a.name[0];
    assert forall k :: 2 < k <= |a.name| ==> a.name[..k][2] == a.name[2];
    assert "@"[0] == '@' && "#"[0] == '#' && "m-if"[0] == "m-else"[0] == "m-else-if"[0] == "m-for"[0] == 'm' && "v-on:"[2] == 'o';
  }

  /** Structural directives, references and other directives write nothing. */
  lemma DirectiveWritesNothing(core: Core, a: Attr, classes: string, scope: Scope)
    requires || a.name in {"m-if", "m-else", "m-else-if", "m-for"} || Starts(a.name, "#")
             || (Starts(a.name, "v-") && !Starts(a.name, "v-bind:") && !Starts(a.name, "v-on:"))
    ensures RenderAttribute(core, AttrMeaning(a), classes, scope) == Some(("", false))
  {
    assert forall k :: 0 < k <= |a.name| ==> a.name[..k][0] == a.name[0];
    assert "@"[0] == '@' && "#"[0] == '#' && ":"[0] == ':' && "v-"[0] == 'v' && "m-if"[0] == "m-else"[0] == "m-else-if"[0] == "m-for"[0] == 'm';
    assert "v-bind:"[0] == 'v' && "v-on:"[0] == 'v';
  }

  /** Any other attribute writes its name and its escaped value, or its name alone without one; the class takes the reveal
      classes in behind its own. */
  lemma PlainWrites(core: Core, a: Attr, classes: string, scope: Scope)
    requires a.name != "" && a.name !in {"m-if", "m-else", "m-else-if", "m-for"}
    requires !Starts(a.name, ":") && !Starts(a.name, "@") && !Starts(a.name, "#") && !Starts(a.name, "v-")
    ensures RenderAttribute(core, AttrMeaning(a), classes, scope)
            == if a.name == "class" && classes != "" then
                 Some((" class=\"" + EscapeString(if Blank(a.value) then classes else TrimSpace(a.value) + " " + classes) + "\"", true))
               else if a.spelling.Missing? then Some((" " + a.name, false))
               else Some((" " + a.name + "=\"" + EscapeString(a.value) + "\"", false))
  {
    var x, y := TrimParts(a.value);
  }

  // ---------------------------------------------------------------- reveal classes

  predicate PlainNamed(a: Attribute, name: string) {
    !a.dynamic && Lower(a.name) == name
  }

  /** The i-th attribute is the last plain one of the name; there is none if `i` is -1. */
  predicate LastNamed(attrs: seq<Attribute>, name: string, i: int) {
    && -1 <= i < |attrs|
    && (i >= 0 ==> PlainNamed(attrs[i], name))
    && forall j :: i < j < |attrs| ==> !PlainNamed(attrs[j], name)
  }

  /** The value of the attribute, in lower case and trimmed. */
  function Given(attrs: seq<Attribute>, i: int): string
    requires -1 <= i < |attrs|
  {
    if i < 0 then "" else Lower(TrimSpace(attrs[i].value))
  }

  lemma LastUnfolds(attrs: seq<Attribute>, name: string)
    requires attrs != []
    ensures var n := |attrs| - 1;
            LastPlain(attrs, name) == if PlainNamed(attrs[n], name) then Given(attrs, n) else LastPlain(attrs[..n], name)
  {
  }

  lemma {:induction false} LastPlainGiven(attrs: seq<Attribute>, name: string) returns (i: int)
    ensures LastNamed(attrs, name, i) && LastPlain(attrs, name) == Given(attrs, i)
  {
    i := -1;
    if attrs != [] {
      var n := |attrs| - 1;
      LastUnfolds(attrs, name);
      if PlainNamed(attrs[n], name) {
        i := n;
      } else {
        i := LastPlainGiven(attrs[..n], name);
        SameGiven(attrs, n, i);
        assert forall j :: i < j < n ==> attrs[..n][j] == attrs[j];
      }
    }
  }

  lemma SameGiven(attrs: seq<Attribute>, n: nat, i: int)
    requires n <= |attrs| && -1 <= i < n
    ensures Given(attrs[..n], i) == Given(attrs, i)
  {
  }

  const ACTIVE: string := "reveal-active"
  const REVEAL: string := "data-gosh-reveal"
  const SPEED: string := "data-gosh-reveal-speed"

  /** The class of a kind: its own, or a slide's when it is no word of lower-case letters, digits and hyphens. */
  function KindClass(kind: string): string {
    " reveal-" + if exists i :: 0 <= i < |kind| && !('a' <= kind[i] <= 'z' || '0' <= kind[i] <= '9' || kind[i] == '-') then "slide" else kind
  }

  function SpeedClass(speed: string): string {
    if speed == "fast" || speed == "slow" then " reveal-" + speed else ""
  }

  lemma ClassesUnfold(attrs: seq<Attribute>)
    ensures var kind, speed := LastPlain(attrs, REVEAL), LastPlain(attrs, SPEED);
            RevealClasses(attrs) == if kind == "" then "" else ACTIVE + KindClass(kind) + SpeedClass(speed)
  {
    var kind, speed := LastPlain(attrs, REVEAL), LastPlain(attrs, SPEED);
    var word := if RevealType(kind) then kind else "slide";
    if kind != "" {
      assert KindClass(kind) == " reveal-" + word;
      assert "reveal-active reveal-" + word == ACTIVE + (" reveal-" + word);
    }
  }

  /** The reveal classes are those of the kind and the speed in the last plain attributes that give them. */
  lemma RevealMeans(attrs: seq<Attribute>) returns (kind: int, speed: int)
    ensures LastNamed(attrs, REVEAL, kind) && LastNamed(attrs, SPEED, speed)
    ensures RevealClasses(attrs) == if Given(attrs, kind) == "" then "" else ACTIVE + KindClass(Given(attrs, kind)) + SpeedClass(Given(attrs, speed))
  {
    kind := LastPlainGiven(attrs, REVEAL);
    speed := LastPlainGiven(attrs, SPEED);
    ClassesUnfold(attrs);
  }

  /** What the attributes write, one after the other. */
  function Pieces(core: Core, attrs: seq<Attribute>, classes: string, scope: Scope): seq<Option<(string, bool)>> {
    seq(|attrs|, i requires 0 <= i < |attrs| => RenderAttribute(core, attrs[i], classes, scope))
  }

  function Joined(pieces: seq<Option<(string, bool)>>): string {
    if pieces == [] || pieces[0].None? then "" else pieces[0].value.0 + Joined(pieces[1..])
  }

  predicate WroteClass(pieces: seq<Option<(string, bool)>>) {
    exists i :: 0 <= i < |pieces| && pieces[i].Some? && pieces[i].value.1
  }

  /** Attributes are written in order up to the first whose expression fails. */
  lemma {:induction false} AttributesInOrder(core: Core, attrs: seq<Attribute>, classes: string, scope: Scope)
    ensures var r, pieces := RenderAttributes(core, attrs, classes, scope), Pieces(core, attrs, classes, scope);
            && r.0 == Joined(pieces)
            && (r.2 <==> exists i :: 0 <= i < |pieces| && pieces[i].None?)
            && (!r.2 ==> (r.1 <==> WroteClass(pieces)))
  {
    var pieces := Pieces(core, attrs, classes, scope);
    if attrs != [] {
      var rest := Pieces(core, attrs[1..], classes, scope);
      AttributesInOrder(core, attrs[1..], classes, scope);
      assert pieces[0] == RenderAttribute(core, attrs[0], classes, scope) && pieces[1..] == rest;
      assert forall i :: 0 <= i < |rest| ==> rest[i] == pieces[i + 1];
      assert forall i :: 0 < i < |pieces| ==> pieces[i] == rest[i - 1];
    }
  }

  // ---------------------------------------------------------------- elements

  lemma Dispatch(engine: Engine, fuel: nat, e: Node, ctx: Context, st: State)
    requires e.Element? && (ctx.root || e.fragment == "")
    ensures RenderNode(engine, fuel, e, ctx, st) == RenderElement(engine, fuel, e, ctx, st)
  {
  }

  lemma PlainDispatch(engine: Engine, fuel: nat, e: Node, ctx: Context, st: State)
    requires Ordinary(e) && Open(engine.core, e, ctx.scope) && (ctx.root || e.fragment == "")
    ensures RenderNode(engine, fuel, e, ctx, st) == RenderPlainElement(engine, fuel, e, ctx, st)
  {
    assert RoleOf(engine.core, e, ctx) == Plain;
    Dispatch(engine, fuel, e, ctx, st);
  }

  lemma InstanceDispatch(engine: Engine, fuel: nat, e: Node, ctx: Context, st: State)
    requires e.Element? && e.isComponent && !IsSlot(e) && !IsClientOnly(e) && Open(engine.core, e, ctx.scope) && (ctx.root || e.fragment == "")
    ensures RenderNode(engine, fuel, e, ctx, st) == RenderComponentNode(engine, fuel, e, ctx, st)
  {
    assert RoleOf(engine.core, e, ctx) == Instance;
    Dispatch(engine, fuel, e, ctx, st);
  }

  lemma InsideDispatch(engine: Engine, fuel: nat, e: Node, ctx: Context, st: State, nodes: seq<Node>, inner: Context)
    requires e.Element? && (ctx.root || e.fragment == "") && RoleOf(engine.core, e, ctx) == Inside(nodes, inner)
    ensures RenderNode(engine, fuel, e, ctx, st) == RenderNodes(engine, fuel, nodes, inner, st, false, false)
  {
    Dispatch(engine, fuel, e, ctx, st);
  }

  /** The context that the children of an element are rendered in: the same scope, slot and owner. */
  function Below(ctx: Context): Context {
    Context(ctx.scope, ctx.slot, ctx.owner, false, ctx.forceLazy, "", [])
  }

  /** An ordinary element writes its tag, its attributes in order, its reveal classes unless they went into one, its
      children in its own scope, and its end tag; a void one has no children and no end tag; nothing follows an attribute
      that fails. */
  lemma ElementWrites(engine: Engine, fuel: nat, e: Node, ctx: Context, st: State)
    requires Ordinary(e) && Open(engine.core, e, ctx.scope) && (ctx.root || e.fragment == "")
    requires !EqualFold(e.tag, "script") && !EqualFold(e.tag, "style")
    ensures var out, classes := RenderNode(engine, fuel, e, ctx, st), RevealClasses(e.attrs);
            var pieces := Pieces(engine.core, e.attrs, classes, ctx.scope);
            var scopes := if ctx.root then AppendUnique(e.scopeAttrs, ctx.parentRootScopes) else e.scopeAttrs;
            var extra := if classes != "" && !WroteClass(pieces) then " class=\"" + EscapeString(classes) + "\"" else "";
            var start := "<" + e.tag + Joined(pieces);
            if exists i :: 0 <= i < |pieces| && pieces[i].None? then out == Output(start, st)
            else if IsVoidHTMLTag(e.tag) then out == Output(start + extra + ScopeMarkup(scopes) + ">", st)
            else
              var inner := RenderNodes(engine, fuel, e.children, Below(ctx), st, false, false);
              out == Output(start + extra + ScopeMarkup(scopes) + ">" + inner.html + "</" + e.tag + ">", inner.state)
  {
    PlainDispatch(engine, fuel, e, ctx, st);
    var classes := RevealClasses(e.attrs);
    var pieces := Pieces(engine.core, e.attrs, classes, ctx.scope);
    AttributesInOrder(engine.core, e.attrs, classes, ctx.scope);
    assert ShellOf(engine.core, e.tag, e.attrs, ScopesOf(e, ctx), e.children, ctx.scope) ==
           var (opening, failed) := StartTag(engine.core, e.tag, e.attrs, ScopesOf(e, ctx), ctx.scope);
           if failed || IsVoidHTMLTag(e.tag) then Complete(opening) else Around(opening);
    var extra := if classes != "" && !WroteClass(pieces) then ClassAttribute(classes) else "";
    var inner := RenderNodes(engine, fuel, e.children, Inner(ctx), st, false, false);
    EndTagApart("<" + e.tag + Joined(pieces) + extra + ScopeMarkup(ScopesOf(e, ctx)) + ">" + inner.html, e.tag);
  }

  lemma EndTagApart(html: string, tag: string)
    ensures html + EndTag(tag) == html + "</" + tag + ">"
  {
    Associative(html, "</", tag);
    Associative(html, "</" + tag, ">");
  }

  /** Scope attributes are written once each, the element's own first. */
  lemma {:induction false} UniqueScopes(own: seq<string>, more: seq<string>)
    requires forall i, j :: 0 <= i < j < |own| ==> own[i] != own[j]
    ensures var all := AppendUnique(own, more);
            && own <= all && (forall x :: x in all <==> x in own || x in more)
            && forall i, j :: 0 <= i < j < |all| ==> all[i] != all[j]
    decreases |more|
  {
    if more != [] {
      var own' := if more[0] in own then own else own + [more[0]];
      UniqueScopes(own', more[1..]);
      assert forall x :: x in more <==> x == more[0] || x in more[1..];
      assert own <= own';
    }
  }

  // ---------------------------------------------------------------- scripts and styles

  function Interpolations(children: seq<Node>): seq<string> {
    if children == [] then []
    else (if children[0].Interpolation? then [children[0].expression] else []) + Interpolations(children[1..])
  }

  /** What the i-th child of a script or style is in the body's template: its text, or the number of its expression. */
  function RawPiece(children: seq<Node>, i: nat): string
    requires i < |children|
  {
    match children[i]
    case Text(t) => t
    case _ => "{{.V" + Digits(|Interpolations(children[..i])|) + "}}"
  }

  function RawPieces(children: seq<Node>, i: nat): string
    requires i <= |children|
    decreases |children| - i
  {
    if i == |children| then "" else RawPiece(children, i) + RawPieces(children, i + 1)
  }

  lemma {:induction false} InterpolationsAppend(a: seq<Node>, b: seq<Node>)
    ensures Interpolations(a + b) == Interpolations(a) + Interpolations(b)
  {
    if a == [] {
      assert a + b == b;
    } else {
      assert (a + b)[0] == a[0] && (a + b)[1..] == a[1..] + b;
      InterpolationsAppend(a[1..], b);
    }
  }

  /** The template of a suffix, in terms of the next one. */
  lemma RawUnfolds(children: seq<Node>, i: nat, n: nat)
    requires i < |children|
    ensures var c, rest := children[i], RawTemplate(children[i + 1..], if children[i].Interpolation? then n + 1 else n);
            RawTemplate(children[i..], n) ==
            if (c.Text? || c.Interpolation?) && rest.Some? then
              Some((if c.Text? then (c.text + rest.value.0, rest.value.1)
                    else ("{{.V" + Digits(n) + "}}" + rest.value.0, [c.expression] + rest.value.1)))
            else None
  {
    assert children[i..][0] == children[i] && children[i..][1..] == children[i + 1..];
  }

  lemma {:induction false} InterpolationsUnfold(children: seq<Node>, i: nat)
    requires i < |children|
    ensures Interpolations(children[i..]) == if children[i].Interpolation? then [children[i].expression] + Interpolations(children[i + 1..])
                                             else Interpolations(children[i + 1..])
    ensures |Interpolations(children[..i + 1])| == |Interpolations(children[..i])| + (if children[i].Interpolation? then 1 else 0)
  {
    assert children[i..][0] == children[i] && children[i..][1..] == children[i + 1..];
    assert [] + Interpolations(children[i + 1..]) == Interpolations(children[i + 1..]);
    assert children[..i + 1] == children[..i] + [children[i]];
    InterpolationsAppend(children[..i], [children[i]]);
    assert [children[i]][1..] == [];
  }

  ghost predicate RawFrom(children: seq<Node>, i: nat)
    requires i <= |children|
  {
    var r := RawTemplate(children[i..], |Interpolations(children[..i])|);
    && (r.Some? <==> forall k :: i <= k < |children| ==> children[k].Text? || children[k].Interpolation?)
    && (r.Some? ==> r.value == (RawPieces(children, i), Interpolations(children[i..])))
  }

  lemma {:induction false} RawSuffix(children: seq<Node>, i: nat)
    requires i <= |children|
    ensures RawFrom(children, i)
    decreases |children| - i
  {
    if i < |children| {
      RawSuffix(children, i + 1);
      RawUnfolds(children, i, |Interpolations(children[..i])|);
      InterpolationsUnfold(children, i);
      assert RawPieces(children, i) == RawPiece(children, i) + RawPieces(children, i + 1);
    }
  }

  /** The body of a script or style becomes a template when it has text and interpolations only: the text with the numbers
      of the expressions in their places, and the expressions in order. */
  lemma RawByPosition(children: seq<Node>)
    ensures var r := RawTemplate(children, 0);
            && (r.Some? <==> forall k :: 0 <= k < |children| ==> children[k].Text? || children[k].Interpolation?)
            && (r.Some? ==> r.value == (RawPieces(children, 0), Interpolations(children)))
  {
    assert children[0..] == children && children[..0] == [];
    RawSuffix(children, 0);
  }

  // ---------------------------------------------------------------- slots and components

  /** A slot element as a component's template has it. */
  predicate SlotElement(n: Node) {
    n.Element? && EqualFold(n.tag, "slot") && !Has(n, "m-if") && n.fragment == ""
  }

  /** The instance is rendered in place: its component is known, its start succeeds and is not put off. */
  predicate Instantiates(engine: Engine, fuel: nat, e: Node, ctx: Context, st: State) {
    && e.Element? && e.isComponent && !IsSlot(e) && !IsClientOnly(e) && Open(engine.core, e, ctx.scope) && (ctx.root || e.fragment == "")
    && e.tag in engine.components && fuel > 0
    && var entry := engine.core.enter(e.tag, e.attrs, ctx.(slot := None), st);
    !entry.failed && !entry.lazy
  }

  /** The slot of a component holds what the instance was given, in the scope and under the owner of the place it was
      written in; a slot without content holds its own children. */
  lemma SlotWrites(engine: Engine, fuel: nat, e: Node, ctx: Context, st: State)
    requires e.Element? && EqualFold(e.tag, "slot") && Open(engine.core, e, ctx.scope) && (ctx.root || e.fragment == "")
    ensures RenderNode(engine, fuel, e, ctx, st)
            == match ctx.slot
               case None => RenderNodes(engine, fuel, e.children, Context(ctx.scope, None, ctx.owner, false, ctx.forceLazy, "", []), st, false, false)
               case Some(given) =>
                 if given.rawHTML != "" then Output(given.rawHTML, st)
                 else RenderNodes(engine, fuel, given.nodes, Context(given.scope, None, given.owner, false, ctx.forceLazy, "", []), st, false, false)
  {
    Dispatch(engine, fuel, e, ctx, st);
  }

  /** The scope attributes for the roots of an instance: the owner's, and those of the roots the instance itself stands in. */
  ghost predicate RootScopes(engine: Engine, ctx: Context, scopes: seq<string>) {
    forall x :: x in scopes <==>
      (ctx.owner in engine.components && engine.components[ctx.owner].scopeID == x != "") || (ctx.root && x in ctx.parentRootScopes)
  }

  /** An instance writes its component's template: with the scope its own logic left, and its children as the content of
      the slot, which belong to the place they stand in. */
  lemma InstanceWrites(engine: Engine, fuel: nat, e: Node, ctx: Context, st: State) returns (scopes: seq<string>)
    requires Instantiates(engine, fuel, e, ctx, st)
    ensures RootScopes(engine, ctx, scopes)
    ensures var entry := engine.core.enter(e.tag, e.attrs, ctx.(slot := None), st);
            var slot := if e.children == [] then None else Some(Slot(e.children, ctx.scope, ctx.owner, ""));
            var inner := RenderNodes(engine, fuel - 1, engine.components[e.tag].template,
                                     Context(entry.scope, slot, e.tag, true, false, "", scopes), entry.state, false, false);
            RenderNode(engine, fuel, e, ctx, st) == Output(entry.header + ">" + inner.html + "</gosh-component>", inner.state)
  {
    InstanceDispatch(engine, fuel, e, ctx, st);
    var entry := engine.core.enter(e.tag, e.attrs, Outside(ctx), st);
    scopes := ComponentContext(engine, e, ctx, entry.scope).parentRootScopes;
    var own := if ctx.owner in engine.components && engine.components[ctx.owner].scopeID != ""
               then [engine.components[ctx.owner].scopeID] else [];
    if ctx.root { UniqueScopes(own, ctx.parentRootScopes); }
  }

  /** The content of an instance goes where its component has the slot, in the scope and under the owner it was written
      in; without content the slot's own children do, in the component's scope. */
  lemma SlotShowsContent(engine: Engine, fuel: nat, e: Node, ctx: Context, st: State, slot: Node)
    requires Instantiates(engine, fuel, e, ctx, st) && SlotElement(slot) && engine.components[e.tag].template == [slot]
    ensures var entry := engine.core.enter(e.tag, e.attrs, ctx.(slot := None), st);
            var inner := if e.children != []
                         then RenderNodes(engine, fuel - 1, e.children, Context(ctx.scope, None, ctx.owner, false, false, "", []), entry.state, false, false)
                         else RenderNodes(engine, fuel - 1, slot.children, Context(entry.scope, None, e.tag, false, false, "", []), entry.state, false, false);
            RenderNode(engine, fuel, e, ctx, st) == Output(entry.header + ">" + inner.html + "</gosh-component>", inner.state)
  {
    var entry := engine.core.enter(e.tag, e.attrs, Outside(ctx), st);
    var within := ComponentContext(engine, e, ctx, entry.scope);
    InstanceDispatch(engine, fuel, e, ctx, st);
    DirectiveMeans(slot, "m-if");
    OnlyNode(engine, fuel - 1, slot, within, entry.state);
    var role := RoleOf(engine.core, slot, within);
    assert role == if e.children != [] then Inside(e.children, Context(ctx.scope, None, ctx.owner, false, false, "", []))
                   else Inside(slot.children, Context(entry.scope, None, e.tag, false, false, "", []));
    InsideDispatch(engine, fuel - 1, slot, within, entry.state, role.nodes, role.inner);
  }

  lemma OnlyNode(engine: Engine, fuel: nat, n: Node, ctx: Context, st: State)
    requires n.Element? && !Has(n, "m-if")
    ensures RenderNodes(engine, fuel, [n], ctx, st, false, false) == RenderNode(engine, fuel, n, ctx, st)
  {
    DirectiveMeans(n, "m-if");
    var out := RenderNode(engine, fuel, n, ctx, st);
    assert [n][1..] == [] && out.html + "" == out.html;
  }

  /** A component's template sees the scope its own logic left, not the scope of the place it is used in. */
  lemma TemplateSeesOwnScope(engine: Engine, fuel: nat, e: Node, ctx: Context, st: State, expression: string)
    requires Instantiates(engine, fuel, e, ctx, st) && engine.components[e.tag].template == [Interpolation(expression)]
    ensures var entry := engine.core.enter(e.tag, e.attrs, ctx.(slot := None), st);
            var v := engine.core.eval(expression, entry.scope);
            var text := if v.Some? then EscapeString(engine.core.stringify(v.value)) else "";
            RenderNode(engine, fuel, e, ctx, st) == Output(entry.header + ">" + text + "</gosh-component>", entry.state)
  {
    InstanceDispatch(engine, fuel, e, ctx, st);
    var n := Interpolation(expression);
    assert [n][1..] == [];
    var entry := engine.core.enter(e.tag, e.attrs, Outside(ctx), st);
    var within := ComponentContext(engine, e, ctx, entry.scope);
    var out := RenderNode(engine, fuel - 1, n, within, entry.state);
    assert out.html + "" == out.html;
    assert RenderNodes(engine, fuel - 1, [n], within, entry.state, false, false) == Output(out.html + "", out.state);
  }

  /** The attribute says when the components in a client-only element start. */
  predicate Hydrates(a: Attribute) {
    a.name in {"hydrate", "client:hydrate"} && !a.boolean && !Blank(a.value)
  }

  lemma {:induction false} HydrationMeans(attrs: seq<Attribute>)
    ensures if exists i :: 0 <= i < |attrs| && Hydrates(attrs[i])
            then exists i :: 0 <= i < |attrs| && Hydrates(attrs[i]) && LazyHydration(attrs) == Lower(TrimSpace(attrs[i].value))
                   && forall j :: 0 <= j < i ==> !Hydrates(attrs[j])
            else LazyHydration(attrs) == "idle"
  {
    if attrs != [] {
      var rest := attrs[1..];
      var x, y := TrimParts(attrs[0].value);
      HydrationMeans(rest);
      assert forall i :: 0 <= i < |rest| ==> rest[i] == attrs[i + 1];
      if Hydrates(attrs[0]) {
      } else if exists i :: 0 <= i < |rest| && Hydrates(rest[i]) {
        var i :| 0 <= i < |rest| && Hydrates(rest[i]) && LazyHydration(rest) == Lower(TrimSpace(rest[i].value))
                 && forall j :: 0 <= j < i ==> !Hydrates(rest[j]);
        assert Hydrates(attrs[i + 1]);
      } else {
        assert forall i :: 0 < i < |attrs| ==> attrs[i] == rest[i - 1];
      }
    }
  }

  /** What a client-only element holds is rendered in place of it, with every component in it put off. */
  lemma ClientOnlyWrites(engine: Engine, fuel: nat, e: Node, ctx: Context, st: State)
    requires e.Element? && EqualFold(e.tag, "clientonly") && !EqualFold(e.tag, "slot") && !Has(e, "m-if") && (ctx.root || e.fragment == "")
    ensures RenderNode(engine, fuel, e, ctx, st)
            == RenderNodes(engine, fuel, e.children, Context(ctx.scope, ctx.slot, ctx.owner, false, true, LazyHydration(e.attrs), []), st, false, false)
  {
    DirectiveMeans(e, "m-if");
    InsideDispatch(engine, fuel, e, ctx, st, e.children, Context(ctx.scope, ctx.slot, ctx.owner, false, true, LazyHydration(e.attrs), []));
  }
}
