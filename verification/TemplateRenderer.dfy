/** Rendering template trees, and the static fragments that are computed ahead of time. */
module TemplateRenderer {
  import opened Letters
  import opened Options
  import opened Texts
  import opened Templates

  type Value = string
  type Scope = map<string, Value>

  /** What a render accumulates besides HTML: used components, scripts, instance numbers, runtime states. */
  type State = seq<string>

  datatype Component = Component(name: string, template: seq<Node>, scopeID: string)

  datatype Slot = Slot(nodes: seq<Node>, scope: Scope, owner: string, rawHTML: string)

  datatype Context = Context(scope: Scope, slot: Option<Slot>, owner: string, root: bool, forceLazy: bool,
                             lazyHydration: string, parentRootScopes: seq<string>)

  /** How a component instance starts: its opening markup, and the scope after its server logic ran. */
  datatype Entry = Entry(failed: bool, header: string, lazy: bool, scope: Scope, state: State)

  /** The parts of rendering that never look at a static tree, as arbitrary functions. */
  datatype Core = Core(
    eval: (string, Scope) -> Option<Value>,
    truthy: Value -> bool,
    stringify: Value -> string,
    dynamicAttribute: (string, Value) -> string,
    parsesInContext: string -> bool,
    executeInContext: (string, seq<Value>) -> Option<string>,
    enter: (string, seq<Attribute>, Context, State) -> Entry)

  datatype Engine = Engine(core: Core, components: map<string, Component>)

  const BLANK: Context := Context(map[], None, "", false, false, "", [])

  // ---------------------------------------------------------------- directives and attributes

  function FindDirective(attrs: seq<Attribute>, name: string): Option<string> {
    if attrs == [] then None
    else if attrs[0].name == name then Some(TrimSpace(attrs[0].value))
    else FindDirective(attrs[1..], name)
  }

  function StaticAttribute(name: string, attr: Attribute): string {
    if attr.boolean then " " + name else " " + name + "=\"" + EscapeString(attr.value) + "\""
  }

  predicate RevealType(s: string) {
    s != "" && forall i :: 0 <= i < |s| ==> 'a' <= s[i] <= 'z' || '0' <= s[i] <= '9' || s[i] == '-'
  }

  /** The last value of a plain attribute, lower-cased and trimmed. */
  function LastPlain(attrs: seq<Attribute>, name: string): string {
    if attrs == [] then ""
    else
      var a := attrs[|attrs| - 1];
      if !a.dynamic && Lower(a.name) == name then Lower(TrimSpace(a.value)) else LastPlain(attrs[..|attrs| - 1], name)
  }

  function RevealClasses(attrs: seq<Attribute>): string {
    var typeName := LastPlain(attrs, "data-gosh-reveal");
    var speed := LastPlain(attrs, "data-gosh-reveal-speed");
    if typeName == "" then ""
    else
      "reveal-active reveal-" + (if RevealType(typeName) then typeName else "slide")
        + (if speed == "fast" || speed == "slow" then " reveal-" + speed else "")
  }

  function AppendHTMLClass(value: string, extra: string): string {
    if TrimSpace(value) == "" then extra else TrimSpace(value) + " " + extra
  }

  function ClassAttribute(value: string): string {
    " class=\"" + EscapeString(value) + "\""
  }

  function EventName(name: string): string {
    var n := if HasPrefix(name, "@") then name[1..] else name;
    if HasPrefix(n, "v-on:") then n[|"v-on:"|..] else n
  }

  /** What one attribute writes, and whether it wrote the class; None when its expression fails. */
  function RenderAttribute(core: Core, a: Attribute, classes: string, scope: Scope): Option<(string, bool)> {
    if a.event then
      if EventName(a.name) == "" then Some(("", false))
      else Some((" data-gosh-on-" + EscapeString(EventName(a.name)) + "=\"" + EscapeString(a.value) + "\"", false))
    else if ShouldSkip(a) || RenderedName(a.name) == "" then Some(("", false))
    else
      var name := RenderedName(a.name);
      if a.dynamic then
        var value := core.eval(TrimSpace(a.value), scope);
        if value.None? then None
        else if name == "class" && classes != "" then
          Some((ClassAttribute(AppendHTMLClass(core.stringify(value.value), classes)), true))
        else Some((core.dynamicAttribute(name, value.value), false))
      else if name == "class" && classes != "" then Some((ClassAttribute(AppendHTMLClass(a.value, classes)), true))
      else Some((StaticAttribute(name, a), false))
  }

  /** The attributes of a start tag: what was written, whether the class was, and whether an expression failed. */
  function RenderAttributes(core: Core, attrs: seq<Attribute>, classes: string, scope: Scope): (string, bool, bool) {
    if attrs == [] then ("", false, false)
    else
      var first := RenderAttribute(core, attrs[0], classes, scope);
      if first.None? then ("", false, true)
      else
        var (text, written, failed) := RenderAttributes(core, attrs[1..], classes, scope);
        (first.value.0 + text, first.value.1 || written, failed)
  }

  function AppendUnique(values: seq<string>, more: seq<string>): seq<string>
    decreases |more|
  {
    if more == [] then values
    else AppendUnique(if more[0] in values then values else values + [more[0]], more[1..])
  }

  function ScopeMarkup(scopes: seq<string>): string {
    if scopes == [] then "" else " " + scopes[0] + ScopeMarkup(scopes[1..])
  }

  // ---------------------------------------------------------------- raw text with expressions

  /** The body template and the expressions of a script or style; None when a child is an element or a comment. */
  function RawTemplate(children: seq<Node>, n: nat): Option<(string, seq<string>)> {
    if children == [] then Some(("", []))
    else
      match children[0]
      case Text(t) =>
        var r := RawTemplate(children[1..], n);
        if r.None? then None else Some((t + r.value.0, r.value.1))
      case Interpolation(e) =>
        var r := RawTemplate(children[1..], n + 1);
        if r.None? then None else Some(("{{.V" + Digits(n) + "}}" + r.value.0, [e] + r.value.1))
      case _ => None
  }

  /** The compiled template of a script or style element that contains expressions. */
  function RawContext(core: Core, tag: string, children: seq<Node>): Option<(string, seq<string>)> {
    if !EqualFold(tag, "script") && !EqualFold(tag, "style") then None
    else
      var r := RawTemplate(children, 0);
      if r.None? || r.value.1 == [] then None
      else
        var source := "<" + tag + ">" + r.value.0 + "</" + tag + ">";
        if core.parsesInContext(source) then Some((source, r.value.1)) else None
  }

  function EvalAll(core: Core, expressions: seq<string>, scope: Scope): Option<seq<Value>> {
    if expressions == [] then Some([])
    else
      var first, rest := core.eval(expressions[0], scope), EvalAll(core, expressions[1..], scope);
      if first.None? || rest.None? then None else Some([first.value] + rest.value)
  }

  // ---------------------------------------------------------------- the renderer

  /** What the renderer appends to its output, and the state it leaves. A failing node keeps what it had written. */
  datatype Output = Output(html: string, state: State)

  function Measure(ctx: Context): nat {
    if ctx.slot.Some? then 1 else 0
  }

  predicate Holds(core: Core, condition: string, scope: Scope) {
    var v := core.eval(condition, scope);
    v.Some? && core.truthy(v.value)
  }

  /** The if-chain: whether the node is rendered, and the chain flags after it. */
  function Chain(core: Core, node: Node, scope: Scope, active: bool, matched: bool): (bool, bool, bool) {
    if node.Text? && Blank(node.text) then (true, active, matched)
    else if !node.Element? then (true, false, false)
    else
      var ifValue, elseIf := FindDirective(node.attrs, "m-if"), FindDirective(node.attrs, "m-else-if");
      if ifValue.Some? then
        var ok := Holds(core, ifValue.value, scope);
        (ok, true, ok)
      else if elseIf.Some? && active then
        if matched then (false, active, matched)
        else
          var ok := Holds(core, elseIf.value, scope);
          (ok, active, ok)
      else if FindDirective(node.attrs, "m-else").Some? && active then
        if matched then (false, false, matched) else (true, false, true)
      else (true, false, false)
  }

  /** `fuel` bounds the nesting of component instances. */
  function RenderNodes(engine: Engine, fuel: nat, nodes: seq<Node>, ctx: Context, st: State, active: bool, matched: bool): Output
    decreases fuel, Measure(ctx), nodes, 0
  {
    if nodes == [] then Output("", st)
    else
      var (shown, active', matched') := Chain(engine.core, nodes[0], ctx.scope, active, matched);
      var first := if shown then RenderNode(engine, fuel, nodes[0], ctx, st) else Output("", st);
      var rest := RenderNodes(engine, fuel, nodes[1..], ctx, first.state, active', matched');
      Output(first.html + rest.html, rest.state)
  }

  function RenderNode(engine: Engine, fuel: nat, node: Node, ctx: Context, st: State): Output
    decreases fuel, Measure(ctx), node, 2
  {
    match node
    case Text(t) => Output(t, st)
    case Interpolation(e) =>
      var v := engine.core.eval(e, ctx.scope);
      Output(if v.None? then "" else EscapeString(engine.core.stringify(v.value)), st)
    case Comment(t) => Output("<!--" + t + "-->", st)
    case Element(_, _, _, _, _, _, fragment) =>
      if !ctx.root && fragment != "" then Output(fragment, st) else RenderElement(engine, fuel, node, ctx, st)
  }

  function Inner(ctx: Context): Context {
    ctx.(root := false, lazyHydration := "", parentRootScopes := [])
  }

  function LazyHydration(attrs: seq<Attribute>): string {
    if attrs == [] then "idle"
    else
      var a := attrs[0];
      if (a.name == "hydrate" || a.name == "client:hydrate") && !a.boolean && TrimSpace(a.value) != "" then Lower(TrimSpace(a.value))
      else LazyHydration(attrs[1..])
  }

  /** What an element turns into, before anything is rendered. */
  datatype Role = Hidden | Raw(html: string) | Inside(nodes: seq<Node>, inner: Context) | Instance | Plain

  function RoleOf(core: Core, e: Node, ctx: Context): (r: Role)
    requires e.Element?
    ensures r.Inside? ==>
              Measure(r.inner) < Measure(ctx) || (Measure(r.inner) == Measure(ctx) && r.nodes == e.children)
  {
    var condition := FindDirective(e.attrs, "m-if");
    if condition.Some? && !Holds(core, condition.value, ctx.scope) then Hidden
    else if IsSlot(e) then
      if ctx.slot.Some? then
        var s := ctx.slot.value;
        if s.rawHTML != "" then Raw(s.rawHTML)
        else Inside(s.nodes, Context(s.scope, None, s.owner, false, ctx.forceLazy, "", []))
      else Inside(e.children, Inner(ctx))
    else if IsClientOnly(e) then Inside(e.children, Inner(ctx).(forceLazy := true, lazyHydration := LazyHydration(e.attrs)))
    else if e.isComponent then Instance
    else Plain
  }

  function RenderElement(engine: Engine, fuel: nat, e: Node, ctx: Context, st: State): Output
    requires e.Element?
    decreases fuel, Measure(ctx), e, 1
  {
    match RoleOf(engine.core, e, ctx)
    case Hidden => Output("", st)
    case Raw(html) => Output(html, st)
    case Inside(nodes, inner) => RenderNodes(engine, fuel, nodes, inner, st, false, false)
    case Instance => RenderComponentNode(engine, fuel, e, ctx, st)
    case Plain => RenderPlainElement(engine, fuel, e, ctx, st)
  }

  function StartTag(core: Core, tag: string, attrs: seq<Attribute>, scopes: seq<string>, scope: Scope): (string, bool) {
    var classes := RevealClasses(attrs);
    var (text, written, failed) := RenderAttributes(core, attrs, classes, scope);
    if failed then ("<" + tag + text, true)
    else ("<" + tag + text + (if classes != "" && !written then ClassAttribute(classes) else "") + ScopeMarkup(scopes) + ">", false)
  }

  function EndTag(tag: string): string {
    "</" + tag + ">"
  }

  /** An element's own markup: complete when it has no children to render, otherwise the start tag. */
  datatype Shell = Complete(html: string) | Around(start: string)

  function ShellOf(core: Core, tag: string, attrs: seq<Attribute>, scopes: seq<string>, children: seq<Node>, scope: Scope): Shell {
    var (start, failed) := StartTag(core, tag, attrs, scopes, scope);
    if failed || IsVoidHTMLTag(tag) then Complete(start)
    else
      var raw := RawContext(core, tag, children);
      if raw.None? then Around(start)
      else
        var values := EvalAll(core, raw.value.1, scope);
        var body := if values.None? then None else core.executeInContext(raw.value.0, values.value);
        Complete(if body.None? then start else start + body.value + EndTag(tag))
  }

  function ScopesOf(e: Node, ctx: Context): seq<string>
    requires e.Element?
  {
    if ctx.root then AppendUnique(e.scopeAttrs, ctx.parentRootScopes) else e.scopeAttrs
  }

  function RenderPlainElement(engine: Engine, fuel: nat, e: Node, ctx: Context, st: State): Output
    requires e.Element?
    decreases fuel, Measure(ctx), e, 0
  {
    match ShellOf(engine.core, e.tag, e.attrs, ScopesOf(e, ctx), e.children, ctx.scope)
    case Complete(html) => Output(html, st)
    case Around(start) =>
      var inner := RenderNodes(engine, fuel, e.children, Inner(ctx), st, false, false);
      Output(start + inner.html + EndTag(e.tag), inner.state)
  }

  /** The context a component node shows its engine: no trees in it. */
  function Outside(ctx: Context): Context {
    ctx.(slot := None)
  }

  /** The context of a component's own template: a component root, with the node's children in the slot. */
  function ComponentContext(engine: Engine, e: Node, ctx: Context, scope: Scope): Context
    requires e.Element?
  {
    var slot := if |e.children| > 0 then Some(Slot(e.children, ctx.scope, ctx.owner, "")) else None;
    var own := if ctx.owner in engine.components && engine.components[ctx.owner].scopeID != ""
               then [engine.components[ctx.owner].scopeID] else [];
    var scopes := if ctx.root then AppendUnique(own, ctx.parentRootScopes) else own;
    Context(scope, slot, e.tag, true, false, "", scopes)
  }

  function RenderComponentNode(engine: Engine, fuel: nat, e: Node, ctx: Context, st: State): Output
    requires e.Element?
    decreases fuel, Measure(ctx), e, 0
  {
    if e.tag !in engine.components || fuel == 0 then Output("", st)
    else
      var component := engine.components[e.tag];
      var entry := engine.core.enter(e.tag, e.attrs, Outside(ctx), st);
      if entry.failed then Output("", entry.state)
      else if entry.lazy then Output(entry.header + "</gosh-component>", entry.state)
      else
        var inner := RenderNodes(engine, fuel - 1, component.template, ComponentContext(engine, e, ctx, entry.scope), entry.state, false, false);
        Output(entry.header + ">" + inner.html + "</gosh-component>", inner.state)
  }

  // ---------------------------------------------------------------- static trees

  predicate StaticAttributes(attrs: seq<Attribute>) {
    forall i :: 0 <= i < |attrs| ==>
      !attrs[i].dynamic && !attrs[i].event && !attrs[i].directive && !IsStructuralDirective(attrs[i].name)
  }

  predicate StaticTree(e: Node)
    decreases e, 1
  {
    && e.Element?
    && !e.isComponent && !IsSlot(e) && !IsClientOnly(e)
    && StaticAttributes(e.attrs)
    && StaticNodes(e.children)
  }

  predicate StaticNodes(nodes: seq<Node>)
    decreases nodes, 0
  {
    nodes == [] || ((nodes[0].Text? || nodes[0].Comment? || StaticTree(nodes[0])) && StaticNodes(nodes[1..]))
  }

  function StaticAttributesMarkup(attrs: seq<Attribute>, classes: string): string {
    if attrs == [] then ""
    else
      var a := attrs[0];
      (if ShouldSkip(a) || RenderedName(a.name) == "" then ""
       else if RenderedName(a.name) == "class" && classes != "" then ClassAttribute(AppendHTMLClass(a.value, classes))
       else StaticAttribute(RenderedName(a.name), a))
        + StaticAttributesMarkup(attrs[1..], classes)
  }

  predicate WritesClass(attrs: seq<Attribute>) {
    exists i :: 0 <= i < |attrs| && !ShouldSkip(attrs[i]) && RenderedName(attrs[i].name) == "class"
  }

  /** The HTML of a static tree: a function of the tree alone. */
  function Markup(node: Node): string
    decreases node, 1
  {
    match node
    case Text(t) => t
    case Interpolation(_) => ""
    case Comment(t) => "<!--" + t + "-->"
    case Element(tag, _, _, attrs, children, scopeAttrs, _) =>
      var classes := RevealClasses(attrs);
      var start := "<" + tag + StaticAttributesMarkup(attrs, classes)
                     + (if classes != "" && !WritesClass(attrs) then ClassAttribute(classes) else "") + ScopeMarkup(scopeAttrs) + ">";
      if IsVoidHTMLTag(tag) then start else start + MarkupNodes(children) + EndTag(tag)
  }

  function MarkupNodes(nodes: seq<Node>): string
    decreases nodes, 0
  {
    if nodes == [] then "" else Markup(nodes[0]) + MarkupNodes(nodes[1..])
  }

  // ---------------------------------------------------------------- preparation

  /** prepareTemplateMetadata: children first, then the fragment of a static element, rendered from the prepared tree. */
  function Prepare(core: Core, node: Node): Node
    decreases node, 1
  {
    if !node.Element? then node
    else
      var e := node.(children := PrepareNodes(core, node.children));
      if StaticTree(e) then e.(fragment := RenderElement(Engine(core, map[]), 0, e, BLANK, []).html) else e
  }

  function PrepareNodes(core: Core, nodes: seq<Node>): seq<Node>
    decreases nodes, 0
  {
    if nodes == [] then [] else [Prepare(core, nodes[0])] + PrepareNodes(core, nodes[1..])
  }

  /** A tree as the parser leaves it. */
  predicate Unprepared(node: Node)
    decreases node, 1
  {
    node.Element? ==> node.fragment == "" && UnpreparedNodes(node.children)
  }

  predicate UnpreparedNodes(nodes: seq<Node>)
    decreases nodes, 0
  {
    nodes == [] || (Unprepared(nodes[0]) && UnpreparedNodes(nodes[1..]))
  }

  function PrepareSlot(core: Core, slot: Option<Slot>): Option<Slot> {
    if slot.None? then None else Some(slot.value.(nodes := PrepareNodes(core, slot.value.nodes)))
  }

  function PrepareContext(core: Core, ctx: Context): Context {
    ctx.(slot := PrepareSlot(core, ctx.slot))
  }

  /** The same engine with every component template prepared. */
  ghost predicate PreparedEngine(engine: Engine, prepared: Engine) {
    && prepared.core == engine.core
    && prepared.components.Keys == engine.components.Keys
    && forall n :: n in engine.components ==>
         prepared.components[n] == engine.components[n].(template := PrepareNodes(engine.core, engine.components[n].template))
  }

  // ---------------------------------------------------------------- static trees render to their markup

  lemma {:induction false} NoDirective(attrs: seq<Attribute>, name: string)
    requires StaticAttributes(attrs) && IsStructuralDirective(name)
    ensures FindDirective(attrs, name).None?
  {
    if attrs != [] {
      assert attrs[0].name != name;
      assert forall i :: 0 <= i < |attrs[1..]| ==> attrs[1..][i] == attrs[i + 1];
      NoDirective(attrs[1..], name);
    }
  }

  lemma {:induction false} StaticStart(core: Core, attrs: seq<Attribute>, classes: string, scope: Scope)
    requires StaticAttributes(attrs)
    ensures RenderAttributes(core, attrs, classes, scope) ==
            (StaticAttributesMarkup(attrs, classes), classes != "" && WritesClass(attrs), false)
  {
    if attrs != [] {
      var rest := attrs[1..];
      assert forall i :: 0 <= i < |rest| ==> rest[i] == attrs[i + 1];
      StaticStart(core, rest, classes, scope);
      var a := attrs[0];
      assert WritesClass(attrs) <==> (!ShouldSkip(a) && RenderedName(a.name) == "class") || WritesClass(rest) by {
        if WritesClass(rest) {
          var i :| 0 <= i < |rest| && !ShouldSkip(rest[i]) && RenderedName(rest[i].name) == "class";
          assert attrs[i + 1] == rest[i];
        }
        if WritesClass(attrs) && !(!ShouldSkip(a) && RenderedName(a.name) == "class") {
          var i :| 0 <= i < |attrs| && !ShouldSkip(attrs[i]) && RenderedName(attrs[i].name) == "class";
          assert rest[i - 1] == attrs[i];
        }
      }
    }
  }

  /** Every fragment present in the tree is the markup of its element. */
  predicate FragmentsRight(node: Node)
    decreases node, 1
  {
    node.Element? ==> (node.fragment == "" || node.fragment == Markup(node)) && AllFragmentsRight(node.children)
  }

  predicate AllFragmentsRight(nodes: seq<Node>)
    decreases nodes, 0
  {
    nodes == [] || (FragmentsRight(nodes[0]) && AllFragmentsRight(nodes[1..]))
  }

  lemma {:induction false} StaticHasNoExpressions(nodes: seq<Node>, n: nat)
    requires StaticNodes(nodes)
    ensures RawTemplate(nodes, n).Some? ==> RawTemplate(nodes, n).value.1 == []
  {
    if nodes != [] {
      StaticHasNoExpressions(nodes[1..], n);
    }
  }

  lemma StaticChain(core: Core, node: Node, scope: Scope, active: bool, matched: bool)
    requires node.Text? || node.Comment? || StaticTree(node)
    ensures Chain(core, node, scope, active, matched).0
  {
    if node.Element? {
      NoDirective(node.attrs, "m-if");
      NoDirective(node.attrs, "m-else-if");
      NoDirective(node.attrs, "m-else");
    }
  }

  lemma StaticRole(core: Core, e: Node, ctx: Context)
    requires StaticTree(e) && !ctx.root
    ensures RoleOf(core, e, ctx) == Plain && ScopesOf(e, ctx) == e.scopeAttrs
  {
    NoDirective(e.attrs, "m-if");
  }

  lemma StaticShell(core: Core, e: Node, scope: Scope)
    requires StaticTree(e)
    ensures var shell := ShellOf(core, e.tag, e.attrs, e.scopeAttrs, e.children, scope);
            Markup(e) == if shell.Complete? then shell.html else shell.start + MarkupNodes(e.children) + EndTag(e.tag)
  {
    StaticStart(core, e.attrs, RevealClasses(e.attrs), scope);
    StaticHasNoExpressions(e.children, 0);
  }

  /** A static tree renders to its markup in every context that is not a component root, and leaves the state alone. */
  lemma {:induction false} StaticElementRenders(engine: Engine, fuel: nat, e: Node, ctx: Context, st: State)
    requires StaticTree(e) && FragmentsRight(e) && !ctx.root
    ensures RenderElement(engine, fuel, e, ctx, st) == Output(Markup(e), st)
    decreases e, 1
  {
    StaticRole(engine.core, e, ctx);
    StaticShell(engine.core, e, ctx.scope);
    StaticNodesRender(engine, fuel, e.children, Inner(ctx), st, false, false);
  }

  lemma {:induction false} StaticNodesRender(engine: Engine, fuel: nat, nodes: seq<Node>, ctx: Context, st: State, active: bool, matched: bool)
    requires StaticNodes(nodes) && AllFragmentsRight(nodes) && !ctx.root
    ensures RenderNodes(engine, fuel, nodes, ctx, st, active, matched) == Output(MarkupNodes(nodes), st)
    decreases nodes, 0
  {
    if nodes != [] {
      StaticChain(engine.core, nodes[0], ctx.scope, active, matched);
      if nodes[0].Element? {
        StaticElementRenders(engine, fuel, nodes[0], ctx, st);
      }
      var (_, active', matched') := Chain(engine.core, nodes[0], ctx.scope, active, matched);
      StaticNodesRender(engine, fuel, nodes[1..], ctx, st, active', matched');
    }
  }

  // ---------------------------------------------------------------- preparation keeps the meaning

  lemma {:induction false} PrepareFacts(core: Core, node: Node)
    requires Unprepared(node)
    ensures Markup(Prepare(core, node)) == Markup(node)
    ensures StaticTree(Prepare(core, node)) == StaticTree(node)
    ensures FragmentsRight(Prepare(core, node))
    ensures node.Element? ==>
              Prepare(core, node) == node.(children := PrepareNodes(core, node.children), fragment := if StaticTree(node) then Markup(node) else "")
    decreases node, 1
  {
    if node.Element? {
      PrepareNodesFacts(core, node.children);
      var e := node.(children := PrepareNodes(core, node.children));
      assert StaticTree(e) == StaticTree(node);
      assert Markup(e) == Markup(node);
      if StaticTree(e) {
        StaticElementRenders(Engine(core, map[]), 0, e, BLANK, []);
      }
    }
  }

  lemma {:induction false} PrepareNodesFacts(core: Core, nodes: seq<Node>)
    requires UnpreparedNodes(nodes)
    ensures MarkupNodes(PrepareNodes(core, nodes)) == MarkupNodes(nodes)
    ensures StaticNodes(PrepareNodes(core, nodes)) == StaticNodes(nodes)
    ensures AllFragmentsRight(PrepareNodes(core, nodes))
    ensures |PrepareNodes(core, nodes)| == |nodes|
    decreases nodes, 0
  {
    if nodes != [] {
      PrepareFacts(core, nodes[0]);
      PrepareNodesFacts(core, nodes[1..]);
      var ps := PrepareNodes(core, nodes);
      assert ps[0] == Prepare(core, nodes[0]) && ps[1..] == PrepareNodes(core, nodes[1..]);
    }
  }

  predicate UnpreparedContext(ctx: Context) {
    ctx.slot.Some? ==> UnpreparedNodes(ctx.slot.value.nodes)
  }

  predicate UnpreparedEngine(engine: Engine) {
    forall n :: n in engine.components ==> UnpreparedNodes(engine.components[n].template)
  }

  lemma {:induction false} SameRawTemplate(core: Core, nodes: seq<Node>, n: nat)
    ensures RawTemplate(PrepareNodes(core, nodes), n) == RawTemplate(nodes, n)
  {
    if nodes != [] {
      var ps := PrepareNodes(core, nodes);
      assert ps[0] == Prepare(core, nodes[0]) && ps[1..] == PrepareNodes(core, nodes[1..]);
      SameRawTemplate(core, nodes[1..], if nodes[0].Interpolation? then n + 1 else n);
    }
  }

  lemma SameRawContext(core: Core, tag: string, children: seq<Node>)
    ensures RawContext(core, tag, PrepareNodes(core, children)) == RawContext(core, tag, children)
  {
    SameRawTemplate(core, children, 0);
  }

  lemma SameChain(core: Core, nodes: seq<Node>, scope: Scope, active: bool, matched: bool)
    requires UnpreparedNodes(nodes) && nodes != []
    ensures var ps := PrepareNodes(core, nodes);
            && ps == [Prepare(core, nodes[0])] + PrepareNodes(core, nodes[1..])
            && ps != [] && ps[0] == Prepare(core, nodes[0]) && ps[1..] == PrepareNodes(core, nodes[1..])
            && Chain(core, ps[0], scope, active, matched) == Chain(core, nodes[0], scope, active, matched)
  {
    PrepareFacts(core, nodes[0]);
  }

  /** Rendering with fragments at all levels, in the component templates and the slot too, gives the same HTML and the
      same state as rendering without any, in every context. */
  lemma {:induction false} FragmentsKeepMeaning(engine: Engine, pe: Engine, fuel: nat, nodes: seq<Node>, ctx: Context, st: State, active: bool, matched: bool)
    requires PreparedEngine(engine, pe) && UnpreparedEngine(engine) && UnpreparedNodes(nodes) && UnpreparedContext(ctx)
    ensures RenderNodes(pe, fuel, PrepareNodes(engine.core, nodes), PrepareContext(engine.core, ctx), st, active, matched)
            == RenderNodes(engine, fuel, nodes, ctx, st, active, matched)
    decreases fuel, Measure(ctx), nodes, 0
  {
    if nodes != [] {
      SameChain(engine.core, nodes, ctx.scope, active, matched);
      var (shown, active', matched') := Chain(engine.core, nodes[0], ctx.scope, active, matched);
      NodeKeepsMeaning(engine, pe, fuel, nodes[0], ctx, st);
      var st' := if shown then RenderNode(engine, fuel, nodes[0], ctx, st).state else st;
      FragmentsKeepMeaning(engine, pe, fuel, nodes[1..], ctx, st', active', matched');
    }
  }

  lemma {:induction false} NodeKeepsMeaning(engine: Engine, pe: Engine, fuel: nat, node: Node, ctx: Context, st: State)
    requires PreparedEngine(engine, pe) && UnpreparedEngine(engine) && Unprepared(node) && UnpreparedContext(ctx)
    ensures RenderNode(pe, fuel, Prepare(engine.core, node), PrepareContext(engine.core, ctx), st)
            == RenderNode(engine, fuel, node, ctx, st)
    decreases fuel, Measure(ctx), node, 2
  {
    if node.Element? {
      PrepareFacts(engine.core, node);
      if StaticTree(node) && !ctx.root {
        assert AllFragmentsRight(node.children) by { UnpreparedIsRight(node.children); }
        StaticElementRenders(engine, fuel, node, ctx, st);
      } else {
        ElementKeepsMeaning(engine, pe, fuel, node, ctx, st);
      }
    }
  }

  lemma {:induction false} UnpreparedIsRight(nodes: seq<Node>)
    requires UnpreparedNodes(nodes)
    ensures AllFragmentsRight(nodes)
    decreases nodes
  {
    if nodes != [] {
      if nodes[0].Element? { UnpreparedIsRight(nodes[0].children); }
      UnpreparedIsRight(nodes[1..]);
    }
  }

  function PrepareRole(core: Core, r: Role): Role {
    if r.Inside? then Inside(PrepareNodes(core, r.nodes), PrepareContext(core, r.inner)) else r
  }

  lemma SameRole(core: Core, e: Node, ctx: Context)
    requires Unprepared(e) && e.Element? && UnpreparedContext(ctx)
    ensures RoleOf(core, Prepare(core, e), PrepareContext(core, ctx)) == PrepareRole(core, RoleOf(core, e, ctx))
    ensures RoleOf(core, e, ctx).Inside? ==>
              UnpreparedNodes(RoleOf(core, e, ctx).nodes) && UnpreparedContext(RoleOf(core, e, ctx).inner)
  {
    PrepareFacts(core, e);
  }

  lemma {:induction false} ElementKeepsMeaning(engine: Engine, pe: Engine, fuel: nat, e: Node, ctx: Context, st: State)
    requires PreparedEngine(engine, pe) && UnpreparedEngine(engine) && Unprepared(e) && UnpreparedContext(ctx) && e.Element?
    ensures RenderElement(pe, fuel, Prepare(engine.core, e), PrepareContext(engine.core, ctx), st)
            == RenderElement(engine, fuel, e, ctx, st)
    decreases fuel, Measure(ctx), e, 1
  {
    SameRole(engine.core, e, ctx);
    match RoleOf(engine.core, e, ctx)
    case Inside(nodes, inner) => FragmentsKeepMeaning(engine, pe, fuel, nodes, inner, st, false, false);
    case Instance => ComponentKeepsMeaning(engine, pe, fuel, e, ctx, st);
    case Plain => PlainKeepsMeaning(engine, pe, fuel, e, ctx, st);
    case _ =>
  }

  lemma SameShell(core: Core, e: Node, ctx: Context)
    requires Unprepared(e) && e.Element?
    ensures var p := Prepare(core, e);
            && p.Element? && p.children == PrepareNodes(core, e.children) && p.tag == e.tag
            && ShellOf(core, p.tag, p.attrs, ScopesOf(p, PrepareContext(core, ctx)), p.children, ctx.scope)
               == ShellOf(core, e.tag, e.attrs, ScopesOf(e, ctx), e.children, ctx.scope)
  {
    PrepareFacts(core, e);
    SameRawContext(core, e.tag, e.children);
    assert ScopesOf(Prepare(core, e), PrepareContext(core, ctx)) == ScopesOf(e, ctx);
  }

  lemma {:induction false} PlainKeepsMeaning(engine: Engine, pe: Engine, fuel: nat, e: Node, ctx: Context, st: State)
    requires PreparedEngine(engine, pe) && UnpreparedEngine(engine) && Unprepared(e) && UnpreparedContext(ctx) && e.Element?
    ensures RenderPlainElement(pe, fuel, Prepare(engine.core, e), PrepareContext(engine.core, ctx), st)
            == RenderPlainElement(engine, fuel, e, ctx, st)
    decreases fuel, Measure(ctx), e, 0
  {
    SameShell(engine.core, e, ctx);
    FragmentsKeepMeaning(engine, pe, fuel, e.children, Inner(ctx), st, false, false);
  }

  lemma SameComponentContext(engine: Engine, pe: Engine, e: Node, ctx: Context, scope: Scope)
    requires PreparedEngine(engine, pe) && Unprepared(e) && e.Element?
    ensures ComponentContext(pe, Prepare(engine.core, e), PrepareContext(engine.core, ctx), scope)
            == PrepareContext(engine.core, ComponentContext(engine, e, ctx, scope))
  {
    PrepareFacts(engine.core, e);
    PrepareNodesFacts(engine.core, e.children);
  }

  lemma {:induction false} ComponentKeepsMeaning(engine: Engine, pe: Engine, fuel: nat, e: Node, ctx: Context, st: State)
    requires PreparedEngine(engine, pe) && UnpreparedEngine(engine) && Unprepared(e) && UnpreparedContext(ctx) && e.Element?
    ensures RenderComponentNode(pe, fuel, Prepare(engine.core, e), PrepareContext(engine.core, ctx), st)
            == RenderComponentNode(engine, fuel, e, ctx, st)
    decreases fuel, Measure(ctx), e, 0
  {
    assert Prepare(engine.core, e).tag == e.tag && Prepare(engine.core, e).attrs == e.attrs;
    if e.tag in engine.components && fuel > 0 {
      var entry := engine.core.enter(e.tag, e.attrs, Outside(ctx), st);
      SameComponentContext(engine, pe, e, ctx, entry.scope);
      var inner := ComponentContext(engine, e, ctx, entry.scope);
      assert UnpreparedContext(inner);
      FragmentsKeepMeaning(engine, pe, fuel - 1, engine.components[e.tag].template, inner, entry.state, false, false);
    }
  }
}
