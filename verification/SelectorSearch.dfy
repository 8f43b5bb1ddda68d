/** Selector search over a parsed HTML tree; white space is the descendant combinator. */
module SelectorSearch {
  import opened Options
  import opened Texts

  datatype Kind = ElementNode | OtherNode

  datatype Attribute = Attribute(key: string, val: string)

  datatype Node = Node(kind: Kind, data: string, attrs: seq<Attribute>, children: seq<Node>)

  /** A node of a tree, as the child numbers on the way down to it: two nodes are the same when their paths are. */
  type Path = seq<nat>

  predicate Within(tree: Node, p: Path) {
    p == [] || (p[0] < |tree.children| && Within(tree.children[p[0]], p[1..]))
  }

  function At(tree: Node, p: Path): Node
    requires Within(tree, p)
  {
    if p == [] then tree else At(tree.children[p[0]], p[1..])
  }

  lemma {:induction false} Child(tree: Node, p: Path, i: nat)
    requires Within(tree, p)
    ensures Within(tree, p + [i]) <==> i < |At(tree, p).children|
    ensures Within(tree, p + [i]) ==> At(tree, p + [i]) == At(tree, p).children[i]
  {
    if p != [] {
      assert (p + [i])[0] == p[0] && (p + [i])[1..] == p[1..] + [i];
      Child(tree.children[p[0]], p[1..], i);
    } else {
      assert (p + [i])[1..] == [];
    }
  }

  lemma {:induction false} Ancestor(tree: Node, p: Path, q: Path)
    requires Within(tree, q) && p <= q
    ensures Within(tree, p)
  {
    if p != [] {
      Ancestor(tree.children[p[0]], p[1..], q[1..]);
    }
  }

  // ---------------------------------------------------------------- document order

  /** Document order: a node comes before everything below it and before everything right of it. */
  predicate Before(p: Path, q: Path) {
    q != [] && (p == [] || p[0] < q[0] || (p[0] == q[0] && Before(p[1..], q[1..])))
  }

  predicate Ordered(ps: seq<Path>) {
    forall i, j :: 0 <= i < j < |ps| ==> Before(ps[i], ps[j])
  }

  /** Document order is a strict total order. */
  lemma {:induction false} TotalOrder(p: Path, q: Path, r: Path)
    ensures !(Before(p, q) && Before(q, p))
    ensures Before(p, q) || p == q || Before(q, p)
    ensures Before(p, q) && Before(q, r) ==> Before(p, r)
  {
    if p != [] && q != [] {
      assert p == [p[0]] + p[1..] && q == [q[0]] + q[1..];
      TotalOrder(p[1..], q[1..], if r == [] then [] else r[1..]);
    }
  }

  lemma {:induction false} BelowIsLater(p: Path, q: Path)
    requires p < q
    ensures Before(p, q)
  {
    if p != [] {
      BelowIsLater(p[1..], q[1..]);
    }
  }

  lemma {:induction false} RightIsLater(n: Path, p: Path, q: Path)
    requires n < p && n < q && p[|n|] < q[|n|]
    ensures Before(p, q)
  {
    if n != [] {
      RightIsLater(n[1..], p[1..], q[1..]);
    }
  }

  /** What is below an earlier node precedes what is below a later one, unless the later one is below the earlier. */
  lemma {:induction false} SubtreesInOrder(a: Path, b: Path, x: Path, y: Path)
    requires Before(a, b) && !(a <= b) && a <= x && b <= y
    ensures Before(x, y)
  {
    if a[0] == b[0] {
      SubtreesInOrder(a[1..], b[1..], x[1..], y[1..]);
    }
  }

  lemma OrderedAppend(ps: seq<Path>, q: Path)
    requires Ordered(ps) && forall p :: p in ps ==> Before(p, q)
    ensures Ordered(ps + [q])
  {
  }

  lemma OrderedConcat(ps: seq<Path>, qs: seq<Path>)
    requires Ordered(ps) && Ordered(qs) && forall p, q :: p in ps && q in qs ==> Before(p, q)
    ensures Ordered(ps + qs)
  {
    var s := ps + qs;
    forall i, j | 0 <= i < j < |s| ensures Before(s[i], s[j]) {
      if i < |ps| <= j {
        assert s[i] in ps && s[j] in qs;
      }
    }
  }

  lemma EmptyOrNot(ps: seq<Path>)
    ensures ps == [] || exists p :: p in ps
  {
    if ps != [] {
      assert ps[0] in ps;
    }
  }

  /** A set of nodes has one listing in document order. */
  lemma {:induction false} OneListing(ps: seq<Path>, qs: seq<Path>)
    requires Ordered(ps) && Ordered(qs) && forall p :: p in ps <==> p in qs
    ensures ps == qs
  {
    if ps == [] {
      EmptyOrNot(qs);
    } else {
      assert ps[0] in qs;
      assert qs[0] in ps;
      TotalOrder(ps[0], qs[0], ps[0]);
      assert ps[0] == qs[0];
      forall p ensures p in ps[1..] <==> p in qs[1..] {
        TotalOrder(ps[0], ps[0], p);
        assert p in ps[1..] ==> Before(ps[0], p) && p in qs && p != qs[0];
        assert p in qs[1..] ==> Before(qs[0], p) && p in ps && p != ps[0];
      }
      OneListing(ps[1..], qs[1..]);
    }
  }

  // ---------------------------------------------------------------- compound selectors

  datatype SelectorRule = SelectorRule(tag: string, id: string, classes: seq<string>)

  datatype Mode = Tag | Id | Class

  /** A simple selector as written: the tag first, every other one behind its sigil. */
  datatype Simple = Simple(mode: Mode, text: string)

  predicate Sigil(c: char) {
    c == '#' || c == '.'
  }

  function ModeOf(c: char): Mode
    requires Sigil(c)
  {
    if c == '#' then Id else Class
  }

  function Show(simples: seq<Simple>): string {
    if simples == [] then ""
    else
      var simple := simples[0];
      (match simple.mode case Tag => "" case Id => "#" case Class => ".") + simple.text + Show(simples[1..])
  }

  /** The simple selectors of `s`, of which the first one's text so far is `current`. */
  function Simples(mode: Mode, current: string, s: string): (r: seq<Simple>)
    ensures r != [] && r[0].mode == mode
    decreases |s|
  {
    if s == "" then [Simple(mode, current)]
    else if Sigil(s[0]) then [Simple(mode, current)] + Simples(ModeOf(s[0]), "", s[1..])
    else Simples(mode, current + [s[0]], s[1..])
  }

  /** Empty simple selectors say nothing, the last tag and identifier win, classes add up. */
  function With(rule: SelectorRule, simple: Simple): SelectorRule {
    if simple.text == "" then rule
    else match simple.mode
      case Tag => rule.(tag := simple.text)
      case Id => rule.(id := simple.text)
      case Class => rule.(classes := rule.classes + [simple.text])
  }

  function Combine(rule: SelectorRule, simples: seq<Simple>): SelectorRule
    decreases |simples|
  {
    if simples == [] then rule else Combine(With(rule, simples[0]), simples[1..])
  }

  function RuleOf(part: string): SelectorRule {
    Combine(SelectorRule("", "", []), Simples(Tag, "", part))
  }

  method ParseSelector(s: string) returns (rule: SelectorRule)
    ensures rule == RuleOf(s)
  {
    rule := SelectorRule("", "", []);
    var current, mode := "", Tag;
    var i := 0;
    assert s[0..] == s;
    while i < |s|
      invariant 0 <= i <= |s|
      invariant Combine(rule, Simples(mode, current, s[i..])) == RuleOf(s)
    {
      ghost var rest := s[i..];
      assert rest[1..] == s[i + 1..];
      if Sigil(s[i]) {
        assert Simples(mode, current, rest)[1..] == Simples(ModeOf(s[i]), "", s[i + 1..]);
        rule := With(rule, Simple(mode, current));
        current, mode := "", ModeOf(s[i]);
      } else {
        current := current + [s[i]];
      }
      i := i + 1;
    }
    assert Combine(With(rule, Simple(mode, current)), []) == With(rule, Simple(mode, current));
    rule := With(rule, Simple(mode, current));
  }

  predicate NoSigil(s: string) {
    forall i :: 0 <= i < |s| ==> !Sigil(s[i])
  }

  /** Written-out simple selectors: the tag stands first and only there, and no text has a sigil in it. */
  predicate Written(simples: seq<Simple>) {
    && simples != []
    && (forall i :: 0 <= i < |simples| ==> NoSigil(simples[i].text))
    && (forall i :: 0 < i < |simples| ==> simples[i].mode != Tag)
  }

  lemma {:induction false} TextIsTaken(mode: Mode, current: string, text: string, rest: string)
    requires NoSigil(text) && (rest == "" || Sigil(rest[0]))
    ensures Simples(mode, current, text + rest) == Simples(mode, current + text, rest)
    decreases |text|
  {
    if text == "" {
      assert text + rest == rest && current + text == current;
    } else {
      assert (text + rest)[0] == text[0] && (text + rest)[1..] == text[1..] + rest;
      TextIsTaken(mode, current + [text[0]], text[1..], rest);
      assert current + [text[0]] + text[1..] == current + text;
    }
  }

  /** The scanner gives back the simple selectors that were written. */
  lemma {:induction false} ScanOfShow(simples: seq<Simple>)
    requires Written(simples) && simples[0].mode == Tag
    ensures Simples(Tag, "", Show(simples)) == simples
  {
    assert "" + simples[0].text == simples[0].text;
    ScanOfRest(Tag, simples[0].text, simples[1..]);
    assert simples == [simples[0]] + simples[1..];
  }

  lemma ShowNext(rest: seq<Simple>, sigil: char)
    requires rest != [] && rest[0].mode != Tag && sigil == if rest[0].mode.Id? then '#' else '.'
    ensures var more := rest[0].text + Show(rest[1..]);
            Show(rest) != "" && Show(rest)[0] == sigil && Show(rest)[1..] == more
  {
    var more := rest[0].text + Show(rest[1..]);
    assert Show(rest) == [sigil] + more;
  }

  lemma {:induction false} ScanOfRest(mode: Mode, text: string, rest: seq<Simple>)
    requires NoSigil(text) && (rest == [] || Written(rest)) && (rest != [] ==> rest[0].mode != Tag)
    ensures Simples(mode, "", text + Show(rest)) == [Simple(mode, text)] + rest
    decreases |rest|
  {
    if rest == [] {
      TextIsTaken(mode, "", text, "");
      assert "" + text == text;
    } else {
      var next := rest[0];
      var sigil := if next.mode.Id? then '#' else '.';
      var more := next.text + Show(rest[1..]);
      ShowNext(rest, sigil);
      TextIsTaken(mode, "", text, Show(rest));
      assert "" + text == text;
      ScanOfRest(next.mode, next.text, rest[1..]);
      assert rest == [next] + rest[1..];
    }
  }

  /** The texts written with a mode, empty ones left out. */
  function TextsOf(simples: seq<Simple>, mode: Mode): seq<string> {
    if simples == [] then []
    else (if simples[0].mode == mode && simples[0].text != "" then [simples[0].text] else []) + TextsOf(simples[1..], mode)
  }

  function LastOr(texts: seq<string>, otherwise: string): string {
    if texts == [] then otherwise else texts[|texts| - 1]
  }

  lemma {:induction false} Combined(rule: SelectorRule, simples: seq<Simple>)
    ensures Combine(rule, simples)
            == SelectorRule(LastOr(TextsOf(simples, Tag), rule.tag), LastOr(TextsOf(simples, Id), rule.id),
                            rule.classes + TextsOf(simples, Class))
    decreases |simples|
  {
    if simples == [] {
      assert rule.classes + [] == rule.classes;
    } else {
      Combined(With(rule, simples[0]), simples[1..]);
      Associative(rule.classes, [simples[0].text], TextsOf(simples[1..], Class));
    }
  }

  /** A written compound selector is parsed as its tag, its last identifier and all its classes in order. */
  lemma RuleOfWritten(simples: seq<Simple>)
    requires Written(simples) && simples[0].mode == Tag
    ensures RuleOf(Show(simples)) == SelectorRule(simples[0].text, LastOr(TextsOf(simples, Id), ""), TextsOf(simples, Class))
  {
    ScanOfShow(simples);
    Combined(SelectorRule("", "", []), simples);
    OneTag(simples[1..]);
    assert [] + TextsOf(simples, Class) == TextsOf(simples, Class);
    assert TextsOf(simples, Tag) == if simples[0].text == "" then [] else [simples[0].text];
  }

  lemma {:induction false} OneTag(simples: seq<Simple>)
    requires forall i :: 0 <= i < |simples| ==> simples[i].mode != Tag
    ensures TextsOf(simples, Tag) == []
  {
    if simples != [] { OneTag(simples[1..]); }
  }

  // ---------------------------------------------------------------- fields

  /** The length of the text in front of the first white space. */
  function FieldEnd(s: string): (n: nat)
    ensures n <= |s| && (forall i :: 0 <= i < n ==> !IsSpace(s[i])) && (n < |s| ==> IsSpace(s[n]))
  {
    if s == "" || IsSpace(s[0]) then 0 else 1 + FieldEnd(s[1..])
  }

  /** Go's `strings.Fields`. */
  function Fields(s: string): seq<string>
    decreases |s|
  {
    if s == "" then []
    else if IsSpace(s[0]) then Fields(s[1..])
    else [s[..FieldEnd(s)]] + Fields(s[FieldEnd(s)..])
  }

  /** The fields of a text are its words: the text is made of them and white space, some of it between any two. */
  lemma {:induction false} FieldsAreWords(s: string) returns (gaps: seq<string>)
    ensures |gaps| == |Fields(s)| + 1 && AllBlank(gaps) && s == Interleaved(gaps, Fields(s))
    ensures forall i :: 0 < i < |Fields(s)| ==> gaps[i] != ""
    ensures forall i :: 0 <= i < |Fields(s)| ==> Fields(s)[i] != "" && NoSpace(Fields(s)[i])
    ensures s != "" && Fields(s) != [] && !IsSpace(s[0]) ==> gaps[0] == ""
    decreases |s|
  {
    if s == "" {
      gaps := [""];
    } else if IsSpace(s[0]) {
      gaps := FieldsAreWords(s[1..]);
      WiderGap([s[0]], gaps, Fields(s));
      gaps := [[s[0]] + gaps[0]] + gaps[1..];
      assert s == [s[0]] + s[1..];
    } else {
      var n := FieldEnd(s);
      var rest := s[n..];
      gaps := FieldsAreWords(rest);
      RestGap(rest, gaps);
      OneWordMore("", s[..n], gaps, Fields(rest));
      assert s == s[..n] + rest && "" + (s[..n] + rest) == s[..n] + rest;
      gaps := [""] + gaps;
    }
  }

  lemma RestGap(rest: string, gaps: seq<string>)
    requires rest != "" ==> IsSpace(rest[0])
    requires |gaps| == |Fields(rest)| + 1 && rest == Interleaved(gaps, Fields(rest))
    requires forall i :: 0 <= i < |Fields(rest)| ==> Fields(rest)[i] != "" && NoSpace(Fields(rest)[i])
    ensures Fields(rest) != [] ==> gaps[0] != ""
  {
  }

  // ---------------------------------------------------------------- matching one node

  function AttrOf(attrs: seq<Attribute>, key: string): string {
    if attrs == [] then "" else if attrs[0].key == key then attrs[0].val else AttrOf(attrs[1..], key)
  }

  method GetAttr(n: Node, key: string) returns (val: string)
    ensures val == AttrOf(n.attrs, key)
    ensures if exists i :: 0 <= i < |n.attrs| && n.attrs[i].key == key
            then exists i :: 0 <= i < |n.attrs| && n.attrs[i] == Attribute(key, val) && forall j :: 0 <= j < i ==> n.attrs[j].key != key
            else val == ""
  {
    for i := 0 to |n.attrs|
      invariant AttrOf(n.attrs, key) == AttrOf(n.attrs[i..], key)
      invariant forall j :: 0 <= j < i ==> n.attrs[j].key != key
    {
      assert n.attrs[i..][1..] == n.attrs[i + 1..];
      if n.attrs[i].key == key { return n.attrs[i].val; }
    }
    return "";
  }

  /** The node satisfies every simple selector of the rule. */
  predicate Satisfies(n: Node, rule: SelectorRule) {
    && n.kind.ElementNode?
    && (rule.tag == "" || n.data == rule.tag)
    && (rule.id == "" || AttrOf(n.attrs, "id") == rule.id)
    && (forall c :: c in rule.classes ==> c in Fields(AttrOf(n.attrs, "class")))
  }

  method Matches(rule: SelectorRule, n: Node) returns (r: bool)
    ensures r <==> Satisfies(n, rule)
  {
    if n.kind != ElementNode { return false; }
    if rule.tag != "" && n.data != rule.tag { return false; }
    if rule.id != "" {
      var id := GetAttr(n, "id");
      if id != rule.id { return false; }
    }
    if |rule.classes| > 0 {
      var attr := GetAttr(n, "class");
      var nodeClasses := Fields(attr);
      for i := 0 to |rule.classes|
        invariant forall k :: 0 <= k < i ==> rule.classes[k] in nodeClasses
      {
        var found := false;
        for j := 0 to |nodeClasses|
          invariant !found && rule.classes[i] !in nodeClasses[..j]
        {
          if nodeClasses[j] == rule.classes[i] {
            found := true;
            break;
          }
        }
        assert nodeClasses[..|nodeClasses|] == nodeClasses;
        if !found {
          assert rule.classes[i] in rule.classes;
          return false;
        }
      }
    }
    return true;
  }

  // ---------------------------------------------------------------- what a rule means

  predicate SatisfiesSimple(n: Node, simple: Simple) {
    simple.text == ""
    || match simple.mode
       case Tag => n.data == simple.text
       case Id => AttrOf(n.attrs, "id") == simple.text
       case Class => simple.text in Fields(AttrOf(n.attrs, "class"))
  }

  /** The node is what all the simple selectors ask for. */
  predicate SatisfiesAll(n: Node, simples: seq<Simple>) {
    n.kind.ElementNode? && forall i :: 0 <= i < |simples| ==> SatisfiesSimple(n, simples[i])
  }

  /** All identifiers asked for are the same one. */
  predicate OneIdentifier(simples: seq<Simple>) {
    forall t :: t in TextsOf(simples, Id) ==> t == LastOr(TextsOf(simples, Id), "")
  }

  /** No text has white space in it; parts of a selector never do. */
  predicate Compact(simples: seq<Simple>) {
    forall i :: 0 <= i < |simples| ==> NoSpace(simples[i].text)
  }

  predicate NoSpace(s: string) {
    forall i :: 0 <= i < |s| ==> !IsSpace(s[i])
  }

  predicate AllTexts(n: Node, mode: Mode, texts: seq<string>) {
    forall t :: t in texts ==> SatisfiesSimple(n, Simple(mode, t))
  }

  lemma {:induction false} AllByTexts(n: Node, simples: seq<Simple>)
    ensures SatisfiesAll(n, simples) <==>
            n.kind.ElementNode? && AllTexts(n, Tag, TextsOf(simples, Tag)) && AllTexts(n, Id, TextsOf(simples, Id))
            && AllTexts(n, Class, TextsOf(simples, Class))
  {
    if simples != [] {
      AllByTexts(n, simples[1..]);
      FirstOfAll(n, simples);
      FirstText(n, simples, Tag);
      FirstText(n, simples, Id);
      FirstText(n, simples, Class);
    }
  }

  lemma FirstOfAll(n: Node, simples: seq<Simple>)
    requires simples != []
    ensures SatisfiesAll(n, simples) <==> SatisfiesSimple(n, simples[0]) && SatisfiesAll(n, simples[1..])
  {
    assert forall i :: 0 < i < |simples| ==> simples[i] == simples[1..][i - 1];
    assert forall i :: 0 <= i < |simples[1..]| ==> simples[1..][i] == simples[i + 1];
  }

  lemma FirstText(n: Node, simples: seq<Simple>, mode: Mode)
    requires simples != []
    ensures AllTexts(n, mode, TextsOf(simples, mode)) <==>
            (simples[0].mode == mode ==> SatisfiesSimple(n, simples[0])) && AllTexts(n, mode, TextsOf(simples[1..], mode))
  {
    var here, later := if simples[0].mode == mode && simples[0].text != "" then [simples[0].text] else [], TextsOf(simples[1..], mode);
    assert TextsOf(simples, mode) == here + later;
    assert forall t :: t in here + later <==> t in here || t in later;
    assert here != [] ==> here[0] in here && simples[0] == Simple(mode, here[0]);
  }

  function Spaced(texts: seq<string>): string {
    if texts == [] then "" else texts[0] + (" " + Spaced(texts[1..]))
  }

  lemma {:induction false} FieldAhead(text: string, rest: string)
    requires NoSpace(text)
    ensures FieldEnd(text + (" " + rest)) == |text|
  {
    var s := text + (" " + rest);
    if text != "" {
      assert s[0] == text[0] && s[1..] == text[1..] + (" " + rest);
      FieldAhead(text[1..], rest);
    }
  }

  lemma {:induction false} FieldsOfSpaced(texts: seq<string>)
    requires forall i :: 0 <= i < |texts| ==> texts[i] != "" && NoSpace(texts[i])
    ensures Fields(Spaced(texts)) == texts
  {
    if texts != [] {
      var rest := Spaced(texts[1..]);
      FieldAhead(texts[0], rest);
      FieldsOfSpaced(texts[1..]);
      var s := texts[0] + (" " + rest);
      assert s[..|texts[0]|] == texts[0] && s[|texts[0]|..] == " " + rest && (" " + rest)[1..] == rest;
    }
  }

  lemma {:induction false} TextsCompact(simples: seq<Simple>, mode: Mode)
    requires Compact(simples)
    ensures forall i :: 0 <= i < |TextsOf(simples, mode)| ==> TextsOf(simples, mode)[i] != "" && NoSpace(TextsOf(simples, mode)[i])
  {
    if simples != [] { TextsCompact(simples[1..], mode); }
  }

  /** A node made for a rule. */
  function Made(rule: SelectorRule): Node {
    Node(ElementNode, rule.tag, [Attribute("id", rule.id), Attribute("class", Spaced(rule.classes))], [])
  }

  lemma MadeSatisfies(rule: SelectorRule)
    requires forall i :: 0 <= i < |rule.classes| ==> rule.classes[i] != "" && NoSpace(rule.classes[i])
    ensures Satisfies(Made(rule), rule)
  {
    var attrs := Made(rule).attrs;
    FieldsOfSpaced(rule.classes);
    assert AttrOf(attrs, "class") == AttrOf(attrs[1..], "class") == Spaced(rule.classes);
  }

  lemma TagText(simples: seq<Simple>)
    requires Written(simples) && simples[0].mode == Tag
    ensures TextsOf(simples, Tag) == if simples[0].text == "" then [] else [simples[0].text]
  {
    OneTag(simples[1..]);
  }

  /** The rule asks for the tag, the last identifier and all classes. */
  lemma RuleByTexts(n: Node, rule: SelectorRule, tags: seq<string>, ids: seq<string>)
    requires tags == if rule.tag == "" then [] else [rule.tag]
    requires rule.id == LastOr(ids, "") && forall i :: 0 <= i < |ids| ==> ids[i] != ""
    requires forall i :: 0 <= i < |rule.classes| ==> rule.classes[i] != ""
    ensures Satisfies(n, rule) <==>
            n.kind.ElementNode? && AllTexts(n, Tag, tags) && AllTexts(n, Class, rule.classes) && SatisfiesSimple(n, Simple(Id, rule.id))
  {
    TagAsked(n, rule.tag, tags);
    ClassesAsked(n, rule.classes);
  }

  lemma TagAsked(n: Node, tag: string, tags: seq<string>)
    requires tags == if tag == "" then [] else [tag]
    ensures AllTexts(n, Tag, tags) <==> tag == "" || n.data == tag
  {
    assert tag != "" ==> tag in tags && (SatisfiesSimple(n, Simple(Tag, tag)) <==> n.data == tag);
  }

  lemma ClassesAsked(n: Node, classes: seq<string>)
    requires forall i :: 0 <= i < |classes| ==> classes[i] != ""
    ensures AllTexts(n, Class, classes) <==> forall c :: c in classes ==> c in Fields(AttrOf(n.attrs, "class"))
  {
    forall c | c in classes ensures SatisfiesSimple(n, Simple(Class, c)) <==> c in Fields(AttrOf(n.attrs, "class")) {
      var i :| 0 <= i < |classes| && classes[i] == c;
    }
  }

  /** What a rule keeps of the simple selectors. */
  predicate RuleFor(rule: SelectorRule, simples: seq<Simple>) {
    && TextsOf(simples, Tag) == (if rule.tag == "" then [] else [rule.tag])
    && rule.id == LastOr(TextsOf(simples, Id), "")
    && rule.classes == TextsOf(simples, Class)
  }

  lemma SameMeaning(n: Node, rule: SelectorRule, simples: seq<Simple>)
    requires RuleFor(rule, simples) && Compact(simples)
    ensures SatisfiesAll(n, simples) ==> Satisfies(n, rule)
    ensures OneIdentifier(simples) && Satisfies(n, rule) ==> SatisfiesAll(n, simples)
  {
    var ids := TextsOf(simples, Id);
    TextsCompact(simples, Id);
    TextsCompact(simples, Class);
    AllByTexts(n, simples);
    RuleByTexts(n, rule, TextsOf(simples, Tag), ids);
    assert ids != [] ==> rule.id in ids;
  }

  lemma {:induction false} TwoIdentifiers(rule: SelectorRule, simples: seq<Simple>)
    requires RuleFor(rule, simples) && Compact(simples) && !OneIdentifier(simples)
    ensures Satisfies(Made(rule), rule) && !SatisfiesAll(Made(rule), simples)
  {
    TextsCompact(simples, Id);
    TextsCompact(simples, Class);
    MadeSatisfies(rule);
    AllByTexts(Made(rule), simples);
    var t :| t in TextsOf(simples, Id) && t != rule.id;
    assert !SatisfiesSimple(Made(rule), Simple(Id, t));
  }

  /** A node that is all that a compound selector asks for satisfies its rule. The rule asks for nothing less if and only
      if the selector does not ask for two identifiers. */
  lemma {:induction false} RuleMeansAllIff(simples: seq<Simple>)
    requires Written(simples) && simples[0].mode == Tag && Compact(simples)
    ensures forall n :: SatisfiesAll(n, simples) ==> Satisfies(n, RuleOf(Show(simples)))
    ensures OneIdentifier(simples) <==> forall n :: Satisfies(n, RuleOf(Show(simples))) ==> SatisfiesAll(n, simples)
  {
    var rule := RuleOf(Show(simples));
    RuleOfWritten(simples);
    TagText(simples);
    assert RuleFor(rule, simples);
    forall n ensures SatisfiesAll(n, simples) ==> Satisfies(n, rule) {
      SameMeaning(n, rule, simples);
    }
    if OneIdentifier(simples) {
      forall n ensures Satisfies(n, rule) ==> SatisfiesAll(n, simples) {
        SameMeaning(n, rule, simples);
      }
    } else {
      TwoIdentifiers(rule, simples);
    }
  }

  // ---------------------------------------------------------------- searching

  /** `q` is below `root` and satisfies the rule. */
  predicate Descendant(tree: Node, root: Path, rule: SelectorRule, q: Path) {
    root < q && Within(tree, q) && Satisfies(At(tree, q), rule)
  }

  lemma ChildOnTheWay(tree: Node, n: Path, q: Path)
    requires Within(tree, n) && Within(tree, q) && n < q
    ensures n + [q[|n|]] <= q && q[|n|] < |At(tree, n).children|
  {
    assert n + [q[|n|]] <= q;
    Ancestor(tree, n + [q[|n|]], q);
    Child(tree, n, q[|n|]);
  }

  /** The inner recursion of the search: everything at or below `n` that satisfies the rule, without `root`. */
  method Traverse(tree: Node, root: Path, n: Path, rule: SelectorRule) returns (found: seq<Path>)
    requires Within(tree, n) && root <= n
    ensures Ordered(found)
    ensures forall q :: q in found <==> n <= q && Descendant(tree, root, rule, q)
    decreases At(tree, n)
  {
    found := [];
    if n != root {
      var matched := Matches(rule, At(tree, n));
      if matched { found := [n]; }
    }
    var children := At(tree, n).children;
    forall q ensures q in found <==> Found(tree, root, n, rule, 0, q) {
      assert Found(tree, root, n, rule, 0, q) ==> q == n;
    }
    for i := 0 to |children|
      invariant Ordered(found)
      invariant forall q :: q in found <==> Found(tree, root, n, rule, i, q)
    {
      Child(tree, n, i);
      var more := Traverse(tree, root, n + [i], rule);
      forall p, q | p in found && q in more ensures Before(p, q) {
        if p == n { BelowIsLater(n, q); } else { RightIsLater(n, p, q); }
      }
      OrderedConcat(found, more);
      forall q ensures q in found + more <==> Found(tree, root, n, rule, i + 1, q) {
        assert n + [i] <= q <==> n < q && q[|n|] == i by { if n < q && q[|n|] == i { assert n + [i] <= q; } }
      }
      found := found + more;
    }
    forall q ensures Found(tree, root, n, rule, |children|, q) <==> n <= q && Descendant(tree, root, rule, q) {
      if n < q && Within(tree, q) { ChildOnTheWay(tree, n, q); }
    }
  }

  /** What has been found when the first `i` children of `n` are done. */
  predicate Found(tree: Node, root: Path, n: Path, rule: SelectorRule, i: nat, q: Path) {
    n <= q && (n == q || q[|n|] < i) && Descendant(tree, root, rule, q)
  }

  method FindDescendants(tree: Node, root: Path, rule: SelectorRule) returns (found: seq<Path>)
    requires Within(tree, root)
    ensures Ordered(found)
    ensures forall q :: q in found <==> Descendant(tree, root, rule, q)
  {
    found := Traverse(tree, root, root, rule);
  }

  /** `q` is reached from the element by a chain of nodes, each below the one before and satisfying its part: what the
      descendant combinator means. */
  ghost predicate ChainTo(tree: Node, element: Path, rules: seq<SelectorRule>, chain: seq<Path>, q: Path) {
    && |chain| == |rules| + 1
    && chain[0] == element && chain[|rules|] == q
    && (forall i :: 0 <= i < |rules| ==> Descendant(tree, chain[i], rules[i], chain[i + 1]))
  }

  ghost predicate Selected(tree: Node, element: Path, rules: seq<SelectorRule>, q: Path) {
    exists chain :: ChainTo(tree, element, rules, chain, q)
  }

  lemma SelectedNone(tree: Node, element: Path, q: Path)
    ensures Selected(tree, element, [], q) <==> q == element
  {
    assert q == element ==> ChainTo(tree, element, [], [element], q);
  }

  /** One more part: below some node that the parts so far select. */
  lemma SelectedNext(tree: Node, element: Path, rules: seq<SelectorRule>, rule: SelectorRule, q: Path)
    ensures Selected(tree, element, rules + [rule], q)
            <==> exists p :: Selected(tree, element, rules, p) && Descendant(tree, p, rule, q)
  {
    var all := rules + [rule];
    if Selected(tree, element, all, q) {
      var chain :| ChainTo(tree, element, all, chain, q);
      var p := chain[|rules|];
      assert ChainTo(tree, element, rules, chain[..|all|], p) by {
        forall i | 0 <= i < |rules| ensures Descendant(tree, chain[..|all|][i], rules[i], chain[..|all|][i + 1]) {
          assert all[i] == rules[i];
        }
      }
      assert all[|rules|] == rule;
      assert Selected(tree, element, rules, p) && Descendant(tree, p, rule, q);
    }
    if p :| Selected(tree, element, rules, p) && Descendant(tree, p, rule, q) {
      var chain :| ChainTo(tree, element, rules, chain, p);
      forall i | 0 <= i < |all| ensures Descendant(tree, (chain + [q])[i], all[i], (chain + [q])[i + 1]) {
      }
      assert ChainTo(tree, element, all, chain + [q], q);
    }
  }

  lemma {:induction false} NothingStaysNothing(tree: Node, element: Path, rules: seq<SelectorRule>, more: seq<SelectorRule>)
    requires forall q :: !Selected(tree, element, rules, q)
    ensures forall q :: !Selected(tree, element, rules + more, q)
    decreases |more|
  {
    if more == [] {
      assert rules + more == rules;
    } else {
      forall q ensures !Selected(tree, element, rules + [more[0]], q) {
        SelectedNext(tree, element, rules, more[0], q);
      }
      NothingStaysNothing(tree, element, rules + [more[0]], more[1..]);
      assert rules + [more[0]] + more[1..] == rules + more;
    }
  }

  /** `q` is below one of the first `j` roots and satisfies the rule. */
  ghost predicate BelowOne(tree: Node, roots: seq<Path>, j: nat, rule: SelectorRule, q: Path)
    requires j <= |roots|
  {
    exists i :: 0 <= i < j && Descendant(tree, roots[i], rule, q)
  }

  /** What is below a root but not below an earlier one comes after everything below the earlier ones. */
  lemma NewOnesAreLater(tree: Node, roots: seq<Path>, j: nat, rule: SelectorRule, x: Path, m: Path)
    requires Ordered(roots) && j < |roots|
    requires BelowOne(tree, roots, j, rule, x)
    requires Descendant(tree, roots[j], rule, m) && !BelowOne(tree, roots, j, rule, m)
    ensures Before(x, m)
  {
    var i :| 0 <= i < j && Descendant(tree, roots[i], rule, x);
    assert !Descendant(tree, roots[i], rule, m);
    assert !(roots[i] <= roots[j]);
    SubtreesInOrder(roots[i], roots[j], x, m);
  }

  /** One part of the selector: the satisfying nodes below any of the roots, each once, in document order. */
  method NextRoots(tree: Node, roots: seq<Path>, rule: SelectorRule) returns (nextRoots: seq<Path>)
    requires Ordered(roots) && forall r :: r in roots ==> Within(tree, r)
    ensures Ordered(nextRoots)
    ensures forall q :: q in nextRoots <==> BelowOne(tree, roots, |roots|, rule, q)
  {
    nextRoots := [];
    var seen: set<Path> := {};
    for j := 0 to |roots|
      invariant Ordered(nextRoots)
      invariant forall q :: q in seen <==> q in nextRoots
      invariant forall q :: q in nextRoots <==> BelowOne(tree, roots, j, rule, q)
    {
      var matched := FindDescendants(tree, roots[j], rule);
      nextRoots, seen := AppendUnseen(tree, roots, j, rule, matched, nextRoots, seen);
      forall q ensures BelowOne(tree, roots, j + 1, rule, q) <==> BelowOne(tree, roots, j, rule, q) || Descendant(tree, roots[j], rule, q) {
      }
    }
  }

  method AppendUnseen(tree: Node, ghost roots: seq<Path>, ghost j: nat, ghost rule: SelectorRule, matched: seq<Path>,
                      earlier: seq<Path>, earlierSeen: set<Path>)
    returns (nextRoots: seq<Path>, seen: set<Path>)
    requires Ordered(roots) && j < |roots|
    requires Ordered(earlier) && forall q :: q in earlier <==> BelowOne(tree, roots, j, rule, q)
    requires forall q :: q in earlierSeen <==> q in earlier
    requires Ordered(matched) && forall q :: q in matched <==> Descendant(tree, roots[j], rule, q)
    ensures Ordered(nextRoots)
    ensures forall q :: q in nextRoots <==> q in earlier || q in matched
    ensures forall q :: q in seen <==> q in nextRoots
  {
    nextRoots, seen := earlier, earlierSeen;
    for k := 0 to |matched|
      invariant Ordered(nextRoots)
      invariant forall q :: q in nextRoots <==> q in earlier || q in matched[..k]
      invariant forall q :: q in seen <==> q in nextRoots
    {
      var m := matched[k];
      if m !in seen {
        forall x | x in nextRoots ensures Before(x, m) {
          if x in earlier {
            NewOnesAreLater(tree, roots, j, rule, x, m);
          }
        }
        OrderedAppend(nextRoots, m);
        seen := seen + {m};
        nextRoots := nextRoots + [m];
      }
    }
  }

  function RulesOf(parts: seq<string>): (r: seq<SelectorRule>)
    ensures |r| == |parts| && forall i :: 0 <= i < |parts| ==> r[i] == RuleOf(parts[i])
  {
    seq(|parts|, i requires 0 <= i < |parts| => RuleOf(parts[i]))
  }

  /** Exactly the nodes whose chain of ancestors below the element meets the parts in order, each once, in document
      order. No element and a blank selector select nothing. */
  method QuerySelectorAll(tree: Node, element: Option<Path>, selector: string) returns (found: seq<Path>)
    requires element.Some? ==> Within(tree, element.value)
    ensures element.None? || Fields(selector) == [] ==> found == []
    ensures Ordered(found)
    ensures element.Some? && Fields(selector) != [] ==>
              forall q :: q in found <==> Selected(tree, element.value, RulesOf(Fields(selector)), q)
  {
    if element.None? { return []; }
    var parts := Fields(selector);
    if |parts| == 0 { return []; }
    ghost var rules := RulesOf(parts);
    var currentRoots := [element.value];
    forall q ensures q in currentRoots <==> Selected(tree, element.value, rules[..0], q) {
      SelectedNone(tree, element.value, q);
    }
    for k := 0 to |parts|
      invariant Ordered(currentRoots) && forall r :: r in currentRoots ==> Within(tree, r)
      invariant forall q :: q in currentRoots <==> Selected(tree, element.value, rules[..k], q)
    {
      var rule := ParseSelector(parts[k]);
      var nextRoots := NextRoots(tree, currentRoots, rule);
      ghost var soFar := rules[..k + 1];
      assert soFar == rules[..k] + [rule];
      forall q ensures q in nextRoots <==> Selected(tree, element.value, soFar, q) {
        RootsSelect(tree, element.value, rules[..k], rule, currentRoots, q);
      }
      currentRoots := nextRoots;
      if |currentRoots| == 0 {
        forall q ensures !Selected(tree, element.value, soFar, q) {
          assert q !in currentRoots;
        }
        NothingStaysNothing(tree, element.value, soFar, rules[k + 1..]);
        assert soFar + rules[k + 1..] == rules;
        return [];
      }
    }
    assert rules[..|parts|] == rules;
    return currentRoots;
  }

  lemma RootsSelect(tree: Node, element: Path, rules: seq<SelectorRule>, rule: SelectorRule, roots: seq<Path>, q: Path)
    requires forall r :: r in roots <==> Selected(tree, element, rules, r)
    ensures BelowOne(tree, roots, |roots|, rule, q) <==> Selected(tree, element, rules + [rule], q)
  {
    SelectedNext(tree, element, rules, rule, q);
    if BelowOne(tree, roots, |roots|, rule, q) {
      var i :| 0 <= i < |roots| && Descendant(tree, roots[i], rule, q);
      assert Selected(tree, element, rules, roots[i]);
    }
    if p :| Selected(tree, element, rules, p) && Descendant(tree, p, rule, q) {
      assert p in roots;
      var i :| 0 <= i < |roots| && roots[i] == p;
      assert Descendant(tree, roots[i], rule, q);
    }
  }

  /** The first selected node in document order, if any is selected. */
  method QuerySelector(tree: Node, element: Option<Path>, selector: string) returns (first: Option<Path>)
    requires element.Some? ==> Within(tree, element.value)
    ensures element.None? || Fields(selector) == [] ==> first.None?
    ensures first.None? && element.Some? && Fields(selector) != [] ==>
              forall q :: !Selected(tree, element.value, RulesOf(Fields(selector)), q)
    ensures first.Some? ==> element.Some? && Selected(tree, element.value, RulesOf(Fields(selector)), first.value)
    ensures first.Some? ==>
              forall q :: Selected(tree, element.value, RulesOf(Fields(selector)), q) ==> q == first.value || Before(first.value, q)
  {
    var elements := QuerySelectorAll(tree, element, selector);
    if |elements| > 0 {
      return Some(elements[0]);
    }
    return None;
  }

  // ---------------------------------------------------------------- from the text of a selector

  /** A compound selector as one writes it: in one word, asking for at most one identifier. */
  predicate Compound(simples: seq<Simple>) {
    Written(simples) && simples[0].mode == Tag && Compact(simples) && OneIdentifier(simples)
  }

  /** `q` is below `p` and is what the compound selector asks for. */
  predicate MeantBelow(tree: Node, p: Path, compound: seq<Simple>, q: Path) {
    p < q && Within(tree, q) && SatisfiesAll(At(tree, q), compound)
  }

  /** Each node of the chain is below the one before and is what its compound selector asks for. */
  ghost predicate MeantChain(tree: Node, element: Path, compounds: seq<seq<Simple>>, chain: seq<Path>, q: Path) {
    && |chain| == |compounds| + 1 && chain[0] == element && chain[|compounds|] == q
    && forall i :: 0 <= i < |compounds| ==> MeantBelow(tree, chain[i], compounds[i], chain[i + 1])
  }

  /** A selector of such words, whatever white space is around them, selects what they ask for. */
  lemma SelectsWhatIsWritten(tree: Node, element: Path, selector: string, compounds: seq<seq<Simple>>, q: Path)
    requires |Fields(selector)| == |compounds|
    requires forall i :: 0 <= i < |compounds| ==> Compound(compounds[i]) && Fields(selector)[i] == Show(compounds[i])
    ensures Selected(tree, element, RulesOf(Fields(selector)), q) <==> exists chain :: MeantChain(tree, element, compounds, chain, q)
  {
    var rules := RulesOf(Fields(selector));
    forall chain ensures ChainTo(tree, element, rules, chain, q) <==> MeantChain(tree, element, compounds, chain, q) {
      SameChain(tree, element, rules, compounds, chain, q);
    }
  }

  lemma SameChain(tree: Node, element: Path, rules: seq<SelectorRule>, compounds: seq<seq<Simple>>, chain: seq<Path>, q: Path)
    requires |rules| == |compounds|
    requires forall i :: 0 <= i < |compounds| ==> Compound(compounds[i]) && rules[i] == RuleOf(Show(compounds[i]))
    ensures ChainTo(tree, element, rules, chain, q) <==> MeantChain(tree, element, compounds, chain, q)
  {
    if |chain| == |rules| + 1 {
      forall i | 0 <= i < |rules|
        ensures Descendant(tree, chain[i], rules[i], chain[i + 1]) <==> MeantBelow(tree, chain[i], compounds[i], chain[i + 1])
      {
        RuleMeansAllIff(compounds[i]);
      }
    }
  }
}
