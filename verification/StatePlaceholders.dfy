/** Cached documents: state tokens become placeholders once, and placeholders become fresh tokens on every request, as
    if the tokens had been replaced directly. HTML and documents are texts with holes, and the two replacers are shown
    to fill exactly the holes. */
module StatePlaceholders {
  import opened Texts

  type Props = string

  const MARKER_PREFIX: string := "__GOSH_"
  const NONCE_MARKER: string := MARKER_PREFIX + "CSP_NONCE" + "__"
  const ROOT_MARKER: string := MARKER_PREFIX + "ROOT_STATE" + "__"
  const STATE_PREFIX: string := MARKER_PREFIX + "STATE_"
  const ATTRIBUTE: string := "data-gosh-state=\""

  function Lookup(replacements: map<string, string>, key: string): string {
    if key in replacements then replacements[key] else key
  }

  // ---------------------------------------------------------------- the two replacers

  /** The first thing to replace: the text before it, its name, and the text after it. */
  datatype Cut = NoCut | Cut(before: string, name: string, after: string)

  /** The first state attribute value; `before` includes the attribute's name and opening quote. */
  function FirstToken(s: string): (c: Cut)
    ensures c.Cut? ==> |c.after| < |s|
  {
    var start := Index(s, ATTRIBUTE);
    if start < 0 then NoCut
    else
      var value := s[start + |ATTRIBUTE|..];
      var end := Index(value, "\"");
      if end < 0 then NoCut else Cut(s[..start + |ATTRIBUTE|], value[..end], value[end..])
  }

  /** The first marker: it runs from its prefix to the next double underscore. */
  function FirstMarker(s: string): (c: Cut)
    ensures c.Cut? ==> |c.after| < |s|
  {
    var at := Index(s, MARKER_PREFIX);
    if at < 0 then NoCut
    else
      var name := s[at + |MARKER_PREFIX|..];
      var end := Index(name, "__");
      if end < 0 then NoCut else Cut(s[..at], MARKER_PREFIX + name[..end] + "__", name[end + 2..])
  }

  /** Every state attribute value that is a key is replaced. */
  function WithTokens(s: string, replacements: map<string, string>): string
    decreases |s|
  {
    var c := FirstToken(s);
    if c.NoCut? then s else c.before + (Lookup(replacements, c.name) + WithTokens(c.after, replacements))
  }

  /** Every marker that is a key is replaced. */
  function WithMarkers(s: string, replacements: map<string, string>): string
    decreases |s|
  {
    var c := FirstMarker(s);
    if c.NoCut? then s else c.before + (Lookup(replacements, c.name) + WithMarkers(c.after, replacements))
  }

  lemma Halves(s: string, k: nat)
    requires k <= |s|
    ensures s == s[..k] + s[k..]
  {
  }

  lemma TokenParts(s: string)
    ensures var c := FirstToken(s); c.Cut? ==> s == c.before + (c.name + c.after) && c.after != "" && c.after[0] == '"'
  {
    var c := FirstToken(s);
    if c.Cut? {
      var start := Index(s, ATTRIBUTE);
      var value := s[start + |ATTRIBUTE|..];
      var end := Index(value, "\"");
      Halves(s, start + |ATTRIBUTE|);
      Halves(value, end);
    }
  }

  lemma SplitOut(s: string, at: nat, part: string)
    requires at + |part| <= |s| && s[at..at + |part|] == part
    ensures s == s[..at] + (part + s[at + |part|..])
  {
    assert s[at..] == s[at..at + |part|] + s[at + |part|..];
    assert s == s[..at] + s[at..];
  }

  lemma MarkerParts(s: string)
    ensures var c := FirstMarker(s); c.Cut? ==> s == c.before + (c.name + c.after)
  {
    var c := FirstMarker(s);
    if c.Cut? {
      var at := Index(s, MARKER_PREFIX);
      var name := s[at + |MARKER_PREFIX|..];
      var end := Index(name, "__");
      SplitOut(s, at, MARKER_PREFIX);
      SplitOut(name, end, "__");
      MarkerJoined(name[..end], c.after);
    }
  }

  lemma MarkerJoined(name: string, after: string)
    ensures MARKER_PREFIX + (name + ("__" + after)) == (MARKER_PREFIX + name + "__") + after
  {
    Associative(name, "__", after);
    Associative(MARKER_PREFIX, name + "__", after);
    Associative(MARKER_PREFIX, name, "__");
  }

  method ReplaceRuntimeStateTokens(source: string, replacements: map<string, string>) returns (out: string)
    ensures out == WithTokens(source, replacements)
  {
    if source == "" || replacements == map[] {
      NothingToReplace(source);
      return source;
    }
    var rest := source;
    out := "";
    while true
      invariant out + WithTokens(rest, replacements) == WithTokens(source, replacements)
      decreases |rest|
    {
      var start := Index(rest, ATTRIBUTE);
      if start < 0 {
        return out + rest;
      }
      var valueStart := start + |ATTRIBUTE|;
      var endOffset := Index(rest[valueStart..], "\"");
      if endOffset < 0 {
        return out + rest;
      }
      var value := rest[valueStart..][..endOffset];
      var replacement := Lookup(replacements, value);
      ghost var more := WithTokens(rest[valueStart..][endOffset..], replacements);
      Associative(out, rest[..valueStart], replacement + more);
      Associative(out + rest[..valueStart], replacement, more);
      out := out + rest[..valueStart] + replacement;
      QuoteKept(rest[valueStart..][endOffset..], replacements);
      Associative(out, "\"", WithTokens(rest[valueStart..][endOffset..][1..], replacements));
      out := out + "\"";
      rest := rest[valueStart..][endOffset..][1..];
    }
  }

  lemma QuoteKept(s: string, replacements: map<string, string>)
    requires s != "" && s[0] == '"'
    ensures WithTokens(s, replacements) == "\"" + WithTokens(s[1..], replacements)
  {
    assert s == "\"" + s[1..];
    var c := FirstToken(s[1..]);
    TokenBehindQuote(s);
    if c.Cut? {
      Associative("\"", c.before, Lookup(replacements, c.name) + WithTokens(c.after, replacements));
    }
  }

  lemma TokenBehindQuote(s: string)
    requires s != "" && s[0] == '"'
    ensures var c := FirstToken(s[1..]);
            FirstToken(s) == if c.Cut? then Cut("\"" + c.before, c.name, c.after) else NoCut
  {
    var t := s[1..];
    assert !(ATTRIBUTE <= s) by { assert ATTRIBUTE[0] == 'd'; }
    var start := Index(t, ATTRIBUTE);
    if start >= 0 {
      assert s[start + 1 + |ATTRIBUTE|..] == t[start + |ATTRIBUTE|..];
      assert s[..start + 1 + |ATTRIBUTE|] == "\"" + t[..start + |ATTRIBUTE|];
    }
  }

  lemma {:induction false} NothingToReplace(s: string)
    ensures WithTokens(s, map[]) == s
    decreases |s|
  {
    var c := FirstToken(s);
    if c.Cut? {
      TokenParts(s);
      NothingToReplace(c.after);
    }
  }

  method ReplaceCachedDocumentMarkers(body: string, replacements: map<string, string>) returns (out: string)
    ensures out == WithMarkers(body, replacements)
  {
    if body == "" || replacements == map[] {
      NothingToFill(body);
      return body;
    }
    out := "";
    var offset := 0;
    assert body[0..] == body;
    while offset < |body|
      invariant offset <= |body|
      invariant out + WithMarkers(body[offset..], replacements) == WithMarkers(body, replacements)
    {
      var at, end := NextMarker(body, offset);
      if end < 0 {
        return out + body[offset..];
      }
      var marker := body[at..end];
      ghost var more := WithMarkers(body[end..], replacements);
      Associative(out, body[offset..at], Lookup(replacements, marker) + more);
      Associative(out + body[offset..at], Lookup(replacements, marker), more);
      out := out + body[offset..at] + Lookup(replacements, marker);
      offset := end;
    }
    assert out + "" == out;
  }

  method NextMarker(body: string, offset: nat) returns (at: int, end: int)
    requires offset < |body|
    ensures end < 0 ==> FirstMarker(body[offset..]).NoCut?
    ensures end >= 0 ==> offset <= at <= end <= |body| && offset < end
    ensures end >= 0 ==> FirstMarker(body[offset..]) == Cut(body[offset..at], body[at..end], body[end..])
  {
    ghost var s := body[offset..];
    MarkerParts(s);
    at := Index(body[offset..], MARKER_PREFIX);
    if at < 0 {
      return at, -1;
    }
    var endAt := Index(body[offset..][at + |MARKER_PREFIX|..], "__");
    if endAt < 0 {
      return at, -1;
    }
    at := at + offset;
    end := at + |MARKER_PREFIX| + endAt + 2;
    SplitText(body, offset, at, end, FirstMarker(s));
  }

  lemma SplitText(body: string, offset: nat, at: nat, end: nat, c: Cut)
    requires offset <= at <= end <= |body| && c.Cut?
    requires body[offset..] == c.before + (c.name + c.after) && |c.before| == at - offset && |c.name| == end - at
    ensures c == Cut(body[offset..at], body[at..end], body[end..])
  {
    var s := body[offset..];
    assert s[..|c.before|] == c.before && s[|c.before|..|c.before| + |c.name|] == c.name && s[|c.before| + |c.name|..] == c.after;
    assert s[..at - offset] == body[offset..at] && s[at - offset..end - offset] == body[at..end] && s[end - offset..] == body[end..];
  }

  lemma {:induction false} NothingToFill(s: string)
    ensures WithMarkers(s, map[]) == s
    decreases |s|
  {
    var c := FirstMarker(s);
    if c.Cut? {
      MarkerParts(s);
      NothingToFill(c.after);
    }
  }

  // ---------------------------------------------------------------- placeholders

  function StateMarker(n: nat): string {
    STATE_PREFIX + Digits(n) + "__"
  }

  /** The filler sees the text as one marker. */
  predicate IsMarker(m: string) {
    FirstMarker(m) == Cut("", m, "")
  }

  lemma {:induction false} NoEarlierUnderscores(name: string)
    requires forall i :: 0 <= i < |name| && name[i] == '_' ==> i + 1 < |name| && name[i + 1] != '_'
    ensures Index(name + "__", "__") == |name|
  {
    var s := name + "__";
    if name == "" {
      assert s == "__";
    } else {
      assert s[0] == name[0] && s[1..] == name[1..] + "__";
      assert ("__" <= s) <==> s[0] == '_' && s[1] == '_';
      assert |name| > 1 ==> s[1] == name[1];
      assert forall i :: 0 <= i < |name[1..]| ==> name[1..][i] == name[i + 1];
      NoEarlierUnderscores(name[1..]);
    }
  }

  lemma NamedMarker(name: string)
    requires forall i :: 0 <= i < |name| && name[i] == '_' ==> i + 1 < |name| && name[i + 1] != '_'
    ensures IsMarker(MARKER_PREFIX + name + "__")
  {
    NoEarlierUnderscores(name);
    FrontFound(name + "__");
    Associative(MARKER_PREFIX, name, "__");
    assert (name + "__")[..|name|] == name && (name + "__")[|name| + 2..] == "";
  }

  lemma FrontFound(more: string)
    ensures var m := MARKER_PREFIX + more;
            Index(m, MARKER_PREFIX) == 0 && m[..0] == "" && m[|MARKER_PREFIX|..] == more
  {
  }

  lemma StateMarkerIsMarker(n: nat)
    ensures IsMarker(StateMarker(n))
  {
    DigitsOnly(n);
    var name := "STATE_" + Digits(n);
    assert forall i :: 6 <= i < |name| ==> name[i] == Digits(n)[i - 6];
    NamedMarker(name);
    assert MARKER_PREFIX + name + "__" == StateMarker(n);
  }

  lemma NonceMarkerIsMarker()
    ensures IsMarker(NONCE_MARKER)
  {
    NamedMarker("CSP_NONCE");
  }

  lemma RootMarkerIsMarker()
    ensures IsMarker(ROOT_MARKER)
  {
    NamedMarker("ROOT_STATE");
  }

  /** Different numbers give different placeholders, none of them the root or the nonce marker. */
  lemma StateMarkersDiffer(m: nat, n: nat)
    ensures StateMarker(m) == StateMarker(n) <==> m == n
    ensures StateMarker(n) != ROOT_MARKER && StateMarker(n) != NONCE_MARKER
  {
    NumberOfDigits(m);
    NumberOfDigits(n);
    var p := |STATE_PREFIX|;
    var a, b := StateMarker(m), StateMarker(n);
    assert a[p..|a| - 2] == Digits(m) && b[p..|b| - 2] == Digits(n);
    assert b[7] == 'S' && ROOT_MARKER[7] == 'R' && NONCE_MARKER[7] == 'C';
  }

  /** The placeholders of a document: one per runtime state, numbered as they are made. */
  ghost predicate Placeholders(runtimeStates: map<string, Props>, data: Props, states: map<string, Props>, replacements: map<string, string>) {
    && replacements.Keys == runtimeStates.Keys
    && states.Keys == {ROOT_MARKER} + replacements.Values
    && states[ROOT_MARKER] == data
    && (forall s :: s in replacements ==> states[replacements[s]] == runtimeStates[s])
    && (forall s, u :: s in replacements && u in replacements && replacements[s] == replacements[u] ==> s == u)
    && (forall s :: s in replacements ==>
          IsMarker(replacements[s]) && replacements[s] != ROOT_MARKER && replacements[s] != NONCE_MARKER)
  }

  /** Each source has a placeholder of its own, with a number from 1 to `n - 1`. */
  ghost predicate Given(replacements: map<string, string>, numbers: map<string, nat>, n: nat) {
    && numbers.Keys == replacements.Keys
    && (forall s :: s in numbers ==> 0 < numbers[s] < n && replacements[s] == StateMarker(numbers[s]))
    && (forall s, u :: s in numbers && u in numbers && numbers[s] == numbers[u] ==> s == u)
  }

  /** The placeholders given so far stand for their sources' states. */
  ghost predicate Stored(runtimeStates: map<string, Props>, data: Props, states: map<string, Props>, replacements: map<string, string>) {
    && replacements.Keys <= runtimeStates.Keys
    && states.Keys == {ROOT_MARKER} + replacements.Values
    && states[ROOT_MARKER] == data
    && (forall s :: s in replacements ==> states[replacements[s]] == runtimeStates[s])
  }

  lemma NewMarker(replacements: map<string, string>, numbers: map<string, nat>, n: nat)
    requires Given(replacements, numbers, n)
    ensures StateMarker(n) !in replacements.Values
  {
    forall s | s in replacements ensures replacements[s] != StateMarker(n) {
      StateMarkersDiffer(numbers[s], n);
    }
  }

  lemma GivenNext(replacements: map<string, string>, numbers: map<string, nat>, n: nat, source: string)
    requires Given(replacements, numbers, n) && source !in replacements && n > 0
    ensures Given(replacements[source := StateMarker(n)], numbers[source := n], n + 1)
  {
  }

  lemma ValuesNext(replacements: map<string, string>, source: string, marker: string)
    requires source !in replacements
    ensures replacements[source := marker].Values == replacements.Values + {marker}
  {
    var replacements' := replacements[source := marker];
    assert replacements'[source] == marker;
    assert forall s :: s in replacements ==> replacements'[s] == replacements[s];
  }

  lemma StoredNext(runtimeStates: map<string, Props>, data: Props, states: map<string, Props>, replacements: map<string, string>,
                   source: string, marker: string)
    requires Stored(runtimeStates, data, states, replacements)
    requires source in runtimeStates && source !in replacements && marker != ROOT_MARKER && marker !in replacements.Values
    ensures Stored(runtimeStates, data, states[marker := runtimeStates[source]], replacements[source := marker])
    ensures |states[marker := runtimeStates[source]]| == |states| + 1
  {
    ValuesNext(replacements, source, marker);
    assert states[marker := runtimeStates[source]].Keys == states.Keys + {marker};
  }

  /** Only the sources in `todo` have no placeholder yet. */
  ghost predicate Halfway(runtimeStates: map<string, Props>, data: Props, todo: set<string>, states: map<string, Props>,
                          replacements: map<string, string>, numbers: map<string, nat>)
  {
    && todo == runtimeStates.Keys - replacements.Keys
    && Given(replacements, numbers, |states|)
    && Stored(runtimeStates, data, states, replacements)
    && |states| + |todo| == |runtimeStates| + 1
  }

  lemma HalfwayFirst(runtimeStates: map<string, Props>, data: Props)
    ensures Halfway(runtimeStates, data, runtimeStates.Keys, map[ROOT_MARKER := data], map[], map[])
  {
    assert map[ROOT_MARKER := data].Keys == {ROOT_MARKER};
  }

  lemma TodoNext(runtimeStates: map<string, Props>, todo: set<string>, replacements: map<string, string>, source: string, marker: string)
    requires todo == runtimeStates.Keys - replacements.Keys && source in todo
    ensures todo - {source} == runtimeStates.Keys - replacements[source := marker].Keys
    ensures |todo - {source}| == |todo| - 1
  {
  }

  lemma HalfwayNext(runtimeStates: map<string, Props>, data: Props, todo: set<string>, states: map<string, Props>,
                    replacements: map<string, string>, numbers: map<string, nat>, source: string)
    requires Halfway(runtimeStates, data, todo, states, replacements, numbers) && source in todo
    ensures Halfway(runtimeStates, data, todo - {source}, states[StateMarker(|states|) := runtimeStates[source]],
                    replacements[source := StateMarker(|states|)], numbers[source := |states|])
  {
    NewMarker(replacements, numbers, |states|);
    StateMarkersDiffer(|states|, |states|);
    GivenNext(replacements, numbers, |states|, source);
    StoredNext(runtimeStates, data, states, replacements, source, StateMarker(|states|));
    TodoNext(runtimeStates, todo, replacements, source, StateMarker(|states|));
  }

  lemma PlaceholdersDone(runtimeStates: map<string, Props>, data: Props, states: map<string, Props>,
                         replacements: map<string, string>, numbers: map<string, nat>)
    requires Halfway(runtimeStates, data, {}, states, replacements, numbers)
    ensures Placeholders(runtimeStates, data, states, replacements)
    ensures |states| == |runtimeStates| + 1
  {
    assert replacements.Keys == runtimeStates.Keys;
    forall s | s in replacements
      ensures IsMarker(replacements[s]) && replacements[s] != ROOT_MARKER && replacements[s] != NONCE_MARKER
    {
      StateMarkerIsMarker(numbers[s]);
      StateMarkersDiffer(numbers[s], numbers[s]);
    }
    forall s, u | s in replacements && u in replacements && replacements[s] == replacements[u] ensures s == u {
      StateMarkersDiffer(numbers[s], numbers[u]);
    }
  }

  method MakePlaceholders(runtimeStates: map<string, Props>, data: Props)
    returns (states: map<string, Props>, replacements: map<string, string>)
    ensures Placeholders(runtimeStates, data, states, replacements)
    ensures |states| == |runtimeStates| + 1
  {
    states, replacements := map[ROOT_MARKER := data], map[];
    var todo := runtimeStates.Keys;
    ghost var numbers: map<string, nat> := map[];
    HalfwayFirst(runtimeStates, data);
    while todo != {}
      invariant todo <= runtimeStates.Keys
      invariant Halfway(runtimeStates, data, todo, states, replacements, numbers)
    {
      var source :| source in todo;
      HalfwayNext(runtimeStates, data, todo, states, replacements, numbers, source);
      numbers := numbers[source := |states|];
      var marker := StateMarker(|states|);
      replacements := replacements[source := marker];
      states := states[marker := runtimeStates[source]];
      todo := todo - {source};
    }
    PlaceholdersDone(runtimeStates, data, states, replacements, numbers);
  }

  // ---------------------------------------------------------------- documents with holes

  /** Text with markers in it. */
  datatype Doc = Tail(text: string) | Part(text: string, marker: string, rest: Doc)

  function DocText(d: Doc): string {
    if d.Tail? then d.text else d.text + (d.marker + DocText(d.rest))
  }

  function Fill(d: Doc, replacements: map<string, string>): string {
    if d.Tail? then d.text else d.text + (Lookup(replacements, d.marker) + Fill(d.rest, replacements))
  }

  /** Behind the text the next marker is the first one to be found. */
  predicate Clean(text: string) {
    Index(text + MARKER_PREFIX, MARKER_PREFIX) == |text|
  }

  /** The markers of the document are the only marker text in it. */
  predicate Separated(d: Doc) {
    if d.Tail? then !Occurs(d.text, MARKER_PREFIX) else Clean(d.text) && IsMarker(d.marker) && Separated(d.rest)
  }

  lemma FirstFound(text: string, marker: string, rest: string)
    requires Clean(text) && IsMarker(marker)
    ensures FirstMarker(text + (marker + rest)) == Cut(text, marker, rest)
  {
    var s := text + (marker + rest);
    MarkerSplit(marker);
    var name := marker[|MARKER_PREFIX|..];
    PrefixFound(text, name + rest);
    Associative(MARKER_PREFIX, name, rest);
    NameFound(name, rest);
  }

  lemma PrefixFound(text: string, more: string)
    requires Clean(text)
    ensures var s := text + (MARKER_PREFIX + more);
            Index(s, MARKER_PREFIX) == |text| && s[..|text|] == text && s[|text| + |MARKER_PREFIX|..] == more
  {
    IndexExtends(text + MARKER_PREFIX, more, MARKER_PREFIX);
    Associative(text, MARKER_PREFIX, more);
  }

  lemma NameFound(name: string, rest: string)
    requires Index(name, "__") >= 0 && Index(name, "__") + 2 == |name|
    ensures var end := Index(name + rest, "__");
            end == Index(name, "__") && (name + rest)[..end] == name[..end] && (name + rest)[end + 2..] == rest
  {
    IndexExtends(name, rest, "__");
  }

  lemma MarkerSplit(marker: string)
    requires IsMarker(marker)
    ensures |marker| >= |MARKER_PREFIX| && marker == MARKER_PREFIX + marker[|MARKER_PREFIX|..]
    ensures var name := marker[|MARKER_PREFIX|..];
            var end := Index(name, "__");
            end >= 0 && end + 2 == |name| && marker == MARKER_PREFIX + name[..end] + "__"
  {
    MarkerParts(marker);
  }

  /** Filling a document's text fills exactly its holes. */
  lemma {:induction false} FillText(d: Doc, replacements: map<string, string>)
    requires Separated(d)
    ensures WithMarkers(DocText(d), replacements) == Fill(d, replacements)
  {
    if d.Part? {
      FirstFound(d.text, d.marker, DocText(d.rest));
      MarkerSplit(d.marker);
      FillText(d.rest, replacements);
    }
  }

  // ---------------------------------------------------------------- pages

  /** Where a page shows the token of a runtime state, the nonce, or the root token. */
  datatype Hole = Token(source: string) | Nonce | Root

  /** A page as text and holes. All kinds of holes may stand anywhere: the nonce also goes into the script and style tags
      of the HTML, and the root token into a script in front of it. */
  datatype Page = End(text: string) | Then(text: string, hole: Hole, rest: Page)

  function Shown(hole: Hole, tokens: map<string, string>, nonce: string, root: string): string {
    match hole
    case Token(source) => Lookup(tokens, source)
    case Nonce => nonce
    case Root => root
  }

  function Written(page: Page, tokens: map<string, string>, nonce: string, root: string): string {
    if page.End? then page.text
    else page.text + (Shown(page.hole, tokens, nonce, root) + Written(page.rest, tokens, nonce, root))
  }

  const STUMP: string := "__GOSH"

  predicate EndsInStump(text: string) {
    |text| >= |STUMP| && text[|text| - |STUMP|..] == STUMP
  }

  /** The text between the holes has no marker text in it and does not run into a marker; the tokens are known. */
  predicate PlainPage(page: Page, sources: set<string>) {
    && !Occurs(page.text, MARKER_PREFIX)
    && (page.Then? ==>
          !EndsInStump(page.text) && (page.hole.Token? ==> page.hole.source in sources) && PlainPage(page.rest, sources))
  }

  /** The marker found first behind a text is the one that stands there, if and only if the text has no marker text and
      does not end in all of a marker's prefix but the last underscore. */
  lemma {:induction false} CleanIff(text: string)
    ensures Clean(text) <==> !Occurs(text, MARKER_PREFIX) && !EndsInStump(text)
  {
    var s := text + MARKER_PREFIX;
    MarkerInFront(text);
    if text == "" {
      assert s == MARKER_PREFIX;
    } else {
      assert s[1..] == text[1..] + MARKER_PREFIX;
      CleanIff(text[1..]);
      StumpBehind(text);
    }
  }

  lemma StumpBehind(text: string)
    requires text != ""
    ensures EndsInStump(text) <==> text == STUMP || EndsInStump(text[1..])
  {
    if |text| > |STUMP| {
      assert text[1..][|text[1..]| - |STUMP|..] == text[|text| - |STUMP|..];
    } else if |text| == |STUMP| {
      assert text[0..] == text;
    }
  }

  /** A marker prefix lies across the border only behind the stump. */
  lemma MarkerInFront(text: string)
    ensures text != "" ==> ((MARKER_PREFIX <= text + MARKER_PREFIX) <==> MARKER_PREFIX <= text || text == STUMP)
  {
    var s, n := text + MARKER_PREFIX, |text|;
    assert forall i :: 0 <= i < 7 ==> s[i] == if i < n then text[i] else MARKER_PREFIX[i - n];
    assert (MARKER_PREFIX <= s) <==> s[..7] == MARKER_PREFIX;
    if n >= 7 {
      assert s[..7] == text[..7];
    } else if 0 < n < 6 {
      assert s[6] == MARKER_PREFIX[6 - n] && MARKER_PREFIX[6] == '_';
      assert n == 5 ==> s[5] == '_' && MARKER_PREFIX[5] == 'H';
    } else if n == 6 {
      assert s[6] == '_';
      assert s[..7] == text + "_";
      assert MARKER_PREFIX == STUMP + "_";
      assert (text + "_")[..6] == text && MARKER_PREFIX[..6] == STUMP;
    }
  }

  /** The page with a marker in every hole. */
  function PageDoc(page: Page, markers: map<string, string>): Doc {
    if page.End? then Tail(page.text)
    else Part(page.text, Shown(page.hole, markers, NONCE_MARKER, ROOT_MARKER), PageDoc(page.rest, markers))
  }

  /** Each state token's replacement, when its placeholder is filled at once. */
  function Direct(markers: map<string, string>, filled: map<string, string>): map<string, string> {
    map s | s in markers :: Lookup(filled, markers[s])
  }

  lemma {:induction false} PageDocSeparated(page: Page, markers: map<string, string>)
    requires PlainPage(page, markers.Keys) && forall s :: s in markers ==> IsMarker(markers[s])
    ensures Separated(PageDoc(page, markers))
  {
    if page.Then? {
      CleanIff(page.text);
      NonceMarkerIsMarker();
      RootMarkerIsMarker();
      PageDocSeparated(page.rest, markers);
    }
  }

  lemma {:induction false} PageDocText(page: Page, markers: map<string, string>, filled: map<string, string>)
    requires PlainPage(page, markers.Keys)
    ensures DocText(PageDoc(page, markers)) == Written(page, markers, NONCE_MARKER, ROOT_MARKER)
    ensures Fill(PageDoc(page, markers), filled)
            == Written(page, Direct(markers, filled), Lookup(filled, NONCE_MARKER), Lookup(filled, ROOT_MARKER))
  {
    if page.Then? {
      PageDocText(page.rest, markers, filled);
    }
  }

  /** A page that was written with placeholders and is filled later is the page written with the fresh tokens. */
  lemma FilledPage(page: Page, markers: map<string, string>, filled: map<string, string>)
    requires PlainPage(page, markers.Keys) && forall s :: s in markers ==> IsMarker(markers[s])
    ensures WithMarkers(Written(page, markers, NONCE_MARKER, ROOT_MARKER), filled)
            == Written(page, Direct(markers, filled), Lookup(filled, NONCE_MARKER), Lookup(filled, ROOT_MARKER))
  {
    PageDocSeparated(page, markers);
    PageDocText(page, markers, filled);
    FillText(PageDoc(page, markers), filled);
  }

  /** The document cached with the placeholders made for its states, and filled on a request with one fresh token per
      state and a nonce, is the page written with these tokens, the nonce and the root token. */
  lemma CachedDocumentTransparent(page: Page, runtimeStates: map<string, Props>, data: Props, states: map<string, Props>,
                                  replacements: map<string, string>, filled: map<string, string>)
    requires Placeholders(runtimeStates, data, states, replacements) && PlainPage(page, runtimeStates.Keys)
    requires filled.Keys == states.Keys + {NONCE_MARKER}
    ensures var tokens := Direct(replacements, filled);
            && tokens.Keys == runtimeStates.Keys
            && (forall s :: s in tokens ==> s in replacements && replacements[s] in filled && tokens[s] == filled[replacements[s]])
            && NONCE_MARKER in filled && ROOT_MARKER in filled
            && WithMarkers(Written(page, replacements, NONCE_MARKER, ROOT_MARKER), filled)
               == Written(page, tokens, filled[NONCE_MARKER], filled[ROOT_MARKER])
  {
    FreshTokens(replacements, states, filled);
    FilledPage(page, replacements, filled);
  }

  lemma FreshTokens(replacements: map<string, string>, states: map<string, Props>, filled: map<string, string>)
    requires states.Keys == {ROOT_MARKER} + replacements.Values && filled.Keys == states.Keys + {NONCE_MARKER}
    ensures forall s :: s in replacements ==> replacements[s] in filled
    ensures Direct(replacements, filled).Keys == replacements.Keys
  {
    forall s | s in replacements ensures replacements[s] in filled {
      assert replacements[s] in replacements.Values;
    }
  }

  // ---------------------------------------------------------------- texts with state attributes

  /** HTML as its texts and the values of its state attributes; it may end in an attribute that is not closed. */
  datatype StateDoc =
    | Plain(text: string)
    | Open(text: string, value: string)
    | State(text: string, value: string, rest: StateDoc)

  function StateText(d: StateDoc): string {
    match d
    case Plain(text) => text
    case Open(text, value) => text + (ATTRIBUTE + value)
    case State(text, value, rest) => text + (ATTRIBUTE + (value + ("\"" + StateText(rest))))
  }

  lemma AttributeWritten(text: string, value: string, rest: string)
    ensures StateText(State(text, value, Plain(rest))) == text + "data-gosh-state=\"" + value + "\"" + rest
  {
    Associative(value, "\"", rest);
    Associative(ATTRIBUTE, value + "\"", rest);
    Associative(ATTRIBUTE, value, "\"");
    Associative(text, ATTRIBUTE + value + "\"", rest);
    Associative(text, ATTRIBUTE + value, "\"");
    Associative(text, ATTRIBUTE, value);
  }

  /** The texts hold no start of a state attribute, and the values no quote. */
  predicate Readable(d: StateDoc) {
    && !Occurs(d.text, ATTRIBUTE)
    && (!d.Plain? ==> '"' !in d.value)
    && (d.State? ==> Readable(d.rest))
  }

  /** The values that are keys are replaced, and nothing else. */
  function Replaced(d: StateDoc, replacements: map<string, string>): StateDoc {
    if d.State?
    then State(d.text, if d.value in replacements then replacements[d.value] else d.value, Replaced(d.rest, replacements))
    else d
  }

  lemma {:induction false} AttributeFound(text: string, more: string)
    requires !Occurs(text, ATTRIBUTE)
    ensures Index(text + (ATTRIBUTE + more), ATTRIBUTE) == |text|
  {
    var s, n := text + (ATTRIBUTE + more), |ATTRIBUTE|;
    if text == "" {
      assert s == ATTRIBUTE + more;
    } else {
      assert s[0] == text[0] && s[1..] == text[1..] + (ATTRIBUTE + more);
      NotAcross(text, more);
      AttributeFound(text[1..], more);
    }
  }

  /** The attribute's start has its only quote at its end, so it does not lie across the border. */
  lemma NotAcross(text: string, more: string)
    requires text != "" && !(ATTRIBUTE <= text)
    ensures !(ATTRIBUTE <= text + (ATTRIBUTE + more))
  {
    var s, n := text + (ATTRIBUTE + more), |ATTRIBUTE|;
    assert ATTRIBUTE <= s <==> s[..n] == ATTRIBUTE;
    if |text| < n {
      assert s[..n][n - 1] == ATTRIBUTE[n - 1 - |text|];
      assert n == 17 && ATTRIBUTE[16] == '"' && forall i :: 0 <= i < 16 ==> ATTRIBUTE[i] != '"';
    } else {
      assert s[..n] == text[..n];
    }
  }

  lemma {:induction false} NoQuote(value: string, rest: string)
    requires '"' !in value
    ensures Index(value, "\"") < 0 && Index(value + ("\"" + rest), "\"") == |value|
  {
    var s := value + ("\"" + rest);
    if value == "" {
      assert s == "\"" + rest;
    } else {
      assert s[0] == value[0] && s[1..] == value[1..] + ("\"" + rest) && value[0] in value;
      assert "\""[0] == '"';
      NoQuote(value[1..], rest);
    }
  }

  lemma TokenFound(text: string, value: string, rest: string)
    requires !Occurs(text, ATTRIBUTE) && '"' !in value
    ensures FirstToken(text + (ATTRIBUTE + (value + ("\"" + rest)))) == Cut(text + ATTRIBUTE, value, "\"" + rest)
  {
    var more := value + ("\"" + rest);
    var s := text + (ATTRIBUTE + more);
    AttributeFound(text, more);
    NoQuote(value, rest);
    assert s[..|text| + |ATTRIBUTE|] == text + ATTRIBUTE && s[|text| + |ATTRIBUTE|..] == more;
    assert more[..|value|] == value && more[|value|..] == "\"" + rest;
  }

  lemma TokenNotClosed(text: string, value: string)
    requires !Occurs(text, ATTRIBUTE) && '"' !in value
    ensures FirstToken(text + (ATTRIBUTE + value)).NoCut?
  {
    var s := text + (ATTRIBUTE + value);
    AttributeFound(text, value);
    NoQuote(value, "");
    assert s[|text| + |ATTRIBUTE|..] == value;
  }

  lemma ReplaceFirst(text: string, value: string, rest: string, replacements: map<string, string>)
    requires !Occurs(text, ATTRIBUTE) && '"' !in value
    ensures WithTokens(text + (ATTRIBUTE + (value + ("\"" + rest))), replacements)
            == text + (ATTRIBUTE + (Lookup(replacements, value) + ("\"" + WithTokens(rest, replacements))))
  {
    var behind := "\"" + rest;
    TokenFound(text, value, rest);
    assert behind[1..] == rest;
    QuoteKept(behind, replacements);
    CutOnce(text + (ATTRIBUTE + (value + behind)), replacements, text + ATTRIBUTE, value, behind);
    Associative(text, ATTRIBUTE, Lookup(replacements, value) + WithTokens(behind, replacements));
  }

  lemma CutOnce(s: string, replacements: map<string, string>, before: string, name: string, after: string)
    requires FirstToken(s) == Cut(before, name, after)
    ensures WithTokens(s, replacements) == before + (Lookup(replacements, name) + WithTokens(after, replacements))
  {
  }

  /** The replacer replaces exactly the values of state attributes that are keys. */
  lemma {:induction false} ReplaceText(d: StateDoc, replacements: map<string, string>)
    requires Readable(d)
    ensures WithTokens(StateText(d), replacements) == StateText(Replaced(d, replacements))
  {
    match d
    case Plain(text) =>
    case Open(text, value) => TokenNotClosed(text, value);
    case State(text, value, rest) =>
      ReplaceText(rest, replacements);
      ReplaceFirst(text, value, StateText(rest), replacements);
  }

  /** Every text is such HTML. */
  lemma {:induction false} EveryTextReads(s: string) returns (d: StateDoc)
    ensures Readable(d) && StateText(d) == s
    decreases |s|
  {
    if Index(s, ATTRIBUTE) < 0 {
      d := Plain(s);
    } else {
      var text, more := InFront(s);
      var end := Index(more, "\"");
      if end < 0 {
        NoneFound(more);
        d := Open(text, more);
      } else {
        var rest := EveryTextReads(more[end + 1..]);
        SplitOut(more, end, "\"");
        QuoteNotBefore(more, end);
        d := State(text, more[..end], rest);
      }
    }
  }

  /** What stands in front of the first attribute's start and behind it. */
  lemma InFront(s: string) returns (text: string, more: string)
    requires Index(s, ATTRIBUTE) >= 0
    ensures s == text + (ATTRIBUTE + more) && !Occurs(text, ATTRIBUTE) && |more| < |s|
  {
    var start := Index(s, ATTRIBUTE);
    text, more := s[..start], s[start + |ATTRIBUTE|..];
    SplitOut(s, start, ATTRIBUTE);
    NotBefore(s, start);
  }

  lemma {:induction false} NotBefore(s: string, start: nat)
    requires Index(s, ATTRIBUTE) == start
    ensures !Occurs(s[..start], ATTRIBUTE)
  {
    if start > 0 {
      assert s[..start][1..] == s[1..][..start - 1];
      ShorterFront(s, start, ATTRIBUTE);
      NotBefore(s[1..], start - 1);
    }
  }

  lemma ShorterFront(s: string, k: nat, pattern: string)
    requires k <= |s|
    ensures pattern <= s[..k] ==> pattern <= s
  {
  }

  lemma {:induction false} NoneFound(value: string)
    requires Index(value, "\"") < 0
    ensures '"' !in value
  {
    if value != "" {
      assert value[0] != '"' by { assert "\"" <= value <==> value[0] == '"'; }
      NoneFound(value[1..]);
    }
  }

  lemma {:induction false} QuoteNotBefore(value: string, end: nat)
    requires Index(value, "\"") == end
    ensures '"' !in value[..end]
  {
    if end > 0 {
      assert value[0] != '"' by { assert "\"" <= value <==> value[0] == '"'; }
      QuoteNotBefore(value[1..], end - 1);
      assert value[..end] == [value[0]] + value[1..][..end - 1];
    }
  }

  // ---------------------------------------------------------------- HTML with state attributes

  function Behind(text: string, page: Page): Page {
    page.(text := text + page.text)
  }

  lemma BehindText(text: string, page: Page, tokens: map<string, string>, nonce: string, root: string)
    ensures Written(Behind(text, page), tokens, nonce, root) == text + Written(page, tokens, nonce, root)
  {
    if page.Then? {
      Associative(text, page.text, Shown(page.hole, tokens, nonce, root) + Written(page.rest, tokens, nonce, root));
    }
  }

  /** HTML as a page: the values of its state attributes that are known tokens are holes. */
  function TokenPage(html: string, sources: set<string>): Page
    decreases |html|
  {
    var c := FirstToken(html);
    if c.NoCut? then End(html)
    else if c.name in sources then Then(c.before, Token(c.name), TokenPage(c.after, sources))
    else Behind(c.before + c.name, TokenPage(c.after, sources))
  }

  /** Replacing the tokens of HTML writes its page. */
  lemma {:induction false} TokenPageText(html: string, tokens: map<string, string>, nonce: string, root: string)
    ensures Written(TokenPage(html, tokens.Keys), tokens, nonce, root) == WithTokens(html, tokens)
    decreases |html|
  {
    var c := FirstToken(html);
    if c.Cut? {
      TokenPageText(c.after, tokens, nonce, root);
      if c.name !in tokens {
        BehindText(c.before + c.name, TokenPage(c.after, tokens.Keys), tokens, nonce, root);
        Associative(c.before, c.name, WithTokens(c.after, tokens));
      }
    }
  }

  lemma FirstTokenQuote(html: string)
    ensures var c := FirstToken(html); c.Cut? ==> c.before != "" && c.before[|c.before| - 1] == '"'
  {
    var c := FirstToken(html);
    if c.Cut? {
      var start := Index(html, ATTRIBUTE);
      assert html[start..start + |ATTRIBUTE|] == ATTRIBUTE;
      assert c.before[|c.before| - 1] == html[start..start + |ATTRIBUTE|][|ATTRIBUTE| - 1];
    }
  }

  /** `lead` is unreplaced HTML in front. */
  lemma {:induction false} TokenPagePlain(lead: string, html: string, sources: set<string>)
    requires !Occurs(lead + html, MARKER_PREFIX)
    ensures PlainPage(Behind(lead, TokenPage(html, sources)), sources)
    decreases |html|
  {
    var c := FirstToken(html);
    if c.Cut? {
      TokenParts(html);
      if c.name in sources {
        LeadIsPlain(lead, html);
        TokenPagePlain("", c.after, sources);
        BehindNothing(TokenPage(c.after, sources));
      } else {
        Associative(c.before, c.name, c.after);
        Associative(lead, c.before + c.name, c.after);
        TokenPagePlain(lead + (c.before + c.name), c.after, sources);
        Associative(lead, c.before + c.name, TokenPage(c.after, sources).text);
      }
    }
  }

  lemma LeadIsPlain(lead: string, html: string)
    requires !Occurs(lead + html, MARKER_PREFIX) && FirstToken(html).Cut?
    ensures var text := lead + FirstToken(html).before;
            !Occurs(text, MARKER_PREFIX) && !EndsInStump(text) && !Occurs("" + FirstToken(html).after, MARKER_PREFIX)
  {
    var c := FirstToken(html);
    TokenParts(html);
    FirstTokenQuote(html);
    Associative(lead, c.before, c.name + c.after);
    OccursNowhere(lead + c.before, c.name + c.after, MARKER_PREFIX);
    OccursNowhere(c.name, c.after, MARKER_PREFIX);
    assert "" + c.after == c.after;
    NoStumpBehindQuote(lead + c.before);
  }

  lemma NoStumpBehindQuote(text: string)
    requires text != "" && text[|text| - 1] == '"'
    ensures !EndsInStump(text)
  {
    assert |text| >= |STUMP| ==> text[|text| - |STUMP|..][|STUMP| - 1] == '"';
    assert STUMP[|STUMP| - 1] == 'H';
  }

  lemma BehindNothing(page: Page)
    ensures Behind("", page) == page
  {
    assert "" + page.text == page.text;
  }

  /** Placeholder caching is transparent: in HTML without marker text of its own, filling the placeholders later gives
      the same bytes as replacing the tokens directly. */
  lemma Transparent(html: string, markers: map<string, string>, filled: map<string, string>)
    requires !Occurs(html, MARKER_PREFIX)
    requires forall s :: s in markers ==> IsMarker(markers[s])
    ensures WithMarkers(WithTokens(html, markers), filled) == WithTokens(html, Direct(markers, filled))
  {
    var page := TokenPage(html, markers.Keys);
    assert "" + html == html;
    TokenPagePlain("", html, markers.Keys);
    BehindNothing(page);
    assert Direct(markers, filled).Keys == markers.Keys;
    TokenPageText(html, markers, NONCE_MARKER, ROOT_MARKER);
    TokenPageText(html, Direct(markers, filled), Lookup(filled, NONCE_MARKER), Lookup(filled, ROOT_MARKER));
    FilledPage(page, markers, filled);
  }
}
