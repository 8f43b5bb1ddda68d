/** Route patterns: a path matches a pattern exactly when it is the pattern with its parameters filled in. */
module RouteMatch {
  import opened Options
  import opened Texts

  type Params = map<string, string>

  datatype Segment = Static(lit: string) | Param(name: string) | Wildcard(name: string)

  // ---------------------------------------------------------------- paths and their parts

  predicate NoSlash(s: string) {
    forall i :: 0 <= i < |s| ==> s[i] != '/'
  }

  /** A part of a clean path. */
  predicate Plain(part: string) {
    part != "" && NoSlash(part)
  }

  predicate AllPlain(parts: seq<string>) {
    forall i :: 0 <= i < |parts| ==> Plain(parts[i])
  }

  /** Go's `strings.Join` with a slash. */
  function Join(parts: seq<string>): string {
    if parts == [] then "" else if |parts| == 1 then parts[0] else parts[0] + "/" + Join(parts[1..])
  }

  /** Go's `strings.Split` at slashes. */
  function Split(s: string): (parts: seq<string>)
    ensures parts != []
    ensures forall i :: 0 <= i < |parts| ==> NoSlash(parts[i])
  {
    if s == "" then [""]
    else
      var rest := Split(s[1..]);
      if s[0] == '/' then [""] + rest else [[s[0]] + rest[0]] + rest[1..]
  }

  function TrimLeftSlashes(s: string): string {
    if s != "" && s[0] == '/' then TrimLeftSlashes(s[1..]) else s
  }

  function TrimSlashes(s: string): string {
    TrimRightSlashes(TrimLeftSlashes(s))
  }

  function TrimRightSlashes(s: string): string {
    if s != "" && s[|s| - 1] == '/' then TrimRightSlashes(s[..|s| - 1]) else s
  }

  /** A path as `cleanPath` leaves it: the root, or plain parts behind single slashes. */
  ghost predicate Cleaned(p: string) {
    p == "/" || exists parts :: PathOf(parts, p)
  }

  ghost predicate PathOf(parts: seq<string>, p: string) {
    parts != [] && AllPlain(parts) && p == "/" + Join(parts)
  }

  lemma {:induction false} SplitPart(part: string, rest: string)
    requires NoSlash(part)
    ensures Split(part + "/" + rest) == [part] + Split(rest)
  {
    var s := part + "/" + rest;
    if part == "" {
      assert s == "/" + rest && s[1..] == rest;
    } else {
      assert s[0] == part[0] && s[1..] == part[1..] + "/" + rest;
      SplitPart(part[1..], rest);
      assert [part[0]] + part[1..] == part;
    }
  }

  lemma {:induction false} SplitWhole(part: string)
    requires NoSlash(part)
    ensures Split(part) == [part]
  {
    if part != "" {
      SplitWhole(part[1..]);
      assert [part[0]] + part[1..] == part;
    }
  }

  lemma {:induction false} SplitOfJoin(parts: seq<string>)
    requires parts != [] && forall i :: 0 <= i < |parts| ==> NoSlash(parts[i])
    ensures Split(Join(parts)) == parts
  {
    if |parts| == 1 {
      SplitWhole(parts[0]);
    } else {
      SplitPart(parts[0], Join(parts[1..]));
      SplitOfJoin(parts[1..]);
    }
  }

  lemma {:induction false} JoinEnds(parts: seq<string>)
    requires parts != [] && AllPlain(parts)
    ensures Join(parts) != "" && Join(parts)[0] != '/' && Join(parts)[|Join(parts)| - 1] != '/'
  {
    if |parts| > 1 { JoinEnds(parts[1..]); }
  }

  /** The parts of a clean path are what splitting finds. */
  lemma SplitOfPath(parts: seq<string>, p: string)
    requires PathOf(parts, p)
    ensures p != "/" && Split(TrimSlashes(p)) == parts
  {
    JoinEnds(parts);
    assert p[1..] == Join(parts);
    assert TrimLeftSlashes(p) == TrimLeftSlashes(p[1..]);
    SplitOfJoin(parts);
  }

  /** Go's `path.Clean` on the parts of a rooted path: empty and single-dot parts go, double dots take a part away. */
  function Resolve(parts: seq<string>, kept: seq<string>): seq<string>
    decreases |parts|
  {
    if parts == [] then kept
    else if parts[0] == "" || parts[0] == "." then Resolve(parts[1..], kept)
    else if parts[0] == ".." then Resolve(parts[1..], if kept == [] then [] else kept[..|kept| - 1])
    else Resolve(parts[1..], kept + [parts[0]])
  }

  function CleanPath(p: string): string {
    if p == "" then "/"
    else "/" + Join(Resolve(Split(if p[0] != '/' then "/" + p else p), []))
  }

  predicate NoDots(parts: seq<string>) {
    forall i :: 0 <= i < |parts| ==> parts[i] != "." && parts[i] != ".."
  }

  lemma {:induction false} ResolveFacts(parts: seq<string>, kept: seq<string>)
    requires AllPlain(kept) && NoDots(kept) && forall i :: 0 <= i < |parts| ==> NoSlash(parts[i])
    ensures AllPlain(Resolve(parts, kept)) && NoDots(Resolve(parts, kept))
    decreases |parts|
  {
    if parts != [] {
      var kept' := if parts[0] == "" || parts[0] == "." then kept
                   else if parts[0] == ".." then (if kept == [] then [] else kept[..|kept| - 1])
                   else kept + [parts[0]];
      ResolveFacts(parts[1..], kept');
    }
  }

  lemma {:induction false} ResolvePlain(parts: seq<string>, kept: seq<string>)
    requires AllPlain(parts) && NoDots(parts)
    ensures Resolve(parts, kept) == kept + parts
    decreases |parts|
  {
    if parts == [] {
      assert kept + [] == kept;
    } else {
      ResolvePlain(parts[1..], kept + [parts[0]]);
      assert kept + [parts[0]] + parts[1..] == kept + parts;
    }
  }

  /** Cleaning gives a clean path, and leaves it alone the next time. */
  lemma CleanPathIsClean(p: string)
    ensures Cleaned(CleanPath(p)) && CleanPath(CleanPath(p)) == CleanPath(p)
  {
    var parts := if p == "" then [] else Resolve(Split(if p[0] != '/' then "/" + p else p), []);
    if p != "" { ResolveFacts(Split(if p[0] != '/' then "/" + p else p), []); }
    assert CleanPath(p) == "/" + Join(parts);
    CleanAgain(parts);
    assert parts != [] ==> PathOf(parts, CleanPath(p));
  }

  lemma CleanAgain(parts: seq<string>)
    requires AllPlain(parts) && NoDots(parts)
    ensures CleanPath("/" + Join(parts)) == "/" + Join(parts)
  {
    assert "/" + Join(parts) == "" + "/" + Join(parts);
    SplitPart("", Join(parts));
    if parts == [] {
      SplitWhole("");
      assert ([""] + [""])[1..] == [""] && [""][1..] == [];
    } else {
      SplitOfJoin(parts);
      assert ([""] + parts)[1..] == parts;
      ResolvePlain(parts, []);
      assert [] + parts == parts;
    }
  }

  lemma From<T>(s: seq<T>, i: nat)
    requires i < |s|
    ensures s[i..] != [] && s[i..][0] == s[i] && s[i..][1..] == s[i + 1..]
  {
  }

  // ---------------------------------------------------------------- patterns

  function SegmentOf(part: string): Segment {
    if part != "" && part[0] == ':' && |part| > 1 then Param(part[1..])
    else if part != "" && part[0] == '*' then Wildcard(part[1..])
    else Static(part)
  }

  /** Nothing behind a wildcard counts. */
  function SegmentsOf(parts: seq<string>): seq<Segment> {
    if parts == [] then []
    else if SegmentOf(parts[0]).Wildcard? then [SegmentOf(parts[0])]
    else [SegmentOf(parts[0])] + SegmentsOf(parts[1..])
  }

  function Compiled(p: string): seq<Segment> {
    if p == "/" then [Static("/")] else SegmentsOf(Split(TrimSlashes(p)))
  }

  method CompilePattern(p: string) returns (segs: seq<Segment>)
    ensures segs == Compiled(p)
  {
    if p == "/" {
      return [Static("/")];
    }
    var parts := Split(TrimSlashes(p));
    segs := [];
    for i := 0 to |parts|
      invariant segs + SegmentsOf(parts[i..]) == SegmentsOf(parts)
    {
      var part := parts[i];
      From(parts, i);
      if |part| > 1 && part[0] == ':' {
        Associative(segs, [SegmentOf(part)], SegmentsOf(parts[i + 1..]));
        segs := segs + [Param(part[1..])];
      } else if part != "" && part[0] == '*' {
        var name := "";
        if |part| > 1 { name := part[1..]; }
        assert name == part[1..];
        return segs + [Wildcard(name)];
      } else {
        Associative(segs, [SegmentOf(part)], SegmentsOf(parts[i + 1..]));
        segs := segs + [Static(part)];
      }
    }
    assert segs + [] == segs;
  }

  /** What compiling a clean pattern gives: plain literals, and a wildcard only at the end. */
  predicate WellFormed(segs: seq<Segment>) {
    && segs != []
    && (forall i :: 0 <= i < |segs| && segs[i].Static? ==> Plain(segs[i].lit))
    && (forall i :: 0 <= i < |segs| - 1 ==> !segs[i].Wildcard?)
  }

  lemma {:induction false} SegmentsWellFormed(parts: seq<string>)
    requires parts != [] && AllPlain(parts)
    ensures WellFormed(SegmentsOf(parts))
  {
    if |parts| > 1 && !SegmentOf(parts[0]).Wildcard? {
      SegmentsWellFormed(parts[1..]);
    } else if !SegmentOf(parts[0]).Wildcard? {
      assert SegmentsOf(parts[1..]) == [];
    }
  }

  lemma CompiledWellFormed(p: string)
    requires Cleaned(p) && p != "/"
    ensures WellFormed(Compiled(p))
  {
    var parts :| PathOf(parts, p);
    SplitOfPath(parts, p);
    SegmentsWellFormed(parts);
  }

  // ---------------------------------------------------------------- matching

  function SplitPath(p: string): seq<string> {
    if p == "/" then ["/"] else Split(TrimSlashes(p))
  }

  function MatchFrom(segs: seq<Segment>, parts: seq<string>, params: Params): Option<Params> {
    if segs == [] || parts == [] then if segs == [] && parts == [] then Some(params) else None
    else match segs[0]
      case Static(lit) => if parts[0] == lit then MatchFrom(segs[1..], parts[1..], params) else None
      case Param(name) => MatchFrom(segs[1..], parts[1..], params[name := parts[0]])
      case Wildcard(name) => Some(if name != "" then params[name := Join(parts)] else params)
  }

  predicate Root(segs: seq<Segment>) {
    segs == [Static("/")]
  }

  function Match(segs: seq<Segment>, p: string): Option<Params> {
    if Root(segs) then if p == "/" then Some(map[]) else None
    else MatchFrom(segs, SplitPath(p), map[])
  }

  method MatchSegments(segs: seq<Segment>, p: string) returns (r: Option<Params>)
    ensures r == Match(segs, p)
  {
    var params: Params := map[];
    if |segs| == 1 && segs[0].Static? && segs[0].lit == "/" {
      assert segs == [Static("/")];
      return if p == "/" then Some(params) else None;
    }
    var parts := SplitPath(p);
    var si, pi := 0, 0;
    while si < |segs| && pi < |parts|
      invariant si <= |segs| && pi <= |parts|
      invariant MatchFrom(segs[si..], parts[pi..], params) == Match(segs, p)
    {
      From(segs, si);
      From(parts, pi);
      match segs[si]
      case Static(lit) =>
        if parts[pi] != lit { return None; }
        si, pi := si + 1, pi + 1;
      case Param(name) =>
        params := params[name := parts[pi]];
        si, pi := si + 1, pi + 1;
      case Wildcard(name) =>
        if name != "" { params := params[name := Join(parts[pi..])]; }
        return Some(params);
    }
    return if si == |segs| && pi == |parts| then Some(params) else None;
  }

  method FastMatchNoParams(segs: seq<Segment>, p: string) returns (ok: bool)
    ensures ok <==> Match(segs, p).Some?
  {
    if |segs| == 1 && segs[0].Static? && segs[0].lit == "/" {
      assert segs == [Static("/")];
      return p == "/";
    }
    var parts := SplitPath(p);
    var si, pi := 0, 0;
    while si < |segs| && pi < |parts|
      invariant si <= |segs| && pi <= |parts|
      invariant MatchFrom(segs[si..], parts[pi..], map[]).Some? <==> Match(segs, p).Some?
    {
      From(segs, si);
      From(parts, pi);
      match segs[si]
      case Static(lit) =>
        if parts[pi] != lit { return false; }
        si, pi := si + 1, pi + 1;
      case Param(name) =>
        SameSuccess(segs[si + 1..], parts[pi + 1..], map[name := parts[pi]], map[]);
        si, pi := si + 1, pi + 1;
      case Wildcard(_) =>
        return true;
    }
    return si == |segs| && pi == |parts|;
  }

  /** Whether a path matches does not depend on the parameters taken so far. */
  lemma {:induction false} SameSuccess(segs: seq<Segment>, parts: seq<string>, a: Params, b: Params)
    ensures MatchFrom(segs, parts, a).Some? <==> MatchFrom(segs, parts, b).Some?
    decreases |segs|
  {
    if segs != [] && parts != [] {
      match segs[0]
      case Static(_) => SameSuccess(segs[1..], parts[1..], a, b);
      case Param(name) => SameSuccess(segs[1..], parts[1..], a[name := parts[0]], b[name := parts[0]]);
      case Wildcard(_) =>
    }
  }

  // ---------------------------------------------------------------- instances

  /** A text that may stand for the segment: the literal itself, one part, or one part or more. */
  ghost predicate Fits(seg: Segment, text: string) {
    match seg
    case Static(lit) => text == lit
    case Param(_) => Plain(text)
    case Wildcard(_) => exists parts :: parts != [] && AllPlain(parts) && text == Join(parts)
  }

  /** The path is the pattern with a fitting text for each segment. */
  ghost predicate InstanceBy(segs: seq<Segment>, texts: seq<string>, p: string) {
    && |texts| == |segs|
    && (forall i {:trigger Fits(segs[i], texts[i])} :: 0 <= i < |segs| ==> Fits(segs[i], texts[i]))
    && p == "/" + Join(texts)
  }

  ghost predicate Instance(segs: seq<Segment>, p: string) {
    exists texts :: InstanceBy(segs, texts, p)
  }

  /** The parameters that the texts give. */
  function Bind(segs: seq<Segment>, texts: seq<string>, params: Params): Params
    requires |texts| == |segs|
    decreases |segs|
  {
    if segs == [] then params
    else match segs[0]
      case Static(_) => Bind(segs[1..], texts[1..], params)
      case Param(name) => Bind(segs[1..], texts[1..], params[name := texts[0]])
      case Wildcard(name) => Bind(segs[1..], texts[1..], if name != "" then params[name := texts[0]] else params)
  }

  lemma {:induction false} TextsOfMatch(segs: seq<Segment>, parts: seq<string>, params: Params) returns (texts: seq<string>)
    requires segs != [] && parts != [] && WellFormed(segs) && AllPlain(parts) && MatchFrom(segs, parts, params).Some?
    ensures |texts| == |segs| && forall i {:trigger Fits(segs[i], texts[i])} :: 0 <= i < |segs| ==> Fits(segs[i], texts[i])
    ensures Join(texts) == Join(parts)
    decreases |segs|
  {
    if segs[0].Wildcard? {
      texts := [Join(parts)];
      assert |segs| == 1;
      assert Fits(segs[0], texts[0]);
    } else if |segs| == 1 {
      texts := [parts[0]];
      assert parts[1..] == [] && parts == texts;
    } else {
      var params' := if segs[0].Param? then params[segs[0].name := parts[0]] else params;
      var rest := TextsOfMatch(segs[1..], parts[1..], params');
      texts := [parts[0]] + rest;
      assert texts[1..] == rest;
      forall i | 0 <= i < |segs| ensures Fits(segs[i], texts[i]) {
        if i > 0 { assert Fits(segs[1..][i - 1], rest[i - 1]); }
      }
    }
  }

  lemma {:induction false} JoinParts(parts: seq<string>, more: seq<string>)
    requires parts != [] && more != []
    ensures Join(parts + more) == Join(parts) + "/" + Join(more)
  {
    if |parts| == 1 {
      assert (parts + more)[1..] == more;
    } else {
      assert (parts + more)[1..] == parts[1..] + more;
      JoinParts(parts[1..], more);
      Associative(parts[0] + "/", Join(parts[1..]), "/" + Join(more));
      Associative(Join(parts[1..]), "/", Join(more));
      Associative(parts[0] + "/" + Join(parts[1..]), "/", Join(more));
    }
  }

  lemma {:induction false} MatchOfTexts(segs: seq<Segment>, texts: seq<string>, params: Params) returns (parts: seq<string>)
    requires WellFormed(segs) && |texts| == |segs|
    requires forall i {:trigger Fits(segs[i], texts[i])} :: 0 <= i < |segs| ==> Fits(segs[i], texts[i])
    ensures parts != [] && AllPlain(parts) && Join(parts) == Join(texts)
    ensures MatchFrom(segs, parts, params) == Some(Bind(segs, texts, params))
    decreases |segs|
  {
    assert Fits(segs[0], texts[0]);
    if segs[0].Wildcard? {
      parts :| parts != [] && AllPlain(parts) && texts[0] == Join(parts);
      assert |segs| == 1;
    } else if |segs| == 1 {
      parts := texts;
      assert parts[1..] == [];
    } else {
      var params' := if segs[0].Param? then params[segs[0].name := texts[0]] else params;
      forall i | 0 <= i < |segs[1..]| ensures Fits(segs[1..][i], texts[1..][i]) {
        assert Fits(segs[i + 1], texts[i + 1]);
      }
      var rest := MatchOfTexts(segs[1..], texts[1..], params');
      parts := [texts[0]] + rest;
      assert parts[1..] == rest;
    }
  }

  /** A clean path matches a compiled pattern exactly when it is an instance of it, and the parameters are then the texts
      that stand for the named segments. */
  lemma MatchIffInstance(segs: seq<Segment>, p: string)
    requires WellFormed(segs) && Cleaned(p) && p != "/"
    ensures Match(segs, p).Some? <==> Instance(segs, p)
    ensures forall texts :: InstanceBy(segs, texts, p) ==> Match(segs, p) == Some(Bind(segs, texts, map[]))
  {
    var parts :| PathOf(parts, p);
    SplitOfPath(parts, p);
    assert !Root(segs) by { assert segs[0].Static? ==> Plain(segs[0].lit); }
    if Match(segs, p).Some? {
      var texts := TextsOfMatch(segs, parts, map[]);
      assert InstanceBy(segs, texts, p);
    }
    forall texts | InstanceBy(segs, texts, p) ensures Match(segs, p) == Some(Bind(segs, texts, map[])) {
      var parts' := MatchOfTexts(segs, texts, map[]);
      assert PathOf(parts', p);
      SplitOfPath(parts', p);
    }
  }

  // ---------------------------------------------------------------- substitution

  predicate Named(segs: seq<Segment>) {
    && (forall i :: 0 <= i < |segs| && !segs[i].Static? ==> segs[i].name != "")
    && (forall i, j :: 0 <= i < j < |segs| && !segs[i].Static? && !segs[j].Static? ==> segs[i].name != segs[j].name)
  }

  predicate Covers(params: Params, segs: seq<Segment>) {
    forall i :: 0 <= i < |segs| && !segs[i].Static? ==> segs[i].name in params
  }

  function Filled(seg: Segment, params: Params): string
    requires !seg.Static? ==> seg.name in params
  {
    if seg.Static? then seg.lit else params[seg.name]
  }

  function FilledAll(segs: seq<Segment>, params: Params): (texts: seq<string>)
    requires Covers(params, segs)
    ensures |texts| == |segs| && forall i :: 0 <= i < |segs| ==> texts[i] == Filled(segs[i], params)
  {
    seq(|segs|, i requires 0 <= i < |segs| => Filled(segs[i], params))
  }

  /** The pattern with its parameters filled in. */
  function Substitute(segs: seq<Segment>, params: Params): string
    requires Covers(params, segs)
  {
    "/" + Join(FilledAll(segs, params))
  }

  lemma {:induction false} BindKeeps(segs: seq<Segment>, texts: seq<string>, params: Params, name: string)
    requires |texts| == |segs| && name in params
    requires forall i :: 0 <= i < |segs| && !segs[i].Static? ==> segs[i].name != name
    ensures name in Bind(segs, texts, params) && Bind(segs, texts, params)[name] == params[name]
    decreases |segs|
  {
    if segs != [] {
      var params' := if segs[0].Static? || (segs[0].Wildcard? && segs[0].name == "") then params else params[segs[0].name := texts[0]];
      assert forall i :: 0 <= i < |segs[1..]| ==> segs[1..][i] == segs[i + 1];
      BindKeeps(segs[1..], texts[1..], params', name);
    }
  }

  lemma {:induction false} BindGives(segs: seq<Segment>, texts: seq<string>, params: Params, i: nat)
    requires |texts| == |segs| && Named(segs) && i < |segs| && !segs[i].Static?
    ensures segs[i].name in Bind(segs, texts, params) && Bind(segs, texts, params)[segs[i].name] == texts[i]
    decreases |segs|
  {
    var params' := if segs[0].Static? then params else params[segs[0].name := texts[0]];
    assert forall k :: 0 <= k < |segs[1..]| ==> segs[1..][k] == segs[k + 1];
    if i == 0 {
      BindKeeps(segs[1..], texts[1..], params', segs[0].name);
    } else {
      BindGives(segs[1..], texts[1..], params', i - 1);
    }
  }

  /** Substituting the parameters of a match gives the path back, when the names are distinct and the wildcard has one. */
  lemma SubstituteInvertsMatch(segs: seq<Segment>, p: string)
    requires WellFormed(segs) && Cleaned(p) && p != "/" && Named(segs) && Match(segs, p).Some?
    ensures Covers(Match(segs, p).value, segs) && Substitute(segs, Match(segs, p).value) == p
  {
    MatchIffInstance(segs, p);
    var texts :| InstanceBy(segs, texts, p);
    var params := Match(segs, p).value;
    forall i | 0 <= i < |segs| && !segs[i].Static? ensures segs[i].name in params && params[segs[i].name] == texts[i] {
      BindGives(segs, texts, map[], i);
    }
    forall i | 0 <= i < |segs| ensures FilledAll(segs, params)[i] == texts[i] {
      assert Fits(segs[i], texts[i]);
    }
    assert FilledAll(segs, params) == texts;
  }

  /** And matching a substitution of fitting values gives those values back. */
  lemma MatchInvertsSubstitute(segs: seq<Segment>, params: Params)
    requires WellFormed(segs) && Named(segs) && Covers(params, segs)
    requires forall i {:trigger Filled(segs[i], params)} :: 0 <= i < |segs| ==> Fits(segs[i], Filled(segs[i], params))
    ensures var r := Match(segs, Substitute(segs, params));
            && r.Some? && Covers(r.value, segs)
            && forall i :: 0 <= i < |segs| && !segs[i].Static? ==> r.value[segs[i].name] == params[segs[i].name]
  {
    var texts, p := FilledAll(segs, params), Substitute(segs, params);
    forall i | 0 <= i < |segs| ensures Fits(segs[i], texts[i]) {
      assert Fits(segs[i], Filled(segs[i], params));
    }
    assert InstanceBy(segs, texts, p);
    var parts := MatchOfTexts(segs, texts, map[]);
    assert PathOf(parts, p);
    SplitOfPath(parts, p);
    MatchIffInstance(segs, p);
    forall i | 0 <= i < |segs| && !segs[i].Static?
      ensures segs[i].name in Bind(segs, texts, map[]) && Bind(segs, texts, map[])[segs[i].name] == params[segs[i].name]
    {
      BindGives(segs, texts, map[], i);
    }
  }

  lemma {:induction false} FittingNotEmpty(segs: seq<Segment>, texts: seq<string>)
    requires WellFormed(segs) && |texts| == |segs|
    requires forall i {:trigger Fits(segs[i], texts[i])} :: 0 <= i < |segs| ==> Fits(segs[i], texts[i])
    ensures Join(texts) != ""
  {
    assert Fits(segs[0], texts[0]);
    if segs[0].Wildcard? {
      var parts :| parts != [] && AllPlain(parts) && texts[0] == Join(parts);
      JoinEnds(parts);
    }
  }

  /** The root is the exception: besides the root pattern, a pattern of one parameter or one wildcard matches it, with a
      slash as the value, although no substitution gives the root. */
  lemma RootMatches(segs: seq<Segment>)
    requires WellFormed(segs) || Root(segs)
    ensures Match(segs, "/").Some? <==> |segs| == 1 && (Root(segs) || !segs[0].Static?)
    ensures |segs| == 1 && segs[0].Param? ==> Match(segs, "/") == Some(map[segs[0].name := "/"])
    ensures |segs| == 1 && segs[0].Wildcard? ==> Match(segs, "/") == Some(if segs[0].name == "" then map[] else map[segs[0].name := "/"])
    ensures WellFormed(segs) ==> !Instance(segs, "/")
  {
    if WellFormed(segs) {
      forall texts, p | InstanceBy(segs, texts, p) ensures |p| > 1 {
        FittingNotEmpty(segs, texts);
      }
    }
    if segs[0].Param? && |segs| == 1 {
      assert segs[1..] == [] && ["/"][1..] == [];
      var params: Params := map[];
      assert MatchFrom(segs[1..], ["/"][1..], params[segs[0].name := "/"]) == Some(params[segs[0].name := "/"]);
      assert params[segs[0].name := "/"] == map[segs[0].name := "/"];
    } else if segs[0].Static? && !Root(segs) {
      assert "/"[0] == '/' && !NoSlash("/");
    } else if segs[0].Param? {
      assert ["/"][1..] == [] && segs[1..] != [];
      var params: Params := map[];
      assert MatchFrom(segs[1..], ["/"][1..], params[segs[0].name := "/"]).None?;
    }
  }

  // ---------------------------------------------------------------- parameters by name

  predicate Names(seg: Segment, name: string) {
    match seg
    case Static(_) => false
    case Param(n) => n == name
    case Wildcard(n) => n == name && name != ""
  }

  predicate NamedIn(segs: seq<Segment>, name: string) {
    exists i :: 0 <= i < |segs| && Names(segs[i], name)
  }

  /** The i-th segment is the last one with the name. */
  predicate LastNamed(segs: seq<Segment>, i: nat, name: string) {
    && i < |segs| && Names(segs[i], name)
    && forall j :: i < j < |segs| ==> !Names(segs[j], name)
  }

  /** Exactly the named segments have parameters, each the text of the last segment with its name. */
  ghost predicate GivesParams(segs: seq<Segment>, texts: seq<string>, params: Params) {
    && |texts| == |segs|
    && (forall name :: name in params <==> NamedIn(segs, name))
    && (forall i: nat, name :: LastNamed(segs, i, name) && name in params ==> params[name] == texts[i])
  }

  lemma {:induction false} BindByName(segs: seq<Segment>, texts: seq<string>, params: Params, name: string)
    requires |texts| == |segs|
    ensures name in Bind(segs, texts, params) <==> NamedIn(segs, name) || name in params
    ensures !NamedIn(segs, name) && name in params ==> Bind(segs, texts, params)[name] == params[name]
    ensures forall i: nat :: LastNamed(segs, i, name) && name in Bind(segs, texts, params) ==> Bind(segs, texts, params)[name] == texts[i]
    decreases |segs|
  {
    if segs != [] {
      var params' := if segs[0].Static? || (segs[0].Wildcard? && segs[0].name == "") then params else params[segs[0].name := texts[0]];
      var rest := segs[1..];
      BindByName(rest, texts[1..], params', name);
      assert forall k :: 0 <= k < |rest| ==> rest[k] == segs[k + 1];
      assert NamedIn(segs, name) <==> Names(segs[0], name) || NamedIn(rest, name) by {
        if NamedIn(rest, name) {
          var i :| 0 <= i < |rest| && Names(rest[i], name);
          assert Names(segs[i + 1], name);
        }
      }
      forall i: nat | LastNamed(segs, i, name) ensures if i == 0 then !NamedIn(rest, name) else LastNamed(rest, i - 1, name) {
        assert forall j :: 0 <= j < |rest| ==> rest[j] == segs[j + 1];
      }
    }
  }

  /** The texts stand for the segments in the path. The root path stands for a lone parameter or wildcard. */
  ghost predicate StandsFor(segs: seq<Segment>, texts: seq<string>, p: string) {
    if p == "/" then |segs| == |texts| == 1 && !segs[0].Static? && texts[0] == "/"
    else InstanceBy(segs, texts, p)
  }

  /** A pattern matches exactly the clean paths that it stands for, with the texts of its named segments. */
  lemma MatchByTexts(segs: seq<Segment>, p: string)
    requires WellFormed(segs) && Cleaned(p)
    ensures Match(segs, p).Some? <==> exists texts :: StandsFor(segs, texts, p)
    ensures forall texts :: StandsFor(segs, texts, p) ==> Match(segs, p).Some? && GivesParams(segs, texts, Match(segs, p).value)
  {
    if p == "/" {
      RootMatches(segs);
      assert !Root(segs) by { assert "/"[0] == '/' && !NoSlash("/"); }
      if Match(segs, p).Some? {
        assert StandsFor(segs, ["/"], p);
      }
      forall texts | StandsFor(segs, texts, p) ensures GivesParams(segs, texts, Match(segs, p).value) {
        RootParams(segs, texts);
      }
    } else {
      MatchIffInstance(segs, p);
      if Match(segs, p).Some? {
        var texts :| InstanceBy(segs, texts, p);
        assert StandsFor(segs, texts, p);
      }
      forall texts | StandsFor(segs, texts, p) ensures Match(segs, p).Some? && GivesParams(segs, texts, Match(segs, p).value) {
        assert InstanceBy(segs, texts, p);
        BoundParams(segs, texts);
      }
    }
  }

  lemma RootParams(segs: seq<Segment>, texts: seq<string>)
    requires WellFormed(segs) && StandsFor(segs, texts, "/")
    ensures Match(segs, "/").Some? && GivesParams(segs, texts, Match(segs, "/").value)
  {
    RootMatches(segs);
    forall name ensures NamedIn(segs, name) <==> Names(segs[0], name) {
    }
  }

  lemma BoundParams(segs: seq<Segment>, texts: seq<string>)
    requires |texts| == |segs|
    ensures GivesParams(segs, texts, Bind(segs, texts, map[]))
  {
    forall name ensures name in Bind(segs, texts, map[]) <==> NamedIn(segs, name) {
      BindByName(segs, texts, map[], name);
    }
    forall i: nat, name | LastNamed(segs, i, name) && name in Bind(segs, texts, map[]) ensures Bind(segs, texts, map[])[name] == texts[i] {
      BindByName(segs, texts, map[], name);
    }
  }

  // ---------------------------------------------------------------- patterns as written

  function Shown(seg: Segment): string {
    match seg
    case Static(lit) => lit
    case Param(name) => ":" + name
    case Wildcard(name) => "*" + name
  }

  function ShownAll(segs: seq<Segment>): seq<string> {
    if segs == [] then [] else [Shown(segs[0])] + ShownAll(segs[1..])
  }

  /** A segment that can be written: a literal that does not read as another kind, a name without slashes. */
  predicate Writable(seg: Segment) {
    match seg
    case Static(lit) => Plain(lit) && lit[0] != '*' && (lit[0] == ':' ==> lit == ":")
    case Param(name) => Plain(name)
    case Wildcard(name) => NoSlash(name)
  }

  lemma {:induction false} SegmentsOfShown(segs: seq<Segment>)
    requires (forall i :: 0 <= i < |segs| ==> Writable(segs[i])) && (forall i :: 0 <= i < |segs| - 1 ==> !segs[i].Wildcard?)
    ensures AllPlain(ShownAll(segs)) && |ShownAll(segs)| == |segs| && SegmentsOf(ShownAll(segs)) == segs
  {
    if segs != [] {
      assert forall i :: 0 <= i < |segs[1..]| ==> segs[1..][i] == segs[i + 1];
      SegmentsOfShown(segs[1..]);
      ShownSegment(segs[0]);
      SegmentsInFront(Shown(segs[0]), ShownAll(segs[1..]));
      if segs[0].Wildcard? { assert segs == [segs[0]]; } else { assert segs == [segs[0]] + segs[1..]; }
    }
  }

  lemma SegmentsInFront(part: string, parts: seq<string>)
    ensures SegmentsOf([part] + parts) ==
            if SegmentOf(part).Wildcard? then [SegmentOf(part)] else [SegmentOf(part)] + SegmentsOf(parts)
  {
    assert ([part] + parts)[1..] == parts;
  }

  lemma ShownSegment(seg: Segment)
    requires Writable(seg)
    ensures SegmentOf(Shown(seg)) == seg && Plain(Shown(seg))
  {
    if !seg.Static? {
      assert Shown(seg)[1..] == seg.name;
    }
  }

  /** A pattern compiles to the segments it was written from. */
  lemma CompiledOfWritten(segs: seq<Segment>)
    requires segs != [] && (forall i :: 0 <= i < |segs| ==> Writable(segs[i])) && (forall i :: 0 <= i < |segs| - 1 ==> !segs[i].Wildcard?)
    ensures Compiled("/" + Join(ShownAll(segs))) == segs
  {
    SegmentsOfShown(segs);
    SplitOfPath(ShownAll(segs), "/" + Join(ShownAll(segs)));
  }

  // ---------------------------------------------------------------- cleaning by rules

  lemma {:induction false} ResolveAppend(a: seq<string>, b: seq<string>, kept: seq<string>)
    ensures Resolve(a + b, kept) == Resolve(b, Resolve(a, kept))
    decreases |a|
  {
    if a == [] {
      assert a + b == b;
    } else {
      assert (a + b)[0] == a[0] && (a + b)[1..] == a[1..] + b;
      ResolveAppend(a[1..], b, if a[0] == "" || a[0] == "." then kept
                               else if a[0] == ".." then (if kept == [] then [] else kept[..|kept| - 1])
                               else kept + [a[0]]);
    }
  }

  lemma CleanRooted(rest: string)
    ensures CleanPath("/" + rest) == "/" + Join(Resolve(Split(rest), []))
  {
    var p := "/" + rest;
    assert p == "" + "/" + rest && p[0] == '/';
    SplitPart("", rest);
    var parts := [""] + Split(rest);
    assert parts[0] == "" && parts[1..] == Split(rest);
    assert Resolve(parts, []) == Resolve(parts[1..], []);
  }

  lemma CleanOfParts(parts: seq<string>)
    requires forall i :: 0 <= i < |parts| ==> NoSlash(parts[i])
    ensures CleanPath("/" + Join(parts)) == "/" + Join(Resolve(parts, []))
  {
    CleanRooted(Join(parts));
    if parts == [] {
      assert Split("") == [""] && [""][1..] == [];
      assert Resolve([""], []) == Resolve([""][1..], []) == [];
    } else {
      SplitOfJoin(parts);
    }
  }

  /** Parts without dots stay, empty and single-dot parts go, double dots cancel the part in front of them or go at the
      root. These rules clean every rooted path. */
  lemma CleanRules(a: seq<string>, x: string, b: seq<string>)
    requires (forall i :: 0 <= i < |a| ==> NoSlash(a[i])) && (forall i :: 0 <= i < |b| ==> NoSlash(b[i]))
    requires Plain(x) && x != "." && x != ".."
    ensures AllPlain(a) && NoDots(a) ==> CleanPath("/" + Join(a)) == "/" + Join(a)
    ensures CleanPath("/" + Join(a + [""] + b)) == CleanPath("/" + Join(a + b))
    ensures CleanPath("/" + Join(a + ["."] + b)) == CleanPath("/" + Join(a + b))
    ensures CleanPath("/" + Join(a + [x, ".."] + b)) == CleanPath("/" + Join(a + b))
    ensures CleanPath("/" + Join([".."] + b)) == CleanPath("/" + Join(b))
  {
    if AllPlain(a) && NoDots(a) { CleanAgain(a); }
    Skipped("", Resolve(a, []));
    Skipped(".", Resolve(a, []));
    Cancelled(x, Resolve(a, []));
    Without(a, [""], b);
    Without(a, ["."], b);
    Without(a, [x, ".."], b);
    AboveRoot(b);
  }

  lemma Skipped(part: string, kept: seq<string>)
    requires part == "" || part == "."
    ensures Resolve([part], kept) == kept
  {
    assert [part][1..] == [];
  }

  lemma Cancelled(x: string, kept: seq<string>)
    requires Plain(x) && x != "." && x != ".."
    ensures Resolve([x, ".."], kept) == kept
  {
    assert [x, ".."][1..] == [".."] && [".."][1..] == [];
    assert (kept + [x])[..|kept + [x]| - 1] == kept;
    assert Resolve([x, ".."], kept) == Resolve([".."], kept + [x]);
    assert Resolve([".."], kept + [x]) == Resolve([], kept);
  }

  lemma AboveRoot(b: seq<string>)
    requires forall i :: 0 <= i < |b| ==> NoSlash(b[i])
    ensures CleanPath("/" + Join([".."] + b)) == CleanPath("/" + Join(b))
  {
    var parts := [".."] + b;
    UpFromRoot(b);
    assert forall i :: 0 <= i < |parts| ==> parts[i] == if i == 0 then ".." else b[i - 1];
    assert NoSlash("..");
    CleanOfParts(parts);
    CleanOfParts(b);
  }

  lemma UpFromRoot(b: seq<string>)
    ensures Resolve([".."] + b, []) == Resolve(b, [])
  {
    assert ([".."] + b)[0] == ".." && ([".."] + b)[1..] == b;
  }

  lemma Without(a: seq<string>, more: seq<string>, b: seq<string>)
    requires (forall i :: 0 <= i < |a| ==> NoSlash(a[i])) && (forall i :: 0 <= i < |b| ==> NoSlash(b[i]))
    requires forall i :: 0 <= i < |more| ==> NoSlash(more[i])
    requires Resolve(more, Resolve(a, [])) == Resolve(a, [])
    ensures CleanPath("/" + Join(a + more + b)) == CleanPath("/" + Join(a + b))
  {
    CleanOfParts(a + more + b);
    CleanOfParts(a + b);
    ResolveAppend(a + more, b, []);
    ResolveAppend(a, more, []);
    ResolveAppend(a, b, []);
  }
}
